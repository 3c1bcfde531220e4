/** The switch tables of cero/syntax/parser.cc, and the grammar they amount to:
    how a tree is spelled as tokens, and which trees have a spelling that reads back as themselves. */
module Grammar {
  import opened Tokens
  import opened Ast

  // ---------------------------------------------------------------- precedence levels

  type Precedence = x: int | 0 <= x <= 7

  const STATEMENT: Precedence := 0
  const ASSIGNMENT: Precedence := 1
  const LOGICAL: Precedence := 2
  const COMPARISON: Precedence := 3
  const ADDITIVE_OR_BIT: Precedence := 4
  const MULTIPLICATIVE: Precedence := 5
  const PREFIX: Precedence := 6
  const POSTFIX: Precedence := 7

  /** The level at which the right operand of a binary operator is parsed. */
  function AssociativityPrecedence(op: BinaryOperator): Precedence {
    match op
    case Add | Sub => ADDITIVE_OR_BIT
    case Mul | Div | Rem => MULTIPLICATIVE
    case BitAnd | BitOr | BitXor | Shl | Shr => ADDITIVE_OR_BIT
    case Equal | NotEqual | Less | LessEq | Greater | GreaterEq => COMPARISON
    case LogicAnd | LogicOr => LOGICAL
    case Assign | AddAssign | SubAssign | MulAssign | DivAssign | RemAssign => ASSIGNMENT
    case BitAndAssign | BitOrAssign | XorAssign | ShlAssign | ShrAssign => ASSIGNMENT
    case LogicAndAssign | LogicOrAssign => ASSIGNMENT
  }

  // ---------------------------------------------------------------- head and tail rules

  datatype Head =
    | NoHead | IdentHead | LiteralHead(lit: LiteralKind) | BlockHead | ReturnHead | PrefixHead(op: UnaryOperator)

  function HeadRule(kind: TokenKind): Head {
    match kind
    case Identifier => IdentHead
    case DecIntLiteral => LiteralHead(DecInt)
    case HexIntLiteral => LiteralHead(HexInt)
    case BinIntLiteral => LiteralHead(BinInt)
    case OctIntLiteral => LiteralHead(OctInt)
    case FloatLiteral => LiteralHead(Float)
    case CharLiteral => LiteralHead(Char)
    case StringLiteral => LiteralHead(String)
    case LBrace => BlockHead
    case KwReturn => ReturnHead
    case Ampersand => PrefixHead(AddrOf)
    case Minus => PrefixHead(Negate)
    case Tilde => PrefixHead(BitNot)
    case Bang => PrefixHead(LogicNot)
    case PlusPlus => PrefixHead(PreIncrement)
    case MinusMinus => PrefixHead(PreDecrement)
    case _ => NoHead
  }

  datatype Tail = NoTail | InfixTail(op: BinaryOperator) | PostfixTail(postfixOp: UnaryOperator) | CallTail

  datatype TailRule = TailRule(precedence: Precedence, tail: Tail)

  /** `shift` says whether a `>` right after a `>` follows. */
  function LookupTailRule(kind: TokenKind, shift: bool): TailRule {
    match kind
    case Eq => TailRule(ASSIGNMENT, InfixTail(Assign))
    case PlusEq => TailRule(ASSIGNMENT, InfixTail(AddAssign))
    case MinusEq => TailRule(ASSIGNMENT, InfixTail(SubAssign))
    case StarEq => TailRule(ASSIGNMENT, InfixTail(MulAssign))
    case SlashEq => TailRule(ASSIGNMENT, InfixTail(DivAssign))
    case PercentEq => TailRule(ASSIGNMENT, InfixTail(RemAssign))
    case AmpersandEq => TailRule(ASSIGNMENT, InfixTail(BitAndAssign))
    case PipeEq => TailRule(ASSIGNMENT, InfixTail(BitOrAssign))
    case TildeEq => TailRule(ASSIGNMENT, InfixTail(XorAssign))
    case LAngleAngleEq => TailRule(ASSIGNMENT, InfixTail(ShlAssign))
    case RAngleAngleEq => TailRule(ASSIGNMENT, InfixTail(ShrAssign))
    case AndAndEq => TailRule(ASSIGNMENT, InfixTail(LogicAndAssign))
    case PipePipeEq => TailRule(ASSIGNMENT, InfixTail(LogicOrAssign))
    case AndAnd => TailRule(LOGICAL, InfixTail(LogicAnd))
    case PipePipe => TailRule(LOGICAL, InfixTail(LogicOr))
    case EqEq => TailRule(COMPARISON, InfixTail(Equal))
    case BangEq => TailRule(COMPARISON, InfixTail(NotEqual))
    case LAngle => TailRule(COMPARISON, InfixTail(Less))
    case LAngleEq => TailRule(COMPARISON, InfixTail(LessEq))
    case RAngleEq => TailRule(COMPARISON, InfixTail(GreaterEq))
    case Plus => TailRule(ADDITIVE_OR_BIT, InfixTail(Add))
    case Minus => TailRule(ADDITIVE_OR_BIT, InfixTail(Sub))
    case Ampersand => TailRule(ADDITIVE_OR_BIT, InfixTail(BitAnd))
    case Pipe => TailRule(ADDITIVE_OR_BIT, InfixTail(BitOr))
    case Tilde => TailRule(ADDITIVE_OR_BIT, InfixTail(BitXor))
    case LAngleAngle => TailRule(ADDITIVE_OR_BIT, InfixTail(Shl))
    case Star => TailRule(MULTIPLICATIVE, InfixTail(Mul))
    case Slash => TailRule(MULTIPLICATIVE, InfixTail(Div))
    case Percent => TailRule(MULTIPLICATIVE, InfixTail(Rem))
    case Caret => TailRule(POSTFIX, PostfixTail(Deref))
    case PlusPlus => TailRule(POSTFIX, PostfixTail(PostIncrement))
    case MinusMinus => TailRule(POSTFIX, PostfixTail(PostDecrement))
    case LParen => TailRule(POSTFIX, CallTail)
    case RAngle => if shift then TailRule(ADDITIVE_OR_BIT, InfixTail(Shr)) else TailRule(COMPARISON, InfixTail(Greater))
    case _ => TailRule(STATEMENT, NoTail)
  }

  predicate IsHead(kind: TokenKind) {
    HeadRule(kind) != NoHead
  }

  predicate IsTail(kind: TokenKind) {
    LookupTailRule(kind, false).tail != NoTail
  }

  predicate IsPrefixOperator(op: UnaryOperator) {
    !(op in {PostIncrement, PostDecrement, Deref})
  }

  // ---------------------------------------------------------------- spelling

  function LiteralToken(kind: LiteralKind): TokenKind {
    match kind
    case DecInt => DecIntLiteral
    case HexInt => HexIntLiteral
    case BinInt => BinIntLiteral
    case OctInt => OctIntLiteral
    case Float => FloatLiteral
    case Char => CharLiteral
    case String => StringLiteral
  }

  function UnaryToken(op: UnaryOperator): TokenKind {
    match op
    case PreIncrement | PostIncrement => PlusPlus
    case PreDecrement | PostDecrement => MinusMinus
    case Negate => Minus
    case BitNot => Tilde
    case LogicNot => Bang
    case AddrOf => Ampersand
    case Deref => Caret
  }

  /** The first token of a binary operator; `>>` is the only one with a second. */
  function BinaryToken(op: BinaryOperator): TokenKind {
    match op
    case Add => Plus
    case Sub => Minus
    case Mul => Star
    case Div => Slash
    case Rem => Percent
    case BitAnd => Ampersand
    case BitOr => Pipe
    case BitXor => Tilde
    case Shl => LAngleAngle
    case Shr => RAngle
    case LogicAnd => AndAnd
    case LogicOr => PipePipe
    case Equal => EqEq
    case NotEqual => BangEq
    case Less => LAngle
    case LessEq => LAngleEq
    case Greater => RAngle
    case GreaterEq => RAngleEq
    case Assign => Eq
    case AddAssign => PlusEq
    case SubAssign => MinusEq
    case MulAssign => StarEq
    case DivAssign => SlashEq
    case RemAssign => PercentEq
    case BitAndAssign => AmpersandEq
    case BitOrAssign => PipeEq
    case XorAssign => TildeEq
    case ShlAssign => LAngleAngleEq
    case ShrAssign => RAngleAngleEq
    case LogicAndAssign => AndAndEq
    case LogicOrAssign => PipePipeEq
  }

  /** What a tree fixes about one token of its spelling. */
  datatype Piece =
    | Mark(kind: TokenKind)
    | MarkAt(kind: TokenKind, offset: Offset)
    | Text(kind: TokenKind, offset: Offset, length: nat)
    | Adjoining(kind: TokenKind)  // directly after the token before it

  ghost predicate Fits(piece: Piece, tokens: seq<Token>, i: nat)
    requires i < |tokens|
  {
    && tokens[i].kind == piece.kind
    && (piece.MarkAt? ==> tokens[i].offset == piece.offset)
    && (piece.Text? ==> tokens[i].offset == piece.offset && tokens[i].length == piece.length)
    && (piece.Adjoining? ==> i > 0 && tokens[i].offset == tokens[i - 1].offset + 1)
  }

  /** The tokens from position `i` on begin with a spelling of `pieces`. */
  ghost predicate Spelled(pieces: seq<Piece>, tokens: seq<Token>, i: nat) {
    && i + |pieces| <= |tokens|
    && forall k :: 0 <= k < |pieces| ==> Fits(pieces[k], tokens, i + k)
  }

  function PrintOperator(op: BinaryOperator): seq<Piece> {
    if op == Shr then [Mark(RAngle), Adjoining(RAngle)] else [Mark(BinaryToken(op))]
  }

  function Print(e: Expr): seq<Piece>
    decreases e, 0
  {
    match e
    case Ident(offset, length) => [Text(Identifier, offset, length)]
    case Literal(offset, kind, length) => [Text(LiteralToken(kind), offset, length)]
    case Block(offset, statements) => [MarkAt(LBrace, offset)] + PrintBlock(statements)
    case Return(offset, values) => [MarkAt(KwReturn, offset)] + PrintList(values)
    case Unary(offset, op, operand) =>
      if IsPrefixOperator(op) then [MarkAt(UnaryToken(op), offset)] + Print(operand)
      else Print(operand) + [Mark(UnaryToken(op))]
    case Binary(_, op, left, right) => Print(left) + (PrintOperator(op) + Print(right))
    case Call(_, callee, args) => Print(callee) + ([Mark(LParen)] + (PrintList(args) + [Mark(RParen)]))
  }

  /** Expressions with commas between them. */
  function PrintList(es: seq<Expr>): seq<Piece>
    decreases es
  {
    if es == [] then []
    else if |es| == 1 then Print(es[0])
    else Print(es[0]) + ([Mark(Comma)] + PrintList(es[1..]))
  }

  function PrintStatement(e: Expr): seq<Piece>
    decreases e, 1
  {
    if e.Block? then Print(e) else Print(e) + [Mark(Semicolon)]
  }

  /** The statements of a block and the brace that closes it. */
  function PrintBlock(statements: seq<Expr>): seq<Piece>
    decreases statements
  {
    if statements == [] then [Mark(RBrace)]
    else PrintStatement(statements[0]) + PrintBlock(statements[1..])
  }

  function PrintName(name: Name): seq<Piece> {
    [Text(Identifier, name.offset, name.length)]
  }

  function PrintParameters(ps: seq<Parameter>): seq<Piece> {
    if ps == [] then []
    else if |ps| == 1 then Print(ps[0].typ) + PrintName(ps[0].name)
    else Print(ps[0].typ) + (PrintName(ps[0].name) + ([Mark(Comma)] + PrintParameters(ps[1..])))
  }

  function PrintOutputs(os: seq<Output>): seq<Piece> {
    if os == [] then []
    else if |os| == 1 then Print(os[0].typ)
    else Print(os[0].typ) + ([Mark(Comma)] + PrintOutputs(os[1..]))
  }

  function PrintArrow(os: seq<Output>): seq<Piece> {
    if os == [] then [] else [Mark(ThinArrow)] + PrintOutputs(os)
  }

  function PrintAccess(d: Definition): seq<Piece> {
    match d.access
    case NoModifier => []
    case Private => [MarkAt(KwPrivate, d.offset)]
    case Public => [MarkAt(KwPublic, d.offset)]
  }

  function PrintDefinition(d: Definition): seq<Piece> {
    PrintAccess(d) + (PrintName(d.name)
    + ([Mark(LParen)] + (PrintParameters(d.parameters)
    + ([Mark(RParen)] + (PrintArrow(d.outputs)
    + ([Mark(LBrace)] + PrintBlock(d.statements)))))))
  }

  /** The definitions and the end-of-file token. */
  function PrintProgram(ds: seq<Definition>): seq<Piece> {
    if ds == [] then [Mark(EndOfFile)] else PrintDefinition(ds[0]) + PrintProgram(ds[1..])
  }

  // ---------------------------------------------------------------- shape

  /** A token of kind `next` after `e` is not taken into `e`. Only a `return` at the right edge of `e` is at
      stake: a bare one would take an expression as its value, one with values would take a comma or an operator. */
  predicate CanPrecede(e: Expr, next: TokenKind)
    decreases e
  {
    match e
    case Return(_, values) =>
      if values == [] then !IsHead(next)
      else !IsTail(next) && next != Comma && CanPrecede(values[|values| - 1], next)
    case Unary(_, op, operand) => IsPrefixOperator(op) ==> CanPrecede(operand, next)
    case Binary(_, _, _, right) => CanPrecede(right, next)
    case _ => true
  }

  predicate IsPrefix(e: Expr) {
    e.Unary? && IsPrefixOperator(e.unaryOp)
  }

  /** Targets of postfix operators and calls. */
  predicate IsTarget(e: Expr) {
    !e.Binary? && !IsPrefix(e)
  }

  predicate StartsWithBlock(e: Expr) {
    match e
    case Block(_, _) => true
    case Unary(_, op, operand) => !IsPrefixOperator(op) && StartsWithBlock(operand)
    case Binary(_, _, left, _) => StartsWithBlock(left)
    case Call(_, callee, _) => StartsWithBlock(callee)
    case _ => false
  }

  /** The trees of the language: operands bind as tightly as their place demands, a `return` stands where it
      takes in no more than its own values, and every node begins where its first token does. */
  predicate Shaped(e: Expr)
    decreases e
  {
    match e
    case Ident(_, _) => true
    case Literal(_, _, _) => true
    case Block(_, statements) => ShapedBlock(statements)
    case Return(_, values) => ShapedList(values)
    case Unary(offset, op, operand) =>
      if IsPrefixOperator(op) then
        Shaped(operand) && !operand.Binary?
      else
        Shaped(operand) && IsTarget(operand) && offset == operand.offset && CanPrecede(operand, UnaryToken(op))
    case Binary(offset, op, left, right) =>
      && Shaped(left) && Shaped(right) && offset == left.offset
      && (left.Binary? ==> AssociativityPrecedence(left.op) >= AssociativityPrecedence(op))
      && (right.Binary? ==> AssociativityPrecedence(right.op) > AssociativityPrecedence(op))
      && CanPrecede(left, BinaryToken(op))
    case Call(offset, callee, args) =>
      && Shaped(callee) && IsTarget(callee) && offset == callee.offset && CanPrecede(callee, LParen)
      && ShapedList(args)
  }

  predicate ShapedList(es: seq<Expr>)
    decreases es
  {
    es != [] ==>
      && Shaped(es[0])
      && (|es| > 1 ==> CanPrecede(es[0], Comma))
      && ShapedList(es[1..])
  }

  predicate ShapedBlock(statements: seq<Expr>)
    decreases statements
  {
    statements != [] ==>
      && Shaped(statements[0])
      && (StartsWithBlock(statements[0]) ==> statements[0].Block?)
      && ShapedBlock(statements[1..])
  }

  predicate ShapedParameter(p: Parameter) {
    p.typ.Ident? && p.offset == p.typ.offset && p.name.length > 0
  }

  predicate ShapedOutput(o: Output) {
    o.typ.Ident? && o.offset == o.typ.offset
  }

  predicate ShapedDefinition(d: Definition) {
    && (d.access == NoModifier ==> d.offset == d.name.offset)
    && (forall k :: 0 <= k < |d.parameters| ==> ShapedParameter(d.parameters[k]))
    && (forall k :: 0 <= k < |d.outputs| ==> ShapedOutput(d.outputs[k]))
    && ShapedBlock(d.statements)
  }

  predicate ShapedProgram(ds: seq<Definition>) {
    forall k :: 0 <= k < |ds| ==> ShapedDefinition(ds[k])
  }

  // ---------------------------------------------------------------- facts about the tables

  /** The tail table and the associativity table give every binary operator the same level. */
  lemma TablesAgree(kind: TokenKind, shift: bool)
    ensures var rule := LookupTailRule(kind, shift);
            && (rule.precedence == STATEMENT <==> rule.tail == NoTail)
            && rule.precedence != PREFIX
            && (rule.tail.InfixTail? ==> rule.precedence == AssociativityPrecedence(rule.tail.op) < PREFIX)
            && (rule.tail.PostfixTail? || rule.tail.CallTail? ==> rule.precedence == POSTFIX)
            && (rule.tail != NoTail <==> IsTail(kind))
            && (rule.tail != NoTail ==> kind != EndOfFile)
  {
    hide LookupTailRule, AssociativityPrecedence;
    var level := LookupTailRule(kind, shift).precedence;
    if level == ASSIGNMENT {
      AssignmentLevel(kind, shift);
    } else if LOGICAL <= level <= COMPARISON {
      ComparisonLevel(kind, shift);
    } else if ADDITIVE_OR_BIT <= level <= MULTIPLICATIVE {
      ArithmeticLevel(kind, shift);
    } else {
      OtherLevel(kind, shift);
    }
    ShiftIsNoMatter(kind, shift);
    EndIsNoTail(shift);
  }

  lemma AssignmentLevel(kind: TokenKind, shift: bool)
    requires LookupTailRule(kind, shift).precedence == ASSIGNMENT
    ensures var tail := LookupTailRule(kind, shift).tail;
            tail.InfixTail? && AssociativityPrecedence(tail.op) == ASSIGNMENT
  {
  }

  lemma ComparisonLevel(kind: TokenKind, shift: bool)
    requires LOGICAL <= LookupTailRule(kind, shift).precedence <= COMPARISON
    ensures var rule := LookupTailRule(kind, shift);
            rule.tail.InfixTail? && AssociativityPrecedence(rule.tail.op) == rule.precedence
  {
  }

  lemma ArithmeticLevel(kind: TokenKind, shift: bool)
    requires ADDITIVE_OR_BIT <= LookupTailRule(kind, shift).precedence <= MULTIPLICATIVE
    ensures var rule := LookupTailRule(kind, shift);
            rule.tail.InfixTail? && AssociativityPrecedence(rule.tail.op) == rule.precedence
  {
  }

  lemma OtherLevel(kind: TokenKind, shift: bool)
    requires var level := LookupTailRule(kind, shift).precedence; level == STATEMENT || PREFIX <= level
    ensures var rule := LookupTailRule(kind, shift);
            if rule.precedence == STATEMENT then rule.tail == NoTail
            else rule.precedence == POSTFIX && (rule.tail.PostfixTail? || rule.tail == CallTail)
  {
  }

  lemma ShiftIsNoMatter(kind: TokenKind, shift: bool)
    ensures LookupTailRule(kind, shift).tail != NoTail <==> IsTail(kind)
  {
  }

  lemma EndIsNoTail(shift: bool)
    ensures LookupTailRule(EndOfFile, shift).tail == NoTail
  {
  }

  /** Reading the token an operator is printed as gives that operator. */
  lemma OperatorReadsBack(op: BinaryOperator, shift: bool)
    requires BinaryToken(op) == RAngle ==> (shift <==> op == Shr)
    ensures LookupTailRule(BinaryToken(op), shift).tail == InfixTail(op)
  {
    hide BinaryToken, LookupTailRule;
    if AssociativityPrecedence(op) == ASSIGNMENT {
      AssignmentReadsBack(op, shift);
    } else if AssociativityPrecedence(op) >= ADDITIVE_OR_BIT {
      ArithmeticReadsBack(op, shift);
    } else {
      ComparisonReadsBack(op, shift);
    }
  }

  lemma AssignmentReadsBack(op: BinaryOperator, shift: bool)
    requires AssociativityPrecedence(op) == ASSIGNMENT
    ensures LookupTailRule(BinaryToken(op), shift).tail == InfixTail(op)
  {
  }

  lemma ArithmeticReadsBack(op: BinaryOperator, shift: bool)
    requires AssociativityPrecedence(op) >= ADDITIVE_OR_BIT
    requires BinaryToken(op) == RAngle ==> (shift <==> op == Shr)
    ensures LookupTailRule(BinaryToken(op), shift).tail == InfixTail(op)
  {
  }

  lemma ComparisonReadsBack(op: BinaryOperator, shift: bool)
    requires LOGICAL <= AssociativityPrecedence(op) <= COMPARISON
    requires BinaryToken(op) == RAngle ==> (shift <==> op == Shr)
    ensures LookupTailRule(BinaryToken(op), shift).tail == InfixTail(op)
  {
  }

  /** An operator that was read is printed as the token it was read from. */
  lemma OperatorPrintsBack(kind: TokenKind, shift: bool)
    ensures var tail := LookupTailRule(kind, shift).tail;
            tail.InfixTail? ==> BinaryToken(tail.op) == kind && (kind == RAngle ==> (shift <==> tail.op == Shr))
  {
    hide LookupTailRule, BinaryToken;
    if kind == RAngle {
      AnglePrintsBack(shift);
    } else {
      OtherOperatorPrintsBack(kind, shift);
    }
  }

  lemma AnglePrintsBack(shift: bool)
    ensures LookupTailRule(RAngle, shift).tail == InfixTail(if shift then Shr else Greater)
    ensures BinaryToken(Shr) == BinaryToken(Greater) == RAngle
  {
  }

  lemma OtherOperatorPrintsBack(kind: TokenKind, shift: bool)
    requires kind != RAngle
    ensures var tail := LookupTailRule(kind, shift).tail; tail.InfixTail? ==> BinaryToken(tail.op) == kind
  {
    var tail := LookupTailRule(kind, shift).tail;
    if tail.InfixTail? {
      assert BinaryToken(tail.op) == kind;
    }
  }

  lemma PostfixPrintsBack(kind: TokenKind, shift: bool)
    ensures match LookupTailRule(kind, shift).tail
            case PostfixTail(op) => UnaryToken(op) == kind && !IsPrefixOperator(op)
            case CallTail => kind == LParen
            case _ => true
  {
  }

  lemma UnaryOperatorReadsBack(op: UnaryOperator, shift: bool)
    ensures if IsPrefixOperator(op) then HeadRule(UnaryToken(op)) == PrefixHead(op)
            else LookupTailRule(UnaryToken(op), shift) == TailRule(POSTFIX, PostfixTail(op))
  {
  }

  lemma HeadPrintsBack(kind: TokenKind)
    ensures match HeadRule(kind)
            case NoHead => true
            case IdentHead => kind == Identifier
            case LiteralHead(lit) => kind == LiteralToken(lit)
            case BlockHead => kind == LBrace
            case ReturnHead => kind == KwReturn
            case PrefixHead(op) => kind == UnaryToken(op) && IsPrefixOperator(op)
    ensures kind == LBrace || kind == EndOfFile ==> !HeadRule(kind).PrefixHead?
    ensures IsHead(kind) ==> kind != EndOfFile
  {
    hide HeadRule, LiteralToken, UnaryToken;
    HeadIsPrinted(kind);
    BracesAndEnds();
  }

  lemma HeadIsPrinted(kind: TokenKind)
    ensures match HeadRule(kind)
            case NoHead => true
            case IdentHead => kind == Identifier
            case LiteralHead(lit) => kind == LiteralToken(lit)
            case BlockHead => kind == LBrace
            case ReturnHead => kind == KwReturn
            case PrefixHead(op) => kind == UnaryToken(op) && IsPrefixOperator(op)
  {
  }

  lemma BracesAndEnds()
    ensures HeadRule(LBrace) == BlockHead && HeadRule(EndOfFile) == NoHead
  {
  }

  lemma {:induction false} SpelledConcat(a: seq<Piece>, b: seq<Piece>, tokens: seq<Token>, i: nat)
    ensures Spelled(a + b, tokens, i) <==> Spelled(a, tokens, i) && Spelled(b, tokens, i + |a|)
  {
    if Spelled(a + b, tokens, i) {
      forall k | 0 <= k < |a| ensures Fits(a[k], tokens, i + k) {
        assert (a + b)[k] == a[k];
      }
      forall k | 0 <= k < |b| ensures Fits(b[k], tokens, i + |a| + k) {
        assert (a + b)[|a| + k] == b[k];
      }
    }
    if Spelled(a, tokens, i) && Spelled(b, tokens, i + |a|) {
      forall k | 0 <= k < |a + b| ensures Fits((a + b)[k], tokens, i + k) {
        if k >= |a| {
          assert Fits(b[k - |a|], tokens, i + |a| + (k - |a|));
        }
      }
    }
  }

  /** A token that is no head, no tail and no comma can follow any tree. */
  lemma {:induction false} ClosersCanFollow(e: Expr, next: TokenKind)
    requires !IsHead(next) && !IsTail(next) && next != Comma
    ensures CanPrecede(e, next)
  {
    match e
    case Return(_, values) =>
      if values != [] {
        ClosersCanFollow(values[|values| - 1], next);
      }
    case Unary(_, _, operand) => ClosersCanFollow(operand, next);
    case Binary(_, _, _, right) => ClosersCanFollow(right, next);
    case _ =>
  }

  /** The first token of a tree is a head, and it is a brace exactly when the tree starts with a block. */
  lemma {:induction false} FirstPiece(e: Expr)
    ensures Print(e) != [] && IsHead(Print(e)[0].kind)
    ensures Print(e)[0].kind == LBrace <==> StartsWithBlock(e)
  {
    hide HeadRule, UnaryToken, LiteralToken, BinaryToken;
    match e
    case Unary(_, op, operand) =>
      if IsPrefixOperator(op) {
        UnaryOperatorReadsBack(op, false);
        BracesAndEnds();
      } else {
        FirstPiece(operand);
      }
    case Binary(_, _, left, _) => FirstPiece(left);
    case Call(_, callee, _) => FirstPiece(callee);
    case Literal(_, kind, _) => LiteralReadsBack(kind);
    case Ident(_, _) => NamesAreHeads();
    case Return(_, _) => NamesAreHeads();
    case Block(_, _) => BracesAndEnds();
  }

  lemma LiteralReadsBack(kind: LiteralKind)
    ensures HeadRule(LiteralToken(kind)) == LiteralHead(kind) && LiteralToken(kind) != LBrace
  {
  }

  lemma NamesAreHeads()
    ensures HeadRule(Identifier) == IdentHead && HeadRule(KwReturn) == ReturnHead
  {
  }

  /** A spelling of a tree begins with a head token, which is a brace exactly when the tree starts with a block. */
  lemma {:induction false} SpelledHead(e: Expr, tokens: seq<Token>, i: nat)
    requires Spelled(Print(e), tokens, i)
    ensures i < |tokens| && IsHead(tokens[i].kind)
    ensures tokens[i].kind == LBrace <==> StartsWithBlock(e)
  {
    FirstPiece(e);
    assert Fits(Print(e)[0], tokens, i + 0);
  }
}
