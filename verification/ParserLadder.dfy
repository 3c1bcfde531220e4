/** How tightly operators bind, said by listing them: what every expression with two operators is read as. */
module ParserLadder {
  import opened Tokens
  import opened Ast
  import opened Grammar
  import opened ParserSpec
  import opened ParserSoundness
  import opened ParserCompleteness

  /** The classes of binary operators, from the loosest to the tightest. */
  function Class(op: BinaryOperator): nat {
    match op
    case Assign | AddAssign | SubAssign | MulAssign | DivAssign | RemAssign => 0
    case BitAndAssign | BitOrAssign | XorAssign | ShlAssign | ShrAssign | LogicAndAssign | LogicOrAssign => 0
    case LogicAnd | LogicOr => 1
    case Equal | NotEqual | Less | LessEq | Greater | GreaterEq => 2
    case Add | Sub | BitAnd | BitOr | BitXor | Shl | Shr => 3
    case Mul | Div | Rem => 4
  }

  /** The levels of the parser are in the order of the classes, and no two classes share one. */
  lemma LevelsAreClasses(a: BinaryOperator, b: BinaryOperator)
    ensures AssociativityPrecedence(a) < AssociativityPrecedence(b) <==> Class(a) < Class(b)
    ensures AssociativityPrecedence(a) < PREFIX
  {
  }

  /** An operand: no binary operator at its root, and none of the tokens behind it is taken in. */
  ghost predicate IsOperand(e: Expr, next: TokenKind) {
    Shaped(e) && !e.Binary? && CanPrecede(e, next)
  }

  /** Nothing that goes on with an expression. */
  ghost predicate EndsExpression(kind: TokenKind) {
    !IsHead(kind) && !IsTail(kind) && kind != Comma
  }

  /** What `a one b two c` is to mean: the tighter operator takes its operands first, and of equal ones the left one. */
  function TwoOperators(a: Expr, one: BinaryOperator, b: Expr, two: BinaryOperator, c: Expr): Expr {
    if Class(two) <= Class(one) then Binary(a.offset, two, Binary(a.offset, one, a, b), c)
    else Binary(a.offset, one, a, Binary(b.offset, two, b, c))
  }

  /** Every spelling of two binary operators between operands is read as the tree in which the tighter class binds
      first, and to the left within one class. */
  lemma {:induction false} TighterBindsFirst(tokens: seq<Token>, s: State, a: Expr, one: BinaryOperator, b: Expr,
                                             two: BinaryOperator, c: Expr)
    requires IsOperand(a, BinaryToken(one)) && IsOperand(b, BinaryToken(two)) && Shaped(c) && !c.Binary?
    requires var pieces := Print(a) + (PrintOperator(one) + (Print(b) + (PrintOperator(two) + Print(c))));
             Ahead(pieces, tokens, s) && EndsExpression(Kind(tokens, Past(s, pieces)))
    ensures var pieces := Print(a) + (PrintOperator(one) + (Print(b) + (PrintOperator(two) + Print(c))));
            ParseExpression(tokens, s, STATEMENT) == Done(TwoOperators(a, one, b, two, c), Past(s, pieces))
  {
    hide ParseExpression, AssociativityPrecedence, Class, BinaryToken, PrintOperator, EndsInOnlyEndOfFile, Spelled,
         HeadRule, LookupTailRule;
    LevelsAreClasses(one, two);
    LevelsAreClasses(two, one);
    var e := TwoOperators(a, one, b, two, c);
    TwoOperatorsArePrinted(a, one, b, two, c);
    TwoOperatorsAreShaped(a, one, b, two, c);
    ClosersCanFollow(e, Kind(tokens, Past(s, Print(e))));
    ElementComplete(tokens, s, e);
  }

  lemma BinaryIsPrinted(offset: Offset, op: BinaryOperator, left: Expr, right: Expr)
    ensures Print(Binary(offset, op, left, right)) == Print(left) + (PrintOperator(op) + Print(right))
  {
    hide PrintOperator;
  }

  lemma TwoOperatorsArePrinted(a: Expr, one: BinaryOperator, b: Expr, two: BinaryOperator, c: Expr)
    ensures Print(TwoOperators(a, one, b, two, c))
            == Print(a) + (PrintOperator(one) + (Print(b) + (PrintOperator(two) + Print(c))))
  {
    hide Class, PrintOperator, Print;
    var p, q := PrintOperator(one), PrintOperator(two);
    if Class(two) <= Class(one) {
      BinaryIsPrinted(a.offset, one, a, b);
      BinaryIsPrinted(a.offset, two, Binary(a.offset, one, a, b), c);
      assert (Print(a) + (p + Print(b))) + (q + Print(c)) == Print(a) + (p + (Print(b) + (q + Print(c))));
    } else {
      BinaryIsPrinted(b.offset, two, b, c);
      BinaryIsPrinted(a.offset, one, a, Binary(b.offset, two, b, c));
    }
  }

  lemma BinaryIsShaped(op: BinaryOperator, left: Expr, right: Expr)
    requires Shaped(left) && Shaped(right) && CanPrecede(left, BinaryToken(op))
    requires left.Binary? ==> Class(op) <= Class(left.op)
    requires right.Binary? ==> Class(op) < Class(right.op)
    ensures Shaped(Binary(left.offset, op, left, right))
  {
    hide Class, AssociativityPrecedence, BinaryToken, CanPrecede;
    if left.Binary? {
      LevelsAreClasses(left.op, op);
    }
    if right.Binary? {
      LevelsAreClasses(op, right.op);
    }
  }

  lemma TwoOperatorsAreShaped(a: Expr, one: BinaryOperator, b: Expr, two: BinaryOperator, c: Expr)
    requires IsOperand(a, BinaryToken(one)) && IsOperand(b, BinaryToken(two)) && Shaped(c) && !c.Binary?
    ensures Shaped(TwoOperators(a, one, b, two, c))
  {
    hide Class, Shaped, BinaryToken;
    if Class(two) <= Class(one) {
      BinaryIsShaped(one, a, b);
      BinaryIsShaped(two, Binary(a.offset, one, a, b), c);
    } else {
      BinaryIsShaped(two, b, c);
      BinaryIsShaped(one, a, Binary(b.offset, two, b, c));
    }
  }

  /** A prefix operator takes its operand before any binary operator does, on both sides. */
  lemma {:induction false} PrefixBindsBeforeBinary(tokens: seq<Token>, s: State, prefix: UnaryOperator, offset: Offset,
                                                   a: Expr, op: BinaryOperator, b: Expr)
    requires IsPrefixOperator(prefix) && IsOperand(a, BinaryToken(op)) && Shaped(b) && !b.Binary?
    requires var pieces := [MarkAt(UnaryToken(prefix), offset)] + (Print(a) + (PrintOperator(op) + Print(b)));
             Ahead(pieces, tokens, s) && EndsExpression(Kind(tokens, Past(s, pieces)))
    ensures var pieces := [MarkAt(UnaryToken(prefix), offset)] + (Print(a) + (PrintOperator(op) + Print(b)));
            ParseExpression(tokens, s, STATEMENT) == Done(Binary(offset, op, Unary(offset, prefix, a), b), Past(s, pieces))
  {
    hide ParseExpression, AssociativityPrecedence, UnaryToken, BinaryToken, PrintOperator, EndsInOnlyEndOfFile, Spelled,
         HeadRule, LookupTailRule;
    var e := Binary(offset, op, Unary(offset, prefix, a), b);
    var mark := [MarkAt(UnaryToken(prefix), offset)];
    assert Print(e) == (mark + Print(a)) + (PrintOperator(op) + Print(b))
                    == mark + (Print(a) + (PrintOperator(op) + Print(b)));
    ClosersCanFollow(e, Kind(tokens, Past(s, Print(e))));
    ElementComplete(tokens, s, e);
  }

  /** A postfix operator takes its operand before a prefix operator does. */
  lemma {:induction false} PostfixBindsBeforePrefix(tokens: seq<Token>, s: State, prefix: UnaryOperator, offset: Offset,
                                                    a: Expr, postfix: UnaryOperator)
    requires IsPrefixOperator(prefix) && !IsPrefixOperator(postfix)
    requires IsTarget(a) && IsOperand(a, UnaryToken(postfix))
    requires var pieces := [MarkAt(UnaryToken(prefix), offset)] + (Print(a) + [Mark(UnaryToken(postfix))]);
             Ahead(pieces, tokens, s) && EndsExpression(Kind(tokens, Past(s, pieces)))
    ensures var pieces := [MarkAt(UnaryToken(prefix), offset)] + (Print(a) + [Mark(UnaryToken(postfix))]);
            ParseExpression(tokens, s, STATEMENT)
            == Done(Unary(offset, prefix, Unary(a.offset, postfix, a)), Past(s, pieces))
  {
    hide ParseExpression, UnaryToken, EndsInOnlyEndOfFile, Spelled, HeadRule, LookupTailRule;
    var inner := Unary(a.offset, postfix, a);
    var e := Unary(offset, prefix, inner);
    assert Print(inner) == Print(a) + [Mark(UnaryToken(postfix))];
    assert Print(e) == [MarkAt(UnaryToken(prefix), offset)] + Print(inner);
    ClosersCanFollow(e, Kind(tokens, Past(s, Print(e))));
    ElementComplete(tokens, s, e);
  }

  /** A call takes its callee before a prefix operator does. */
  lemma {:induction false} CallBindsBeforePrefix(tokens: seq<Token>, s: State, prefix: UnaryOperator, offset: Offset,
                                                 a: Expr, args: seq<Expr>)
    requires IsPrefixOperator(prefix) && IsTarget(a) && IsOperand(a, LParen) && ShapedList(args)
    requires var pieces := [MarkAt(UnaryToken(prefix), offset)] + Print(Call(a.offset, a, args));
             Ahead(pieces, tokens, s) && EndsExpression(Kind(tokens, Past(s, pieces)))
    ensures var pieces := [MarkAt(UnaryToken(prefix), offset)] + Print(Call(a.offset, a, args));
            ParseExpression(tokens, s, STATEMENT) == Done(Unary(offset, prefix, Call(a.offset, a, args)), Past(s, pieces))
  {
    hide ParseExpression, UnaryToken, EndsInOnlyEndOfFile, Spelled, HeadRule, LookupTailRule, PrintList, ShapedList;
    var e := Unary(offset, prefix, Call(a.offset, a, args));
    ClosersCanFollow(e, Kind(tokens, Past(s, Print(e))));
    ElementComplete(tokens, s, e);
  }
}
