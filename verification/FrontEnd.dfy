/** The lexer and the parser together, as cero/compile/build.cc runs them on one source. */
module FrontEnd {
  import opened Tokens
  import opened Ast
  import opened SourceText
  import opened Lexical
  import Grammar
  import Keywords
  import Unicode
  import LexicalSteps
  import Tiling
  import Lexers
  import Parsers
  import Spec = ParserSpec
  import Programs = ParserPrograms
  import ParserPrefixes
  import ParserRecovery
  import ParserReports

  // ---------------------------------------------------------------- comments are only dropped

  function WithoutComments(tokens: seq<Token>): seq<Token> {
    if tokens == [] then []
    else (if IsComment(tokens[0].kind) then [] else [tokens[0]]) + WithoutComments(tokens[1..])
  }

  ghost predicate NoComments(tokens: seq<Token>) {
    forall k :: 0 <= k < |tokens| ==> !IsComment(tokens[k].kind)
  }

  lemma {:induction false} NothingToDrop(tokens: seq<Token>)
    requires NoComments(tokens)
    ensures WithoutComments(tokens) == tokens
  {
    if tokens != [] {
      NothingToDrop(tokens[1..]);
    }
  }

  lemma {:induction false} DropsConcat(a: seq<Token>, b: seq<Token>)
    ensures WithoutComments(a + b) == WithoutComments(a) + WithoutComments(b)
  {
    hide IsComment;
    if a == [] {
      assert a + b == b;
    } else {
      assert (a + b)[1..] == a[1..] + b;
      DropsConcat(a[1..], b);
    }
  }

  lemma {:induction false} SameWords(text: Text, i: nat, a: Config, b: Config)
    requires i <= |text| && a.continuation == b.continuation
    ensures WordEnd(text, i, a) == WordEnd(text, i, b) && WordReports(text, i, a) == WordReports(text, i, b)
    decreases |text| - i
  {
    hide CharIn;
    if i < |text| {
      SameWords(text, i + 1, a, b);
      SameWords(text, CharEnd(text, i), a, b);
    }
  }

  lemma WordIsNoComment(text: Text, i: nat, end: nat)
    requires i <= end <= |text|
    ensures !IsComment(WordToken(text, i, end).kind)
  {
    hide Keywords.FixedText, Keywords.KEYWORDS, Masked;
    Keywords.MatchReads(text[i..end], 0);
    if Keywords.WordKind(text[i..end]) != Identifier {
      KeywordIsNoComment(Keywords.WordKind(text[i..end]));
    }
  }

  lemma KeywordIsNoComment(kind: TokenKind)
    requires Keywords.IsKeyword(kind)
    ensures kind != LineComment && kind != BlockComment
  {
  }

  lemma OperatorIsNoComment(text: Text, i: nat)
    requires i < |text| && OneChar(text[i]) != EndOfFile
    ensures NoComments(OperatorTokens(text, i))
  {
    hide Masked;
    var a, b, c := text[i], At(text, i + 1), At(text, i + 2);
    KindsAreNoComments(a, b, c);
    hide OneChar, TwoChars, ThreeChars;
  }

  lemma KindsAreNoComments(a: char, b: char, c: char)
    ensures OneChar(a) != LineComment && OneChar(a) != BlockComment
    ensures TwoChars(a, b) != LineComment && TwoChars(a, b) != BlockComment
    ensures ThreeChars(a, b, c) != LineComment && ThreeChars(a, b, c) != BlockComment
  {
  }

  lemma {:induction false} StepNoComments(text: Text, i: nat, config: Config)
    requires i < |text| && !StartsComment(text, i)
    ensures NoComments(Step(text, i, config).tokens)
  {
    hide OneChar, OperatorTokens, OperatorEnd, WordEnd, WordReports, CharIn, CharEnd, DigitsEnd, SkipWhitespace,
         QuoteEnd, QuoteUnclosed, Masked;
    if IsWordStart(text[i]) {
      WordIsNoComment(text, i, WordEnd(text, i + 1, config));
      hide WordToken;
    } else if IsOperatorStart(text[i]) {
      OperatorIsNoComment(text, i);
    }
  }

  lemma CommentDrops(text: Text, i: nat, config: Config)
    requires i < |text| && StartsComment(text, i)
    ensures var scan := ScanComment(text, i, config.(emitComments := true));
            var dropped := ScanComment(text, i, config.(emitComments := false));
            && scan.next == dropped.next && scan.reports == dropped.reports
            && WithoutComments(scan.tokens) == dropped.tokens
  {
    hide CommentEnd, LineEnd, Masked;
  }

  lemma {:induction false} OtherStepIsSame(text: Text, i: nat, a: Config, b: Config)
    requires i < |text| && !StartsComment(text, i) && a.start == b.start && a.continuation == b.continuation
    ensures Step(text, i, a) == Step(text, i, b)
  {
    hide OneChar, WordEnd, WordReports, WordToken, CharIn, CharEnd, ScanNumber, ScanDot, ScanQuote, ScanOperator,
         ScanComment, Masked, MakeToken;
    SameWords(text, i + 1, a, b);
    SameWords(text, CharEnd(text, i), a, b);
  }

  lemma {:induction false} StepDrops(text: Text, i: nat, config: Config)
    requires i < |text|
    ensures var scan := Step(text, i, config.(emitComments := true));
            var dropped := Step(text, i, config.(emitComments := false));
            && scan.next == dropped.next && scan.reports == dropped.reports
            && WithoutComments(scan.tokens) == dropped.tokens
  {
    hide Step, ScanComment;
    var on, off := config.(emitComments := true), config.(emitComments := false);
    if StartsComment(text, i) {
      LexicalSteps.CommentStep(text, i, on);
      LexicalSteps.CommentStep(text, i, off);
      CommentDrops(text, i, config);
    } else {
      OtherStepIsSame(text, i, on, off);
      StepNoComments(text, i, on);
      NothingToDrop(Step(text, i, on).tokens);
    }
  }

  lemma {:induction false} LexFromDrops(text: Text, i: nat, config: Config)
    requires i <= |text|
    ensures var all := LexFrom(text, i, config.(emitComments := true));
            var dropped := LexFrom(text, i, config.(emitComments := false));
            all.reports == dropped.reports && WithoutComments(all.tokens) == dropped.tokens
    decreases |text| - i
  {
    hide Step, Masked;
    if At(text, i) != '\0' {
      StepAdvances(text, i, config.(emitComments := true));
      var scan := Step(text, i, config.(emitComments := true));
      StepDrops(text, i, config);
      LexFromDrops(text, scan.next, config);
      DropsConcat(scan.tokens, LexFrom(text, scan.next, config.(emitComments := true)).tokens);
    } else {
      NothingToDrop(LexFrom(text, i, config.(emitComments := true)).tokens);
    }
  }

  /** Leaving comments out changes nothing but that: the other tokens and all reports are the same. */
  lemma {:induction false} CommentsAreOnlyDropped(text: Text, config: Config)
    ensures var all, dropped := Lex(text, config.(emitComments := true)), Lex(text, config.(emitComments := false));
            all.reports == dropped.reports && WithoutComments(all.tokens) == dropped.tokens
  {
    hide LexFrom, Masked;
    if |text| <= SOURCE_SIZE_MAX {
      LexFromDrops(text, 0, config);
    } else {
      NothingToDrop(Lex(text, config).tokens);
    }
  }

  // ---------------------------------------------------------------- source and tree

  /** A tree fixes the text of its names and literals, and only the kind of all other tokens. */
  ghost predicate TextsAreVariable(pieces: seq<Grammar.Piece>) {
    forall k :: 0 <= k < |pieces| ==> (pieces[k].Text? <==> Tiling.IsVariableLength(pieces[k].kind))
  }

  lemma OperatorPieces(op: BinaryOperator)
    ensures TextsAreVariable(Grammar.PrintOperator(op))
  {
    hide Tiling.IsVariableLength;
    OperatorIsNotVariable(op);
  }

  lemma OperatorIsNotVariable(op: BinaryOperator)
    ensures !Tiling.IsVariableLength(Grammar.BinaryToken(op)) && !Tiling.IsVariableLength(RAngle)
  {
  }

  lemma UnaryIsNotVariable(op: UnaryOperator)
    ensures !Tiling.IsVariableLength(Grammar.UnaryToken(op))
  {
  }

  lemma LiteralIsVariable(kind: LiteralKind)
    ensures Tiling.IsVariableLength(Grammar.LiteralToken(kind))
  {
  }

  lemma MarksAreNotVariable()
    ensures !Tiling.IsVariableLength(LBrace) && !Tiling.IsVariableLength(LParen) && !Tiling.IsVariableLength(RParen)
    ensures !Tiling.IsVariableLength(KwReturn) && Tiling.IsVariableLength(Identifier)
  {
  }

  lemma {:induction false} ExpressionPieces(e: Expr)
    ensures TextsAreVariable(Grammar.Print(e))
    decreases e, 0
  {
    hide Grammar.BinaryToken, Grammar.UnaryToken, Grammar.LiteralToken, Grammar.PrintBlock, Grammar.PrintList,
         Grammar.PrintOperator, Tiling.IsVariableLength;
    MarksAreNotVariable();
    match e
    case Ident(_, _) =>
    case Literal(_, kind, _) => LiteralIsVariable(kind);
    case Block(_, statements) => BlockPieces(statements);
    case Return(_, values) => ListPieces(values);
    case Unary(_, op, operand) =>
      ExpressionPieces(operand);
      UnaryIsNotVariable(op);
    case Binary(_, op, left, right) =>
      ExpressionPieces(left);
      ExpressionPieces(right);
      OperatorPieces(op);
    case Call(_, callee, args) =>
      ExpressionPieces(callee);
      ListPieces(args);
  }

  lemma {:induction false} ListPieces(es: seq<Expr>)
    ensures TextsAreVariable(Grammar.PrintList(es))
    decreases es
  {
    hide Grammar.Print;
    if es != [] {
      ExpressionPieces(es[0]);
      ListPieces(es[1..]);
    }
  }

  lemma {:induction false} BlockPieces(statements: seq<Expr>)
    ensures TextsAreVariable(Grammar.PrintBlock(statements))
    decreases statements
  {
    hide Grammar.Print;
    if statements != [] {
      ExpressionPieces(statements[0]);
      BlockPieces(statements[1..]);
    }
  }

  lemma {:induction false} ParameterPieces(ps: seq<Parameter>)
    ensures TextsAreVariable(Grammar.PrintParameters(ps))
  {
    hide Grammar.Print;
    if ps != [] {
      ExpressionPieces(ps[0].typ);
      ParameterPieces(ps[1..]);
    }
  }

  lemma {:induction false} OutputPieces(os: seq<Output>)
    ensures TextsAreVariable(Grammar.PrintOutputs(os))
  {
    hide Grammar.Print;
    if os != [] {
      ExpressionPieces(os[0].typ);
      OutputPieces(os[1..]);
    }
  }

  lemma {:induction false} DefinitionPieces(d: Definition)
    ensures TextsAreVariable(Grammar.PrintDefinition(d))
  {
    hide Grammar.PrintBlock, Grammar.PrintParameters, Grammar.PrintOutputs;
    ParameterPieces(d.parameters);
    OutputPieces(d.outputs);
    BlockPieces(d.statements);
    ConcatPieces([Grammar.Mark(LBrace)], Grammar.PrintBlock(d.statements));
    ConcatPieces(Grammar.PrintArrow(d.outputs), [Grammar.Mark(LBrace)] + Grammar.PrintBlock(d.statements));
  }

  lemma ConcatPieces(a: seq<Grammar.Piece>, b: seq<Grammar.Piece>)
    requires TextsAreVariable(a) && TextsAreVariable(b)
    ensures TextsAreVariable(a + b)
  {
  }

  lemma {:induction false} ProgramPieces(ds: seq<Definition>)
    ensures TextsAreVariable(Grammar.PrintProgram(ds))
  {
    hide Grammar.PrintDefinition;
    if ds != [] {
      DefinitionPieces(ds[0]);
      ProgramPieces(ds[1..]);
    }
  }

  /** How a piece of a printed tree reads: names and literals as the bytes that the tree points to, all else by kind. */
  function PieceText(piece: Grammar.Piece, text: Text): Text {
    if !piece.Text? then Keywords.FixedText(piece.kind)
    else if piece.offset + piece.length <= |text| then text[piece.offset..piece.offset + piece.length]
    else ""
  }

  /** The source has the text of the piece where the token is. */
  ghost predicate ReadsAs(piece: Grammar.Piece, t: Token, text: Text) {
    && t.offset + Tiling.Span(t) <= |text|
    && PieceText(piece, text) == text[t.offset..t.offset + Tiling.Span(t)]
  }

  lemma PieceReads(piece: Grammar.Piece, tokens: seq<Token>, k: nat, text: Text)
    requires k < |tokens| && Grammar.Fits(piece, tokens, k) && Tiling.Faithful(tokens[k], text)
    requires piece.Text? <==> Tiling.IsVariableLength(piece.kind)
    ensures ReadsAs(piece, tokens[k], text)
  {
  }

  /** If nothing is reported about the syntax, the tree is a program of the language, and the source reads, token for
      token, as the printed program. */
  lemma {:induction false} SilentBuildReadsTheSource(text: Text, config: Config)
    requires var tokens := Lex(text, config).tokens; EndsInOnlyEndOfFile(tokens) ==> Spec.Run(tokens).1.reports == []
    ensures var tokens := Lex(text, config).tokens;
            && EndsInOnlyEndOfFile(tokens)
            && var program := Spec.Run(tokens).0;
               var pieces := Grammar.PrintProgram(program);
               && Grammar.ShapedProgram(program) && Programs.Prints(program, tokens, 0) && |pieces| == |tokens|
               && forall k :: 0 <= k < |tokens| - 1 ==> ReadsAs(pieces[k], tokens[k], text)
  {
    hide Lex, Spec.Run, Tiling.Faithful, Tiling.Span, ReadsAs, Grammar.PrintProgram, Grammar.ShapedProgram,
         Tiling.IsVariableLength, Grammar.Fits;
    var tokens := Lex(text, config).tokens;
    Tiling.TokensTileTheText(text, config);
    Programs.AcceptedIsPrinted(tokens);
    var program := Spec.Run(tokens).0;
    var pieces := Grammar.PrintProgram(program);
    ProgramPieces(program);
    forall k | 0 <= k < |tokens| - 1 ensures ReadsAs(pieces[k], tokens[k], text) {
      assert Grammar.Fits(pieces[k], tokens, 0 + k);
      PieceReads(pieces[k], tokens, k, text);
    }
  }

  /** Nothing is reported about the syntax of exactly the sources whose tokens spell a program. */
  lemma {:induction false} SilentExactlyOnSpellings(text: Text, config: Config)
    ensures var tokens := Lex(text, config).tokens;
            && EndsInOnlyEndOfFile(tokens)
            && (Spec.Run(tokens).1.reports == []
                <==> exists program :: Grammar.ShapedProgram(program) && Programs.Prints(program, tokens, 0))
  {
    hide Lex, Spec.Run, Tiling.Faithful, Tiling.Span, Grammar.ShapedProgram, Programs.Prints;
    Tiling.TokensTileTheText(text, config);
    Programs.SilentExactlyOnPrograms(Lex(text, config).tokens);
  }

  /** Every source of n bytes gives at most 2n reports. */
  lemma {:induction false} ReportsAreLinear(text: Text, config: Config)
    ensures var lexed := Lex(text, config);
            && EndsInOnlyEndOfFile(lexed.tokens)
            && |lexed.reports| + |Spec.Run(lexed.tokens).1.reports| <= 2 * |text|
  {
    hide LexFrom, Spec.Run, Masked, Tiling.Faithful, Tiling.Span;
    Tiling.TokensTileTheText(text, config);
    if |text| <= SOURCE_SIZE_MAX {
      Tiling.LexIsLinear(text, config);
    }
  }

  lemma RoomBehindTokens(text: Text, config: Config, k: nat)
    requires k < |Lex(text, config).tokens|
    ensures EndsInOnlyEndOfFile(Lex(text, config).tokens) && ParserPrefixes.HasRoomBehind(Lex(text, config).tokens, k)
  {
    hide Lex, Masked;
    Tiling.TokensTileTheText(text, config);
    var tokens := Lex(text, config).tokens;
    if k < |tokens| - 1 {
      SourceIsSmall(text, config);
      assert Tiling.Faithful(tokens[k], text);
    }
  }

  lemma SourceIsSmall(text: Text, config: Config)
    requires |Lex(text, config).tokens| > 1
    ensures |text| <= SOURCE_SIZE_MAX
  {
    hide LexFrom, Masked;
  }

  /** Errors are found at the earliest token: in every source, where a statement or a definition fails, nothing of the
      language goes on with the token that was not expected. */
  lemma {:induction false} ErrorsAreFoundEarly(text: Text, config: Config, s: Spec.State, e: Expr, d: Definition)
    requires var tokens := Lex(text, config).tokens; s.pos < |tokens|
    ensures var tokens := Lex(text, config).tokens;
            && Spec.Live(tokens, s)
            && (Spec.ParseStatement(tokens, s).Thrown? && Grammar.Shaped(e) && (Grammar.StartsWithBlock(e) ==> e.Block?)
                ==> !ParserPrefixes.Begins(Grammar.PrintStatement(e), tokens, s.pos,
                                           Spec.ParseStatement(tokens, s).state.pos + 1))
            && (Spec.ParseDefinition(tokens, s).Thrown? && Grammar.ShapedDefinition(d)
                ==> !ParserPrefixes.Begins(Grammar.PrintDefinition(d), tokens, s.pos,
                                           Spec.ParseDefinition(tokens, s).state.pos + 1))
  {
    hide Lex, EndsInOnlyEndOfFile, NamesNotEmpty, Spec.ParseStatement, Spec.ParseDefinition, Grammar.Shaped,
         Grammar.StartsWithBlock, Grammar.ShapedDefinition, Grammar.PrintStatement, Grammar.PrintDefinition,
         ParserPrefixes.Begins, ParserPrefixes.HasRoomBehind;
    var tokens := Lex(text, config).tokens;
    RoomBehindTokens(text, config, s.pos);
    if Spec.ParseStatement(tokens, s).Thrown? && Grammar.Shaped(e) && (Grammar.StartsWithBlock(e) ==> e.Block?) {
      Spec.StatementMoves(tokens, s);
      RoomBehindTokens(text, config, Spec.ParseStatement(tokens, s).state.pos);
      ParserPrefixes.NoStatementGoesOn(tokens, s, e);
    }
    if Spec.ParseDefinition(tokens, s).Thrown? && Grammar.ShapedDefinition(d) {
      ParserPrefixes.DefinitionMoves(tokens, s);
      RoomBehindTokens(text, config, Spec.ParseDefinition(tokens, s).state.pos);
      ParserPrefixes.NoDefinitionGoesOn(tokens, s, d);
    }
  }

  /** `build_source` up to the semantic analysis: comments are not kept. */
  method Build(text: Text, start: seq<Unicode.Range>, continuation: seq<Unicode.Range>)
    returns (program: seq<Definition>, lexical: seq<Report>, syntactic: seq<Spec.Report>)
    requires Keywords.IsBytes(text) && Unicode.SortedDisjoint(start) && Unicode.SortedDisjoint(continuation)
    ensures var lexed := Lex(text, Config(start, continuation, false));
            && EndsInOnlyEndOfFile(lexed.tokens)
            && lexical == lexed.reports
            && program == Spec.Run(lexed.tokens).0 && syntactic == Spec.Run(lexed.tokens).1.reports
    ensures |lexical| + |syntactic| <= 2 * |text|
    ensures Grammar.ShapedProgram(program)
    ensures var tokens := Lex(text, Config(start, continuation, false)).tokens;
            && ParserRecovery.Embeds(Grammar.PrintProgram(program), tokens, 0, |tokens|)
            && ParserReports.InOrder(syntactic, tokens, |tokens| - 1)
  {
    hide Lex, Spec.Run, Tiling.Faithful, Tiling.Span, Grammar.ShapedProgram, Grammar.PrintProgram,
         ParserRecovery.Embeds, ParserReports.InOrder;
    var config := Config(start, continuation, false);
    Tiling.TokensTileTheText(text, config);
    ReportsAreLinear(text, config);
    ParserRecovery.ResultIsFound(Lex(text, config).tokens);
    ParserReports.ReportsAreInOrder(Lex(text, config).tokens);
    var lexer := new Lexers.Lexer(text, config);
    lexer.Run();
    var parser := new Parsers.Parser(lexer.tokens);
    parser.Run();
    program, lexical, syntactic := parser.definitions, lexer.reports, parser.reports;
  }

  // ---------------------------------------------------------------- what trees look like in a source

  /** How a binary operator is written; `>>` is two adjacent `>`. */
  function BinaryText(op: BinaryOperator): string {
    match op
    case Add => "+" case Sub => "-" case Mul => "*" case Div => "/" case Rem => "%"
    case BitAnd => "&" case BitOr => "|" case BitXor => "~" case Shl => "<<" case Shr => ">"
    case LogicAnd => "&&" case LogicOr => "||"
    case Equal => "==" case NotEqual => "!=" case Less => "<" case LessEq => "<=" case Greater => ">" case GreaterEq => ">="
    case Assign => "=" case AddAssign => "+=" case SubAssign => "-=" case MulAssign => "*=" case DivAssign => "/="
    case RemAssign => "%=" case BitAndAssign => "&=" case BitOrAssign => "|=" case XorAssign => "~="
    case ShlAssign => "<<=" case ShrAssign => ">>=" case LogicAndAssign => "&&=" case LogicOrAssign => "||="
  }

  function UnaryText(op: UnaryOperator): string {
    match op
    case PreIncrement | PostIncrement => "++"
    case PreDecrement | PostDecrement => "--"
    case Negate => "-"
    case BitNot => "~"
    case LogicNot => "!"
    case AddrOf => "&"
    case Deref => "^"
  }

  lemma SignIsWritten(kind: TokenKind)
    requires Keywords.SignChar(kind) != '\0'
    ensures Keywords.FixedText(kind) == [Keywords.SignChar(kind)]
  {
    hide Keywords.FixedText, Keywords.SignChar;
    Keywords.SignIsFixed(kind);
  }

  lemma BinarySigns(op: BinaryOperator)
    requires |BinaryText(op)| == 1
    ensures Keywords.SignChar(Grammar.BinaryToken(op)) == BinaryText(op)[0] != '\0'
  {
  }

  lemma BinaryPairs(op: BinaryOperator)
    requires |BinaryText(op)| == 2
    ensures Keywords.PairChars(Grammar.BinaryToken(op)) == Keywords.Pair(BinaryText(op)[0], BinaryText(op)[1])
  {
  }

  lemma BinaryTriples(op: BinaryOperator)
    requires |BinaryText(op)| > 2
    ensures Keywords.TripleText(Grammar.BinaryToken(op)) == BinaryText(op)
  {
  }

  lemma BinaryTextSizes(op: BinaryOperator)
    ensures 1 <= |BinaryText(op)| <= 3
  {
  }

  lemma BinaryOperatorsAreWritten(op: BinaryOperator)
    ensures Keywords.FixedText(Grammar.BinaryToken(op)) == BinaryText(op)
  {
    hide Keywords.FixedText, Keywords.SignChar, Keywords.PairChars, Keywords.TripleText, Grammar.BinaryToken,
         BinaryText;
    var kind := Grammar.BinaryToken(op);
    BinaryTextSizes(op);
    if |BinaryText(op)| == 1 {
      BinarySigns(op);
      SignIsWritten(kind);
    } else if |BinaryText(op)| == 2 {
      BinaryPairs(op);
      Keywords.PairIsFixed(kind);
    } else {
      BinaryTriples(op);
      Keywords.TripleIsFixed(kind);
    }
  }

  lemma UnaryTokens(op: UnaryOperator)
    ensures if |UnaryText(op)| == 1 then Keywords.SignChar(Grammar.UnaryToken(op)) == UnaryText(op)[0] != '\0'
            else |UnaryText(op)| == 2
                 && Keywords.PairChars(Grammar.UnaryToken(op)) == Keywords.Pair(UnaryText(op)[0], UnaryText(op)[1])
  {
  }

  lemma UnaryOperatorsAreWritten(op: UnaryOperator)
    ensures Keywords.FixedText(Grammar.UnaryToken(op)) == UnaryText(op)
  {
    hide Keywords.FixedText, Keywords.SignChar, Keywords.PairChars, Grammar.UnaryToken, UnaryText;
    var kind := Grammar.UnaryToken(op);
    UnaryTokens(op);
    if |UnaryText(op)| == 1 {
      SignIsWritten(kind);
    } else {
      Keywords.PairIsFixed(kind);
    }
  }

  lemma BracketsAreWritten()
    ensures Keywords.FixedText(LParen) == "(" && Keywords.FixedText(RParen) == ")"
    ensures Keywords.FixedText(LBrace) == "{" && Keywords.FixedText(RBrace) == "}"
  {
    assert Keywords.SignChar(LParen) == '(' && Keywords.SignChar(RParen) == ')';
    assert Keywords.SignChar(LBrace) == '{' && Keywords.SignChar(RBrace) == '}';
    hide *;
    SignIsWritten(LParen);
    SignIsWritten(RParen);
    SignIsWritten(LBrace);
    SignIsWritten(RBrace);
  }

  lemma SeparatorsAreWritten()
    ensures Keywords.FixedText(Comma) == "," && Keywords.FixedText(Semicolon) == ";"
    ensures Keywords.FixedText(ThinArrow) == "->"
  {
    assert Keywords.SignChar(Comma) == ',' && Keywords.SignChar(Semicolon) == ';' && Keywords.PairText(ThinArrow) == "->";
    hide *;
    SignIsWritten(Comma);
    SignIsWritten(Semicolon);
    Keywords.PairIsFixed(ThinArrow);
  }

  /** The words between the parts of trees, and those where recovery stops. */
  lemma WordsAreWritten()
    ensures Keywords.FixedText(KwReturn) == "return"
    ensures Keywords.FixedText(KwPublic) == "public" && Keywords.FixedText(KwPrivate) == "private"
    ensures Keywords.FixedText(KwStruct) == "struct" && Keywords.FixedText(KwEnum) == "enum"
  {
    assert Keywords.KeywordText(KwReturn) == "return" && Keywords.KeywordText(KwPublic) == "public";
    assert Keywords.KeywordText(KwPrivate) == "private" && Keywords.KeywordText(KwStruct) == "struct";
    assert Keywords.KeywordText(KwEnum) == "enum";
    hide *;
    Keywords.KeywordIsFixed(KwReturn);
    Keywords.KeywordIsFixed(KwPublic);
    Keywords.KeywordIsFixed(KwPrivate);
    Keywords.KeywordIsFixed(KwStruct);
    Keywords.KeywordIsFixed(KwEnum);
  }

  /** How a literal begins. */
  predicate BeginsLiteral(kind: LiteralKind, text: Text, i: nat) {
    var a, b := At(text, i), At(text, i + 1);
    match kind
    case HexInt => a == '0' && b == 'x'
    case BinInt => a == '0' && b == 'b'
    case OctInt => a == '0' && b == 'o'
    case DecInt => a in "0123456789" && (a != '0' || b !in "xbo")
    case Float => a in ".0123456789"
    case Char => a == '\''
    case String => a == '"'
  }

  lemma LiteralBegins(kind: LiteralKind, text: Text, i: nat)
    requires LexicalSteps.BeginsAs(Grammar.LiteralToken(kind), text, i)
    ensures BeginsLiteral(kind, text, i)
  {
  }

  /** Wherever a piece of a tree that is printed as a literal fits a token of a source, that literal is written there. */
  lemma {:induction false} LiteralsAreWritten(text: Text, config: Config, k: nat, offset: Offset, kind: LiteralKind,
                                              length: nat)
    requires var tokens := Lex(text, config).tokens;
             k < |tokens| && Grammar.Fits(Grammar.Print(Literal(offset, kind, length))[0], tokens, k)
    ensures BeginsLiteral(kind, text, offset)
  {
    hide Lex, Grammar.LiteralToken, BeginsLiteral, LexicalSteps.BeginsAs;
    LexicalSteps.TokensBeginAsTheirKinds(text, config);
    LiteralBegins(kind, text, offset);
  }
}
