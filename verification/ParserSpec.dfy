/** The parser of cero/syntax/parser.cc as functions from a parser state to a result and the next state.
    The class in Parser.dfy works through the token list step by step and is proved to compute these. */
module ParserSpec {
  import opened Tokens
  import opened Ast
  import opened Grammar

  datatype Message =
    | ExpectFunctionStructOrEnum | ExpectParenAfterFunctionName | ExpectParameterType | ExpectParameterName
    | ExpectParenAfterParameters | ExpectReturnType | ExpectBraceBeforeFunctionBody | ExpectExpression
    | ExpectSemicolon | ExpectClosingParenInCall

  /** Location and text of a report are those of `found`, the token that was not expected. */
  datatype Report = Report(message: Message, found: Token)

  /** The position of the token cursor, what was reported, and how many parse errors were caught. */
  datatype State = State(pos: nat, reports: seq<Report>, caught: nat)

  /** `Thrown` is a `ParseError` on its way to the next handler. */
  datatype Result<T> = Done(value: T, state: State) | Thrown(state: State) {
    predicate IsFailure() {
      Thrown?
    }

    function PropagateFailure<U>(): Result<U>
      requires Thrown?
    {
      Thrown(state)
    }

    function Extract(): (T, State)
      requires Done?
    {
      (value, state)
    }
  }

  datatype Unit = Unit

  ghost predicate Live(tokens: seq<Token>, s: State) {
    EndsInOnlyEndOfFile(tokens) && s.pos < |tokens|
  }

  /** What happens between two states: the cursor does not go back, there are `extra` more
      reports than caught errors, and at most `slack` more errors were caught than tokens passed. */
  ghost predicate Accounts(s: State, t: State, extra: nat, slack: nat) {
    && s.pos <= t.pos
    && s.caught <= t.caught
    && |t.reports| - |s.reports| == t.caught - s.caught + extra
    && t.caught - s.caught <= t.pos - s.pos + slack
  }

  // ---------------------------------------------------------------- token cursor

  function Kind(tokens: seq<Token>, s: State): TokenKind
    requires s.pos < |tokens|
  {
    tokens[s.pos].kind
  }

  function Advance(tokens: seq<Token>, s: State): (t: State)
    requires Live(tokens, s)
    ensures Live(tokens, t) && t == s.(pos := t.pos)
    ensures t.pos == if Kind(tokens, s) == EndOfFile then s.pos else s.pos + 1
  {
    if Kind(tokens, s) == EndOfFile then s else s.(pos := s.pos + 1)
  }

  /** Whether the token after the current one is a `>` directly behind it. */
  predicate ShiftAhead(tokens: seq<Token>, s: State)
    requires Live(tokens, s)
  {
    var ahead := if Kind(tokens, s) == EndOfFile then tokens[s.pos] else tokens[s.pos + 1];
    ahead.kind == RAngle && ahead.offset == tokens[s.pos].offset + 1
  }

  function NextTailRule(tokens: seq<Token>, s: State): TailRule
    requires Live(tokens, s)
  {
    LookupTailRule(Kind(tokens, s), ShiftAhead(tokens, s))
  }

  /** Past a binary operator; `>>` is two tokens. */
  function OperatorEnd(tokens: seq<Token>, s: State, op: BinaryOperator): (t: State)
    requires Live(tokens, s)
    ensures Live(tokens, t) && t == s.(pos := t.pos) && s.pos <= t.pos
    ensures Kind(tokens, s) != EndOfFile ==> s.pos < t.pos
  {
    var s1 := Advance(tokens, s);
    if op == Shr then Advance(tokens, s1) else s1
  }

  function ReportExpected(tokens: seq<Token>, s: State, message: Message): State
    requires s.pos < |tokens|
  {
    s.(reports := s.reports + [Report(message, tokens[s.pos])])
  }

  function Expect(tokens: seq<Token>, s: State, kind: TokenKind, message: Message): (r: Result<Unit>)
    requires Live(tokens, s) && kind != EndOfFile
    ensures Live(tokens, r.state) && s.pos <= r.state.pos && r.state.caught == s.caught
    ensures |r.state.reports| == |s.reports| + if r.Done? then 0 else 1
    ensures r.Done? <==> Kind(tokens, s) == kind
    ensures r.state.pos == if r.Done? then s.pos + 1 else s.pos
    ensures r.Done? ==> r.state.reports == s.reports
  {
    if Kind(tokens, s) == kind then Done(Unit, Advance(tokens, s))
    else Thrown(ReportExpected(tokens, s, message))
  }

  // ---------------------------------------------------------------- expressions

  function ParseExpression(tokens: seq<Token>, s: State, p: Precedence): (r: Result<Expr>)
    requires Live(tokens, s)
    ensures Live(tokens, r.state) && Accounts(s, r.state, if r.Done? then 0 else 1, 0)
    ensures r.Done? ==> s.pos < r.state.pos
    decreases |tokens| - s.pos, 4
  {
    if !IsHead(Kind(tokens, s)) then
      Thrown(ReportExpected(tokens, s, ExpectExpression))
    else
      var (e, s1) :- ParseHead(tokens, s);
      ParseTails(tokens, s1, p, e)
  }

  function ParseHead(tokens: seq<Token>, s: State): (r: Result<Expr>)
    requires Live(tokens, s) && IsHead(Kind(tokens, s))
    ensures Live(tokens, r.state) && Accounts(s, r.state, if r.Done? then 0 else 1, 0)
    ensures s.pos < r.state.pos
    decreases |tokens| - s.pos, 3
  {
    var token := tokens[s.pos];
    var s1 := Advance(tokens, s);
    match HeadRule(token.kind)
    case IdentHead => Done(Ident(token.offset, token.length), s1)
    case LiteralHead(kind) => Done(Literal(token.offset, kind, token.length), s1)
    case BlockHead =>
      var (statements, s2) := ParseBlock(tokens, s1);
      Done(Block(token.offset, statements), s2)
    case ReturnHead =>
      if IsHead(Kind(tokens, s1)) then
        var (values, s2) :- ParseList(tokens, s1);
        Done(Return(token.offset, values), s2)
      else
        Done(Return(token.offset, []), s1)
    case PrefixHead(op) =>
      var (operand, s2) :- ParseExpression(tokens, s1, PREFIX);
      Done(Unary(token.offset, op, operand), s2)
  }

  /** The loop over tail functions, with `e` the expression read so far. */
  function ParseTails(tokens: seq<Token>, s: State, p: Precedence, e: Expr): (r: Result<Expr>)
    requires Live(tokens, s)
    ensures Live(tokens, r.state) && Accounts(s, r.state, if r.Done? then 0 else 1, 0)
    decreases |tokens| - s.pos, 3
  {
    var rule := NextTailRule(tokens, s);
    if p < rule.precedence then
      var (e1, s1) :- ParseTail(tokens, s, rule.tail, e);
      ParseTails(tokens, s1, p, e1)
    else
      Done(e, s)
  }

  function ParseTail(tokens: seq<Token>, s: State, tail: Tail, e: Expr): (r: Result<Expr>)
    requires Live(tokens, s) && tail != NoTail && tail == NextTailRule(tokens, s).tail
    ensures Live(tokens, r.state) && Accounts(s, r.state, if r.Done? then 0 else 1, 0)
    ensures s.pos < r.state.pos
    decreases |tokens| - s.pos, 2
  {
    var s1 := Advance(tokens, s);
    match tail
    case InfixTail(op) =>
      var (right, s2) :- ParseExpression(tokens, OperatorEnd(tokens, s, op), AssociativityPrecedence(op));
      Done(Binary(e.offset, op, e, right), s2)
    case PostfixTail(op) =>
      Done(Unary(e.offset, op, e), s1)
    case CallTail =>
      if Kind(tokens, s1) == RParen then
        Done(Call(e.offset, e, []), Advance(tokens, s1))
      else
        var (args, s2) :- ParseList(tokens, s1);
        var (_, s3) :- Expect(tokens, s2, RParen, ExpectClosingParenInCall);
        Done(Call(e.offset, e, args), s3)
  }

  /** Expressions separated by commas. */
  function ParseList(tokens: seq<Token>, s: State): (r: Result<seq<Expr>>)
    requires Live(tokens, s)
    ensures Live(tokens, r.state) && Accounts(s, r.state, if r.Done? then 0 else 1, 0)
    ensures r.Done? ==> s.pos < r.state.pos
    decreases |tokens| - s.pos, 5
  {
    var (e, s1) :- ParseExpression(tokens, s, STATEMENT);
    if Kind(tokens, s1) == Comma then
      var (es, s2) :- ParseList(tokens, Advance(tokens, s1));
      Done([e] + es, s2)
    else
      Done([e], s1)
  }

  /** The ways in which an expression can be read. */
  lemma ExpressionCases(tokens: seq<Token>, s: State, p: Precedence)
    requires Live(tokens, s)
    ensures var r := ParseExpression(tokens, s, p);
            if !IsHead(Kind(tokens, s)) then r.Thrown? && r.state == ReportExpected(tokens, s, ExpectExpression)
            else
              var head := ParseHead(tokens, s);
              if head.Thrown? then r.Thrown? && r.state == head.state
              else r == ParseTails(tokens, head.state, p, head.value)
  {
    hide HeadRule, EndsInOnlyEndOfFile, ParseHead, ParseTails, Accounts;
  }

  /** The ways in which the loop over tail functions can go on. */
  lemma TailsCases(tokens: seq<Token>, s: State, p: Precedence, e: Expr)
    requires Live(tokens, s)
    ensures var r, rule := ParseTails(tokens, s, p, e), NextTailRule(tokens, s);
            if p < rule.precedence then
              && rule.tail != NoTail
              && var tail := ParseTail(tokens, s, rule.tail, e);
                 if tail.Thrown? then r.Thrown? && r.state == tail.state
                 else r == ParseTails(tokens, tail.state, p, tail.value)
            else r == Done(e, s)
  {
    hide LookupTailRule, EndsInOnlyEndOfFile, ShiftAhead, ParseTail, Accounts;
    TablesAgree(Kind(tokens, s), ShiftAhead(tokens, s));
  }

  lemma ExpressionMoves(tokens: seq<Token>, s: State, p: Precedence)
    requires Live(tokens, s)
    ensures var t := ParseExpression(tokens, s, p).state;
            Live(tokens, t) && s.pos <= t.pos && s.caught <= t.caught
  {
    hide ParseExpression, EndsInOnlyEndOfFile;
  }

  lemma ListMoves(tokens: seq<Token>, s: State)
    requires Live(tokens, s)
    ensures var t := ParseList(tokens, s).state;
            Live(tokens, t) && s.pos <= t.pos && s.caught <= t.caught
  {
    hide ParseList, EndsInOnlyEndOfFile;
  }

  lemma BlockHeadCases(tokens: seq<Token>, s: State)
    requires Live(tokens, s) && HeadRule(Kind(tokens, s)) == BlockHead
    ensures var block := ParseBlock(tokens, Advance(tokens, s));
            ParseHead(tokens, s) == Done(Block(tokens[s.pos].offset, block.0), block.1)
  {
    hide HeadRule, EndsInOnlyEndOfFile, ParseBlock, Accounts;
  }

  /** The ways in which a `return` can be read. */
  lemma ReturnCases(tokens: seq<Token>, s: State)
    requires Live(tokens, s) && HeadRule(Kind(tokens, s)) == ReturnHead
    ensures var r, s1 := ParseHead(tokens, s), Advance(tokens, s);
            if IsHead(Kind(tokens, s1)) then
              var list := ParseList(tokens, s1);
              && r.state == list.state && r.Done? == list.Done?
              && (r.Done? ==> r.value == Return(tokens[s.pos].offset, list.value))
            else r == Done(Return(tokens[s.pos].offset, []), s1)
  {
    hide HeadRule, EndsInOnlyEndOfFile, ParseList, Accounts;
  }

  /** The ways in which a prefix operator can be read. */
  lemma PrefixCases(tokens: seq<Token>, s: State, op: UnaryOperator)
    requires Live(tokens, s) && HeadRule(Kind(tokens, s)) == PrefixHead(op)
    ensures var r, operand := ParseHead(tokens, s), ParseExpression(tokens, Advance(tokens, s), PREFIX);
            && r.state == operand.state && r.Done? == operand.Done?
            && (r.Done? ==> r.value == Unary(tokens[s.pos].offset, op, operand.value))
  {
    hide HeadRule, EndsInOnlyEndOfFile, ParseExpression, Accounts;
  }

  /** The ways in which a binary operator can be read. */
  lemma InfixCases(tokens: seq<Token>, s: State, op: BinaryOperator, e: Expr)
    requires Live(tokens, s) && NextTailRule(tokens, s).tail == InfixTail(op)
    ensures var r := ParseTail(tokens, s, InfixTail(op), e);
            var right := ParseExpression(tokens, OperatorEnd(tokens, s, op), AssociativityPrecedence(op));
            && r.state == right.state && r.Done? == right.Done?
            && (r.Done? ==> r.value == Binary(e.offset, op, e, right.value))
  {
    hide EndsInOnlyEndOfFile, NextTailRule, ParseExpression, AssociativityPrecedence, Accounts;
  }

  /** The ways in which a call can be read. */
  lemma CallCases(tokens: seq<Token>, s: State, e: Expr)
    requires Live(tokens, s) && NextTailRule(tokens, s).tail == CallTail
    ensures var r := ParseTail(tokens, s, CallTail, e);
            var s1 := Advance(tokens, s);
            if Kind(tokens, s1) == RParen then
              r.Done? && r.value == Call(e.offset, e, []) && r.state == Advance(tokens, s1)
            else
              var args := ParseList(tokens, s1);
              if args.Thrown? then r.Thrown? && r.state == args.state
              else
                var closing := Expect(tokens, args.state, RParen, ExpectClosingParenInCall);
                && r.state == closing.state && r.Done? == closing.Done?
                && (r.Done? ==> r.value == Call(e.offset, e, args.value))
  {
    hide EndsInOnlyEndOfFile, NextTailRule, ParseList, Expect, Accounts;
  }

  /** The ways in which a list can go on. */
  lemma ListCases(tokens: seq<Token>, s: State)
    requires Live(tokens, s)
    ensures var list, r := ParseList(tokens, s), ParseExpression(tokens, s, STATEMENT);
            if r.Thrown? then list.Thrown? && list.state == r.state
            else if Kind(tokens, r.state) == Comma then
              var rest := ParseList(tokens, Advance(tokens, r.state));
              && list.state == rest.state && list.Done? == rest.Done?
              && (list.Done? ==> list.value == [r.value] + rest.value)
            else list.Done? && list.state == r.state && list.value == [r.value]
  {
    hide ParseExpression, EndsInOnlyEndOfFile, Accounts;
  }

  // ---------------------------------------------------------------- statements

  function ParseStatement(tokens: seq<Token>, s: State): (r: Result<Expr>)
    requires Live(tokens, s)
    ensures Live(tokens, r.state) && Accounts(s, r.state, if r.Done? then 0 else 1, 0)
    ensures r.Done? ==> s.pos < r.state.pos
    decreases |tokens| - s.pos, 5
  {
    if Kind(tokens, s) == LBrace then
      ParseHead(tokens, s)
    else
      var (e, s1) :- ParseExpression(tokens, s, STATEMENT);
      var (_, s2) :- Expect(tokens, s1, Semicolon, ExpectSemicolon);
      Done(e, s2)
  }

  /** Skips past the next `;`, or up to the next `}` or the end of the file; true at the end of the file. */
  function RecoverAtStatementLevel(tokens: seq<Token>, s: State): (r: (bool, State))
    requires Live(tokens, s)
    ensures s.pos <= r.1.pos < |tokens| && r.1 == s.(pos := r.1.pos)
    ensures if r.0 then r.1.pos == |tokens| - 1 else tokens[r.1.pos].kind == RBrace || s.pos < r.1.pos
    decreases |tokens| - s.pos
  {
    var kind := Kind(tokens, s);
    if kind == EndOfFile then (true, s)
    else if kind == Semicolon then (false, Advance(tokens, s))
    else if kind == RBrace then (false, s)
    else RecoverAtStatementLevel(tokens, Advance(tokens, s))
  }

  /** The statements up to the closing brace, which is taken too. Errors are caught here, so a block never throws.
      An error at the end of the file is paid for by the opening brace: that is the slack of one. */
  function ParseBlock(tokens: seq<Token>, s: State): (r: (seq<Expr>, State))
    requires Live(tokens, s)
    ensures Live(tokens, r.1) && Accounts(s, r.1, 0, 1)
    decreases |tokens| - s.pos, 6
  {
    if Kind(tokens, s) == RBrace then
      ([], Advance(tokens, s))
    else
      match ParseStatement(tokens, s)
      case Done(e, s1) =>
        var (es, s2) := ParseBlock(tokens, s1);
        ([e] + es, s2)
      case Thrown(s1) =>
        var (atEnd, s2) := RecoverAtStatementLevel(tokens, s1.(caught := s1.caught + 1));
        if atEnd then ([], s2) else ParseBlock(tokens, s2)
  }

  /** The ways in which a statement that begins with no brace can be read. */
  lemma StatementCases(tokens: seq<Token>, s: State)
    requires Live(tokens, s) && Kind(tokens, s) != LBrace
    ensures var r, e := ParseStatement(tokens, s), ParseExpression(tokens, s, STATEMENT);
            if e.Thrown? then r.Thrown? && r.state == e.state
            else
              var end := Expect(tokens, e.state, Semicolon, ExpectSemicolon);
              r.state == end.state && r.Done? == end.Done? && (r.Done? ==> r.value == e.value)
  {
    hide EndsInOnlyEndOfFile, ParseExpression, ParseHead, Expect, Accounts;
  }

  lemma StatementMoves(tokens: seq<Token>, s: State)
    requires Live(tokens, s)
    ensures var r := ParseStatement(tokens, s);
            && Live(tokens, r.state) && s.pos <= r.state.pos && s.caught <= r.state.caught
            && (r.Done? ==> s.pos < r.state.pos)
  {
    hide ParseStatement, EndsInOnlyEndOfFile;
  }

  lemma BlockMoves(tokens: seq<Token>, s: State)
    requires Live(tokens, s)
    ensures var t := ParseBlock(tokens, s).1;
            s.pos <= t.pos && s.caught <= t.caught
  {
    hide ParseBlock, EndsInOnlyEndOfFile;
  }

  /** A block ends at its closing brace. */
  lemma BlockCloses(tokens: seq<Token>, s: State)
    requires Live(tokens, s) && Kind(tokens, s) == RBrace
    ensures ParseBlock(tokens, s).0 == [] && ParseBlock(tokens, s).1 == Advance(tokens, s)
  {
    hide EndsInOnlyEndOfFile, ParseStatement, RecoverAtStatementLevel, Accounts;
  }

  /** A block goes on behind a statement. */
  lemma BlockGoesOn(tokens: seq<Token>, s: State, e: Expr, s1: State)
    requires Live(tokens, s) && Kind(tokens, s) != RBrace && ParseStatement(tokens, s) == Done(e, s1)
    ensures Live(tokens, s1) && s.pos < s1.pos && s.caught <= s1.caught
    ensures ParseBlock(tokens, s).0 == [e] + ParseBlock(tokens, s1).0
    ensures ParseBlock(tokens, s).1 == ParseBlock(tokens, s1).1
  {
    hide EndsInOnlyEndOfFile, ParseStatement, RecoverAtStatementLevel, Accounts;
    StatementMoves(tokens, s);
  }

  /** Recovery in a block moves on, and to the end of the file if it stops there. */
  lemma RecoveryMoves(tokens: seq<Token>, s: State, s1: State, atEnd: bool, s2: State)
    requires Live(tokens, s) && Kind(tokens, s) != RBrace && ParseStatement(tokens, s) == Thrown(s1)
    requires Live(tokens, s1) && RecoverAtStatementLevel(tokens, s1.(caught := s1.caught + 1)) == (atEnd, s2)
    ensures Live(tokens, s2) && s.pos <= s2.pos && s.caught < s2.caught
    ensures if atEnd then s2.pos == |tokens| - 1 else s.pos < s2.pos
  {
    hide EndsInOnlyEndOfFile, ParseStatement, RecoverAtStatementLevel;
    StatementMoves(tokens, s);
  }

  /** A block goes on behind an error, if the file does. */
  lemma BlockRecovers(tokens: seq<Token>, s: State, s1: State, atEnd: bool, s2: State)
    requires Live(tokens, s) && Kind(tokens, s) != RBrace && ParseStatement(tokens, s) == Thrown(s1)
    requires Live(tokens, s1) && RecoverAtStatementLevel(tokens, s1.(caught := s1.caught + 1)) == (atEnd, s2)
    ensures ParseBlock(tokens, s) == if atEnd then ([], s2) else ParseBlock(tokens, s2)
  {
    hide EndsInOnlyEndOfFile, ParseStatement, RecoverAtStatementLevel, Accounts;
  }

  // ---------------------------------------------------------------- definitions

  /** A function signature catches nothing: it only moves the cursor, or throws after one report. An empty
      identifier token as a parameter name is the one case that throws without a report. */
  ghost predicate SignatureStep(tokens: seq<Token>, s: State, t: State, done: bool) {
    && s.pos <= t.pos < |tokens|
    && t.caught == s.caught
    && |s.reports| <= |t.reports| <= |s.reports| + 1
    && (done ==> t == s.(pos := t.pos))
    && (!done && NamesNotEmpty(tokens) ==> |t.reports| == |s.reports| + 1)
  }

  function ParseType(tokens: seq<Token>, s: State, message: Message): (r: Result<Expr>)
    requires Live(tokens, s)
    ensures SignatureStep(tokens, s, r.state, r.Done?) && (r.Done? ==> s.pos < r.state.pos)
  {
    var token := tokens[s.pos];
    if token.kind == Identifier then Done(Ident(token.offset, token.length), Advance(tokens, s))
    else Thrown(ReportExpected(tokens, s, message))
  }

  function ParseParameter(tokens: seq<Token>, s: State): (r: Result<Parameter>)
    requires Live(tokens, s)
    ensures SignatureStep(tokens, s, r.state, r.Done?) && (r.Done? ==> s.pos < r.state.pos)
  {
    var (typ, s1) :- ParseType(tokens, s, ExpectParameterType);
    var token := tokens[s1.pos];
    if token.kind != Identifier then Thrown(ReportExpected(tokens, s1, ExpectParameterName))
    else if token.length == 0 then Thrown(Advance(tokens, s1))
    else Done(Parameter(tokens[s.pos].offset, typ, Name(token.offset, token.length)), Advance(tokens, s1))
  }

  function ParseParameterList(tokens: seq<Token>, s: State): (r: Result<seq<Parameter>>)
    requires Live(tokens, s)
    ensures SignatureStep(tokens, s, r.state, r.Done?)
    decreases |tokens| - s.pos
  {
    var (p, s1) :- ParseParameter(tokens, s);
    if Kind(tokens, s1) == Comma then
      var (ps, s2) :- ParseParameterList(tokens, Advance(tokens, s1));
      Done([p] + ps, s2)
    else
      Done([p], s1)
  }

  /** The ways in which a parameter list can go on. */
  lemma ParameterListCases(tokens: seq<Token>, s: State)
    requires Live(tokens, s)
    ensures var list, r := ParseParameterList(tokens, s), ParseParameter(tokens, s);
            if r.Thrown? then list.Thrown? && list.state == r.state
            else if Kind(tokens, r.state) == Comma then
              var rest := ParseParameterList(tokens, Advance(tokens, r.state));
              && list.state == rest.state && list.Done? == rest.Done?
              && (list.Done? ==> list.value == [r.value] + rest.value)
            else list.Done? && list.state == r.state && list.value == [r.value]
  {
    hide ParseParameter, EndsInOnlyEndOfFile, NamesNotEmpty;
  }

  function ParseParameters(tokens: seq<Token>, s: State): (r: Result<seq<Parameter>>)
    requires Live(tokens, s)
    ensures SignatureStep(tokens, s, r.state, r.Done?)
  {
    if Kind(tokens, s) == RParen then
      Done([], Advance(tokens, s))
    else
      var (ps, s1) :- ParseParameterList(tokens, s);
      var (_, s2) :- Expect(tokens, s1, RParen, ExpectParenAfterParameters);
      Done(ps, s2)
  }

  /** The ways in which parameters and their parentheses can be read. */
  lemma ParametersCases(tokens: seq<Token>, s: State)
    requires Live(tokens, s)
    ensures var r := ParseParameters(tokens, s);
            if Kind(tokens, s) == RParen then r == Done([], Advance(tokens, s))
            else
              var list := ParseParameterList(tokens, s);
              if list.Thrown? then r.Thrown? && r.state == list.state
              else
                var end := Expect(tokens, list.state, RParen, ExpectParenAfterParameters);
                r.state == end.state && r.Done? == end.Done? && (r.Done? ==> r.value == list.value)
  {
    hide EndsInOnlyEndOfFile, NamesNotEmpty, SignatureStep, ParseParameterList, Expect;
  }

  function ParseOutput(tokens: seq<Token>, s: State): (r: Result<Output>)
    requires Live(tokens, s)
    ensures SignatureStep(tokens, s, r.state, r.Done?) && (r.Done? ==> s.pos < r.state.pos)
  {
    var (typ, s1) :- ParseType(tokens, s, ExpectReturnType);
    Done(Output(tokens[s.pos].offset, typ), s1)
  }

  function ParseOutputList(tokens: seq<Token>, s: State): (r: Result<seq<Output>>)
    requires Live(tokens, s)
    ensures SignatureStep(tokens, s, r.state, r.Done?)
    decreases |tokens| - s.pos
  {
    var (o, s1) :- ParseOutput(tokens, s);
    if Kind(tokens, s1) == Comma then
      var (os, s2) :- ParseOutputList(tokens, Advance(tokens, s1));
      Done([o] + os, s2)
    else
      Done([o], s1)
  }

  /** The ways in which a list of outputs can go on. */
  lemma OutputListCases(tokens: seq<Token>, s: State)
    requires Live(tokens, s)
    ensures var list, r := ParseOutputList(tokens, s), ParseOutput(tokens, s);
            if r.Thrown? then list.Thrown? && list.state == r.state
            else if Kind(tokens, r.state) == Comma then
              var rest := ParseOutputList(tokens, Advance(tokens, r.state));
              && list.state == rest.state && list.Done? == rest.Done?
              && (list.Done? ==> list.value == [r.value] + rest.value)
            else list.Done? && list.state == r.state && list.value == [r.value]
  {
    hide ParseOutput, EndsInOnlyEndOfFile, NamesNotEmpty;
  }

  function ParseOutputs(tokens: seq<Token>, s: State): (r: Result<seq<Output>>)
    requires Live(tokens, s)
    ensures SignatureStep(tokens, s, r.state, r.Done?)
  {
    if Kind(tokens, s) == ThinArrow then ParseOutputList(tokens, Advance(tokens, s)) else Done([], s)
  }

  /** The ways in which outputs can be read. */
  lemma OutputsCases(tokens: seq<Token>, s: State)
    requires Live(tokens, s)
    ensures var r := ParseOutputs(tokens, s);
            if Kind(tokens, s) != ThinArrow then r == Done([], s)
            else r == ParseOutputList(tokens, Advance(tokens, s))
  {
    hide EndsInOnlyEndOfFile, NamesNotEmpty, SignatureStep, ParseOutputList;
  }

  /** What stands between a function's name and the statements of its body. */
  function ParseSignature(tokens: seq<Token>, s: State): (r: Result<(seq<Parameter>, seq<Output>)>)
    requires Live(tokens, s)
    ensures SignatureStep(tokens, s, r.state, r.Done?) && (r.Done? ==> s.pos < r.state.pos)
  {
    var (_, s1) :- Expect(tokens, s, LParen, ExpectParenAfterFunctionName);
    var (parameters, s2) :- ParseParameters(tokens, s1);
    var (outputs, s3) :- ParseOutputs(tokens, s2);
    var (_, s4) :- Expect(tokens, s3, LBrace, ExpectBraceBeforeFunctionBody);
    Done((parameters, outputs), s4)
  }

  /** The ways in which a signature can be read. */
  lemma SignatureCases(tokens: seq<Token>, s: State)
    requires Live(tokens, s)
    ensures var r, begin := ParseSignature(tokens, s), Expect(tokens, s, LParen, ExpectParenAfterFunctionName);
            if begin.Thrown? then r.Thrown? && r.state == begin.state
            else
              var parameters := ParseParameters(tokens, begin.state);
              if parameters.Thrown? then r.Thrown? && r.state == parameters.state
              else
                var outputs := ParseOutputs(tokens, parameters.state);
                if outputs.Thrown? then r.Thrown? && r.state == outputs.state
                else
                  var end := Expect(tokens, outputs.state, LBrace, ExpectBraceBeforeFunctionBody);
                  && r.state == end.state && r.Done? == end.Done?
                  && (r.Done? ==> r.value == (parameters.value, outputs.value))
  {
    hide EndsInOnlyEndOfFile, NamesNotEmpty, SignatureStep, ParseParameters, ParseOutputs, Expect;
  }

  function ParseAccess(tokens: seq<Token>, s: State): (r: (AccessModifier, State))
    requires Live(tokens, s)
    ensures Live(tokens, r.1) && r.1 == s.(pos := r.1.pos) && s.pos <= r.1.pos
  {
    if Kind(tokens, s) == KwPrivate then (Private, Advance(tokens, s))
    else if Kind(tokens, s) == KwPublic then (Public, Advance(tokens, s))
    else (NoModifier, s)
  }

  function ParseDefinition(tokens: seq<Token>, s: State): (r: Result<Definition>)
    requires Live(tokens, s)
    ensures if r.Done? then Live(tokens, r.state) && Accounts(s, r.state, 0, 0) && s.pos < r.state.pos
            else SignatureStep(tokens, s, r.state, r.Done?)
  {
    var (access, s1) := ParseAccess(tokens, s);
    var name := tokens[s1.pos];
    if name.kind == Identifier then
      var (signature, s2) :- ParseSignature(tokens, Advance(tokens, s1));
      var (statements, s3) := ParseBlock(tokens, s2);
      Done(Function(tokens[s.pos].offset, access, Name(name.offset, name.length),
                    signature.0, signature.1, statements), s3)
    else
      Thrown(ReportExpected(tokens, s1, ExpectFunctionStructOrEnum))
  }

  /** The ways in which a definition can be read. */
  lemma DefinitionCases(tokens: seq<Token>, s: State)
    requires Live(tokens, s)
    ensures var r := ParseDefinition(tokens, s);
            var access, s1 := ParseAccess(tokens, s).0, ParseAccess(tokens, s).1;
            var name := tokens[s1.pos];
            if name.kind != Identifier then
              r.Thrown? && r.state == ReportExpected(tokens, s1, ExpectFunctionStructOrEnum)
            else
              var signature := ParseSignature(tokens, Advance(tokens, s1));
              if signature.Thrown? then r.Thrown? && r.state == signature.state
              else
                var block := ParseBlock(tokens, signature.state);
                && r.Done? && r.state == block.1
                && r.value == Function(tokens[s.pos].offset, access, Name(name.offset, name.length),
                                       signature.value.0, signature.value.1, block.0)
  {
    hide EndsInOnlyEndOfFile, NamesNotEmpty, ParseSignature, ParseBlock, ParseAccess;
  }

  predicate IsRecoveryToken(kind: TokenKind) {
    kind in {KwPublic, KwPrivate, KwStruct, KwEnum, EndOfFile}
  }

  /** Always skips one token, whatever it is. */
  function RecoverAtDefinitionLevel(tokens: seq<Token>, s: State): (t: State)
    requires Live(tokens, s)
    ensures s.pos <= t.pos < |tokens| && t == s.(pos := t.pos)
    ensures Kind(tokens, s) != EndOfFile ==> s.pos < t.pos
    decreases |tokens| - s.pos
  {
    var s1 := Advance(tokens, s);
    if IsRecoveryToken(Kind(tokens, s1)) then s1 else RecoverAtDefinitionLevel(tokens, s1)
  }

  function ParseDefinitions(tokens: seq<Token>, s: State): (r: (seq<Definition>, State))
    requires Live(tokens, s)
    ensures r.1.pos == |tokens| - 1
    ensures s.caught <= r.1.caught <= s.caught + (r.1.pos - s.pos)
    ensures |s.reports| <= |r.1.reports| <= |s.reports| + (r.1.caught - s.caught)
    ensures NamesNotEmpty(tokens) ==> |r.1.reports| - |s.reports| == r.1.caught - s.caught
    decreases |tokens| - s.pos
  {
    if Kind(tokens, s) == EndOfFile then
      ([], s)
    else
      match ParseDefinition(tokens, s)
      case Done(d, s1) =>
        var (ds, s2) := ParseDefinitions(tokens, s1);
        ([d] + ds, s2)
      case Thrown(s1) =>
        ParseDefinitions(tokens, RecoverAtDefinitionLevel(tokens, s1.(caught := s1.caught + 1)))
  }

  lemma DefinitionsMove(tokens: seq<Token>, s: State)
    requires Live(tokens, s)
    ensures s.caught <= ParseDefinitions(tokens, s).1.caught
  {
    hide ParseDefinitions, EndsInOnlyEndOfFile, NamesNotEmpty;
  }

  /** The definitions go on behind one. */
  lemma DefinitionsGoOn(tokens: seq<Token>, s: State, d: Definition, s1: State)
    requires Live(tokens, s) && Kind(tokens, s) != EndOfFile && ParseDefinition(tokens, s) == Done(d, s1)
    ensures Live(tokens, s1) && s.pos < s1.pos && s.caught <= s1.caught
    ensures ParseDefinitions(tokens, s).0 == [d] + ParseDefinitions(tokens, s1).0
    ensures ParseDefinitions(tokens, s).1 == ParseDefinitions(tokens, s1).1
  {
    hide EndsInOnlyEndOfFile, NamesNotEmpty, ParseDefinition, RecoverAtDefinitionLevel;
  }

  /** The definitions go on behind an error. */
  lemma DefinitionsRecover(tokens: seq<Token>, s: State, s1: State)
    requires Live(tokens, s) && Kind(tokens, s) != EndOfFile && ParseDefinition(tokens, s) == Thrown(s1)
    ensures Live(tokens, s1)
    ensures var s2 := RecoverAtDefinitionLevel(tokens, s1.(caught := s1.caught + 1));
            && Live(tokens, s2) && s.pos < s2.pos && s.caught < s2.caught
            && ParseDefinitions(tokens, s) == ParseDefinitions(tokens, s2)
  {
    hide EndsInOnlyEndOfFile, NamesNotEmpty, ParseDefinition, RecoverAtDefinitionLevel;
  }

  const START := State(0, [], 0)

  /** The whole run: the definitions put into the tree, and the last state. */
  function Run(tokens: seq<Token>): (r: (seq<Definition>, State))
    requires EndsInOnlyEndOfFile(tokens)
    ensures r.1.pos == |tokens| - 1
    ensures |r.1.reports| <= r.1.caught <= |tokens| - 1
    ensures NamesNotEmpty(tokens) ==> |r.1.reports| == r.1.caught
  {
    ParseDefinitions(tokens, START)
  }
}
