/** Errors of the parser: each is about the token at which it arises, what was passed before it is the beginning of
    something that belongs there, and the message names a token that could stand there. */
module ParserErrors {
  import opened Tokens
  import opened Ast
  import opened Grammar
  import opened ParserSpec
  import opened ParserSoundness
  import opened ParserCompleteness
  import opened ParserPrograms

  /** A token of this kind could stand where the message is given. */
  function Wanted(message: Message): TokenKind {
    match message
    case ExpectSemicolon => Semicolon
    case ExpectClosingParenInCall | ExpectParenAfterParameters => RParen
    case ExpectParenAfterFunctionName => LParen
    case ExpectBraceBeforeFunctionBody => LBrace
    case _ => Identifier
  }

  /** Between the two states one report was made, about the token where the parser has stopped. */
  ghost predicate FailsAt(tokens: seq<Token>, s: State, t: State, message: Message) {
    && s.pos <= t.pos < |tokens| && t.caught == s.caught
    && t.reports == s.reports + [Report(message, tokens[t.pos])]
  }

  /** The tokens from `i` to `k` begin a spelling of the pieces, and the piece that comes next is of the kind. */
  ghost predicate GoesOnWith(pieces: seq<Piece>, tokens: seq<Token>, i: nat, k: nat, next: TokenKind) {
    i <= k && k - i < |pieces| && Spelled(pieces[..k - i], tokens, i) && pieces[k - i].kind == next
  }

  lemma GoesOnAfter(a: seq<Piece>, b: seq<Piece>, tokens: seq<Token>, i: nat, k: nat, next: TokenKind)
    requires Spelled(a, tokens, i) && GoesOnWith(b, tokens, i + |a|, k, next)
    ensures GoesOnWith(a + b, tokens, i, k, next)
  {
    var n := k - i;
    assert (a + b)[..n] == a + b[..n - |a|];
    SpelledConcat(a, b[..n - |a|], tokens, i);
  }

  lemma GoesOnBefore(a: seq<Piece>, b: seq<Piece>, tokens: seq<Token>, i: nat, k: nat, next: TokenKind)
    requires GoesOnWith(a, tokens, i, k, next)
    ensures GoesOnWith(a + b, tokens, i, k, next)
  {
    assert (a + b)[..k - i] == a[..k - i];
  }

  lemma FailsLater(tokens: seq<Token>, s: State, s1: State, t: State, message: Message)
    requires s1 == s.(pos := s1.pos) && s.pos <= s1.pos && FailsAt(tokens, s1, t, message)
    ensures FailsAt(tokens, s, t, message) && s1.pos <= t.pos < |tokens|
  {
  }

  lemma FailsKeeps(tokens: seq<Token>, s: State, t: State, message: Message)
    requires FailsAt(tokens, s, t, message)
    ensures t.caught == s.caught && s.pos <= t.pos < |tokens|
  {
  }

  lemma ExpectFails(tokens: seq<Token>, s: State, kind: TokenKind, message: Message)
    requires Live(tokens, s) && kind != EndOfFile && Kind(tokens, s) != kind
    ensures var r := Expect(tokens, s, kind, message);
            && r.Thrown? && r.state == ReportExpected(tokens, s, message)
            && r.state.pos == s.pos && FailsAt(tokens, s, r.state, message)
  {
    hide EndsInOnlyEndOfFile;
  }

  lemma GoesOnHere(piece: Piece, tokens: seq<Token>, i: nat)
    requires i <= |tokens|
    ensures GoesOnWith([piece], tokens, i, i, piece.kind)
  {
    assert [piece][..0] == [];
  }

  // ---------------------------------------------------------------- what was read without errors

  /** What was read without an error was read without a report. */
  lemma {:induction false} ExpressionReports(tokens: seq<Token>, s: State, p: Precedence)
    requires Live(tokens, s) && p <= PREFIX
    ensures var r := ParseExpression(tokens, s, p);
            r.Done? && r.state.caught == s.caught ==> r.state == Past(s, Print(r.value))
  {
    hide ParseExpression, EndsInOnlyEndOfFile, Shaped, Print, CanPrecede, Spelled, NextTailRule;
    ExpressionSound(tokens, s, p);
    var r := ParseExpression(tokens, s, p);
    if r.Done? && r.state.caught == s.caught {
      SameEnd(tokens, s, r.state, Print(r.value));
      ExpressionComplete(tokens, s, p, r.value);
    }
  }

  /** An expression that was read without an error, and a token behind it that does not go on with it. */
  lemma {:induction false} CleanExpression(tokens: seq<Token>, s: State)
    requires Live(tokens, s)
    requires var r := ParseExpression(tokens, s, STATEMENT); r.Done? && r.state.caught == s.caught
    ensures var r := ParseExpression(tokens, s, STATEMENT);
            && Live(tokens, r.state) && r.state == s.(pos := r.state.pos) && s.pos <= r.state.pos
            && Shaped(r.value) && SpelledBetween(Print(r.value), tokens, s, r.state)
            && CanPrecede(r.value, Kind(tokens, r.state)) && (StartsWithBlock(r.value) ==> Kind(tokens, s) == LBrace)
  {
    hide ParseExpression, EndsInOnlyEndOfFile, Shaped, Print, CanPrecede, Spelled, NextTailRule, StartsWithBlock,
         Accounts;
    ExpressionSound(tokens, s, STATEMENT);
    ExpressionMoves(tokens, s, STATEMENT);
    ExpressionReports(tokens, s, STATEMENT);
  }

  lemma SameEnd(tokens: seq<Token>, s: State, t: State, pieces: seq<Piece>)
    requires Live(tokens, s) && t.pos < |tokens| && SpelledBetween(pieces, tokens, s, t)
    ensures Ahead(pieces, tokens, s) && Past(s, pieces).pos == t.pos && Kind(tokens, Past(s, pieces)) == Kind(tokens, t)
    ensures ShiftAhead(tokens, Past(s, pieces)) == ShiftAhead(tokens, t)
    ensures NextTailRule(tokens, Past(s, pieces)) == NextTailRule(tokens, t)
  {
    hide EndsInOnlyEndOfFile, Spelled, LookupTailRule;
  }

  lemma {:induction false} ListReports(tokens: seq<Token>, s: State)
    requires Live(tokens, s)
    ensures var r := ParseList(tokens, s);
            r.Done? && r.state.caught == s.caught ==> r.state == Past(s, PrintList(r.value))
  {
    hide ParseList, EndsInOnlyEndOfFile, ShapedList, PrintList, CanPrecede, Spelled, NextTailRule, HeadRule,
         LookupTailRule;
    ListSound(tokens, s);
    var r := ParseList(tokens, s);
    if r.Done? && r.state.caught == s.caught {
      SameEnd(tokens, s, r.state, PrintList(r.value));
      ListComplete(tokens, s, r.value);
    }
  }

  lemma {:induction false} BlockReports(tokens: seq<Token>, s: State)
    requires Live(tokens, s)
    ensures var r := ParseBlock(tokens, s);
            r.1.caught == s.caught ==> r.1 == Past(s, PrintBlock(r.0))
  {
    hide ParseBlock, EndsInOnlyEndOfFile, ShapedBlock, PrintBlock, Spelled;
    BlockSound(tokens, s);
    var r := ParseBlock(tokens, s);
    if r.1.caught == s.caught {
      SameEnd(tokens, s, r.1, PrintBlock(r.0));
      BlockComplete(tokens, s, r.0);
    }
  }

  /** Heads that are no `return` and no prefix operator always succeed. */
  lemma PlainHeads(tokens: seq<Token>, s: State)
    requires Live(tokens, s)
    requires var head := HeadRule(Kind(tokens, s)); head.IdentHead? || head.LiteralHead?
    ensures ParseHead(tokens, s).Done? && ParseHead(tokens, s).state == Advance(tokens, s)
  {
    hide HeadRule, EndsInOnlyEndOfFile, Accounts;
  }

  lemma {:induction false} HeadReports(tokens: seq<Token>, s: State)
    requires Live(tokens, s) && IsHead(Kind(tokens, s))
    ensures var r := ParseHead(tokens, s);
            r.Done? && r.state.caught == s.caught ==> r.state.reports == s.reports
  {
    hide ParseHead, ParseExpression, ParseList, ParseBlock, HeadRule, EndsInOnlyEndOfFile, Print, PrintList, PrintBlock,
         Accounts;
    var s1 := Advance(tokens, s);
    match HeadRule(Kind(tokens, s))
    case BlockHead =>
      BlockHeadCases(tokens, s);
      BlockReports(tokens, s1);
    case ReturnHead =>
      ReturnCases(tokens, s);
      ListReports(tokens, s1);
    case PrefixHead(op) =>
      PrefixCases(tokens, s, op);
      ExpressionReports(tokens, s1, PREFIX);
    case _ => PlainHeads(tokens, s);
  }

  lemma PostfixCases(tokens: seq<Token>, s: State, op: UnaryOperator, e: Expr)
    requires Live(tokens, s) && NextTailRule(tokens, s).tail == PostfixTail(op)
    ensures ParseTail(tokens, s, PostfixTail(op), e) == Done(Unary(e.offset, op, e), Advance(tokens, s))
  {
    hide LookupTailRule, EndsInOnlyEndOfFile, ShiftAhead, Accounts;
  }

  lemma {:induction false} TailReports(tokens: seq<Token>, s: State, e: Expr)
    requires Live(tokens, s) && NextTailRule(tokens, s).tail != NoTail
    ensures var r := ParseTail(tokens, s, NextTailRule(tokens, s).tail, e);
            r.Done? && r.state.caught == s.caught ==> r.state.reports == s.reports
  {
    hide ParseTail, ParseExpression, ParseList, NextTailRule, EndsInOnlyEndOfFile, Print, PrintList, Accounts;
    match NextTailRule(tokens, s).tail
    case InfixTail(op) =>
      InfixCases(tokens, s, op, e);
      OperatorLevelFits(op);
      ExpressionReports(tokens, OperatorEnd(tokens, s, op), AssociativityPrecedence(op));
    case PostfixTail(op) => PostfixCases(tokens, s, op, e);
    case CallTail =>
      CallCases(tokens, s, e);
      ListReports(tokens, Advance(tokens, s));
  }

  lemma OperatorLevelFits(op: BinaryOperator)
    ensures AssociativityPrecedence(op) < PREFIX
  {
  }

  // ---------------------------------------------------------------- failures of expressions

  /** A tree whose spelling begins with the tokens from `s` on and goes on where the parser has stopped. */
  ghost predicate CouldBe(e: Expr, tokens: seq<Token>, s: State, t: State, message: Message) {
    && FailsAt(tokens, s, t, message) && Shaped(e)
    && GoesOnWith(Print(e), tokens, s.pos, t.pos, Wanted(message))
    && (StartsWithBlock(e) ==> Kind(tokens, s) == LBrace)
  }

  ghost predicate CouldBeList(es: seq<Expr>, tokens: seq<Token>, s: State, t: State, message: Message) {
    && FailsAt(tokens, s, t, message) && es != [] && ShapedList(es)
    && GoesOnWith(PrintList(es), tokens, s.pos, t.pos, Wanted(message))
  }

  /** Where an expression fails, some expression could have gone on. */
  lemma {:induction false} ExpressionFails(tokens: seq<Token>, s: State, p: Precedence)
    returns (e: Expr, message: Message)
    requires Live(tokens, s) && p <= PREFIX
    requires var r := ParseExpression(tokens, s, p); r.Thrown? && r.state.caught == s.caught
    ensures CouldBe(e, tokens, s, ParseExpression(tokens, s, p).state, message) && Above(e, p)
    decreases |tokens| - s.pos, 4
  {
    hide ParseExpression, ParseHead, ParseTails, HeadRule, LookupTailRule, EndsInOnlyEndOfFile, ShiftAhead, Shaped,
         Print, Spelled, GoesOnWith, CanPrecede, StartsWithBlock, Accounts;
    ExpressionCases(tokens, s, p);
    if !IsHead(Kind(tokens, s)) {
      e, message := Ident(0, 0), ExpectExpression;
      NameGoesOn(tokens, s);
    } else {
      var head := ParseHead(tokens, s);
      if head.Thrown? {
        e, message := HeadFails(tokens, s);
      } else {
        HeadMoves(tokens, s);
        TailsMove(tokens, head.state, p, head.value);
        HeadSound(tokens, s);
        HeadReports(tokens, s);
        e, message := TailsFails(tokens, s, head.state, p, head.value);
      }
    }
  }

  lemma NameGoesOn(tokens: seq<Token>, s: State)
    requires s.pos < |tokens|
    ensures CouldBe(Ident(0, 0), tokens, s, ReportExpected(tokens, s, ExpectExpression), ExpectExpression)
  {
    hide Spelled;
    GoesOnHere(Text(Identifier, 0, 0), tokens, s.pos);
    assert Print(Ident(0, 0)) == [Text(Identifier, 0, 0)];
  }

  lemma HeadMoves(tokens: seq<Token>, s: State)
    requires Live(tokens, s) && IsHead(Kind(tokens, s))
    ensures var t := ParseHead(tokens, s).state;
            Live(tokens, t) && s.pos < t.pos && s.caught <= t.caught
  {
    hide ParseHead, EndsInOnlyEndOfFile, HeadRule;
  }

  lemma TailsMove(tokens: seq<Token>, s: State, p: Precedence, e: Expr)
    requires Live(tokens, s)
    ensures var t := ParseTails(tokens, s, p, e).state;
            Live(tokens, t) && s.pos <= t.pos && s.caught <= t.caught
  {
    hide ParseTails, EndsInOnlyEndOfFile;
  }

  lemma TailMoves(tokens: seq<Token>, s: State, e: Expr)
    requires Live(tokens, s) && NextTailRule(tokens, s).tail != NoTail
    ensures var t := ParseTail(tokens, s, NextTailRule(tokens, s).tail, e).state;
            Live(tokens, t) && s.pos < t.pos && s.caught <= t.caught
  {
    hide ParseTail, EndsInOnlyEndOfFile, NextTailRule;
  }

  lemma {:induction false} HeadFails(tokens: seq<Token>, s: State) returns (e: Expr, message: Message)
    requires Live(tokens, s) && IsHead(Kind(tokens, s))
    requires var r := ParseHead(tokens, s); r.Thrown? && r.state.caught == s.caught
    ensures CouldBe(e, tokens, s, ParseHead(tokens, s).state, message) && !e.Binary?
    decreases |tokens| - s.pos, 3
  {
    hide ParseHead, ParseExpression, ParseList, ParseBlock, HeadRule, LookupTailRule, EndsInOnlyEndOfFile, Spelled,
         GoesOnWith, CanPrecede, Print, PrintList, Accounts, UnaryToken;
    var s1 := Advance(tokens, s);
    var offset := tokens[s.pos].offset;
    HeadPrintsBack(Kind(tokens, s));
    match HeadRule(Kind(tokens, s))
    case BlockHead =>
      BlockHeadCases(tokens, s);
      assert false;
    case ReturnHead =>
      ReturnCases(tokens, s);
      var es: seq<Expr>;
      es, message := ListFails(tokens, s1);
      e := Return(offset, es);
      ReturnGoesOn(tokens, s, es, ParseHead(tokens, s).state.pos, Wanted(message));
    case PrefixHead(op) =>
      PrefixCases(tokens, s, op);
      var operand: Expr;
      operand, message := ExpressionFails(tokens, s1, PREFIX);
      e := Unary(offset, op, operand);
      LevelBelowPrefix(operand);
      PrefixGoesOn(tokens, s, op, operand, ParseHead(tokens, s).state.pos, Wanted(message));
    case _ =>
      PlainHeads(tokens, s);
      assert false;
  }

  lemma ReturnGoesOn(tokens: seq<Token>, s: State, es: seq<Expr>, k: nat, next: TokenKind)
    requires s.pos < |tokens| && Kind(tokens, s) == KwReturn && GoesOnWith(PrintList(es), tokens, s.pos + 1, k, next)
    ensures GoesOnWith(Print(Return(tokens[s.pos].offset, es)), tokens, s.pos, k, next)
  {
    hide GoesOnWith, PrintList;
    var piece := MarkAt(KwReturn, tokens[s.pos].offset);
    One(piece, tokens, s, s.(pos := s.pos + 1));
    GoesOnAfter([piece], PrintList(es), tokens, s.pos, k, next);
  }

  lemma PrefixGoesOn(tokens: seq<Token>, s: State, op: UnaryOperator, operand: Expr, k: nat, next: TokenKind)
    requires s.pos < |tokens| && Kind(tokens, s) == UnaryToken(op) && IsPrefixOperator(op)
    requires GoesOnWith(Print(operand), tokens, s.pos + 1, k, next)
    ensures GoesOnWith(Print(Unary(tokens[s.pos].offset, op, operand)), tokens, s.pos, k, next)
  {
    hide GoesOnWith, UnaryToken;
    var piece := MarkAt(UnaryToken(op), tokens[s.pos].offset);
    One(piece, tokens, s, s.(pos := s.pos + 1));
    GoesOnAfter([piece], Print(operand), tokens, s.pos, k, next);
  }

  /** The loop over tail functions: `e` was read from `s0` to `s` without an error. */
  lemma {:induction false} TailsFails(tokens: seq<Token>, s0: State, s: State, p: Precedence, e: Expr)
    returns (f: Expr, message: Message)
    requires Live(tokens, s) && s0.pos <= s.pos && s0.caught == s.caught && s0.reports == s.reports && p <= PREFIX
    requires Reads(tokens, s0, e, s) && Above(e, p) && Settled(e, NextTailRule(tokens, s).precedence)
    requires var r := ParseTails(tokens, s, p, e); r.Thrown? && r.state.caught == s.caught
    ensures CouldBe(f, tokens, s0, ParseTails(tokens, s, p, e).state, message) && Above(f, p)
    decreases |tokens| - s.pos, 3
  {
    hide ParseTail, ParseTails, LookupTailRule, EndsInOnlyEndOfFile, ShiftAhead, Reads, CouldBe, Settled, Accounts;
    TailsCases(tokens, s, p, e);
    var tail := NextTailRule(tokens, s).tail;
    var r := ParseTail(tokens, s, tail, e);
    TablesAgree(Kind(tokens, s), ShiftAhead(tokens, s));
    if r.Thrown? {
      f, message := TailFails(tokens, s0, s, e);
    } else {
      TailMoves(tokens, s, e);
      TailsMove(tokens, r.state, p, r.value);
      TailSound(tokens, s0, s, e);
      TailReports(tokens, s, e);
      f, message := TailsFails(tokens, s0, r.state, p, r.value);
    }
  }

  lemma {:induction false} TailFails(tokens: seq<Token>, s0: State, s: State, e: Expr)
    returns (f: Expr, message: Message)
    requires Live(tokens, s) && s0.pos <= s.pos && s0.caught == s.caught && s0.reports == s.reports
    requires Reads(tokens, s0, e, s) && Settled(e, NextTailRule(tokens, s).precedence)
    requires NextTailRule(tokens, s).tail != NoTail
    requires var r := ParseTail(tokens, s, NextTailRule(tokens, s).tail, e); r.Thrown? && r.state.caught == s.caught
    ensures CouldBe(f, tokens, s0, ParseTail(tokens, s, NextTailRule(tokens, s).tail, e).state, message)
    ensures f.Binary? ==> AssociativityPrecedence(f.op) == NextTailRule(tokens, s).precedence
    decreases |tokens| - s.pos, 2
  {
    hide ParseTail, LookupTailRule, EndsInOnlyEndOfFile, ShiftAhead, Reads, CouldBe, Settled, Accounts;
    TablesAgree(Kind(tokens, s), ShiftAhead(tokens, s));
    match NextTailRule(tokens, s).tail
    case InfixTail(op) => f, message := InfixFails(tokens, s0, s, op, e);
    case PostfixTail(op) =>
      PostfixCases(tokens, s, op, e);
      assert false;
    case CallTail => f, message := CallFails(tokens, s0, s, e);
  }

  lemma {:induction false} InfixFails(tokens: seq<Token>, s0: State, s: State, op: BinaryOperator, e: Expr)
    returns (f: Expr, message: Message)
    requires Live(tokens, s) && s0.pos <= s.pos && s0.caught == s.caught && s0.reports == s.reports
    requires Reads(tokens, s0, e, s) && Settled(e, NextTailRule(tokens, s).precedence)
    requires NextTailRule(tokens, s).tail == InfixTail(op)
    requires var r := ParseTail(tokens, s, InfixTail(op), e); r.Thrown? && r.state.caught == s.caught
    ensures CouldBe(f, tokens, s0, ParseTail(tokens, s, InfixTail(op), e).state, message) && f.Binary? && f.op == op
    decreases |tokens| - s.pos, 1
  {
    hide ParseTail, ParseExpression, LookupTailRule, EndsInOnlyEndOfFile, ShiftAhead, Spelled, GoesOnWith, Shaped,
         Print, CanPrecede, Accounts, BinaryToken, PrintOperator, OperatorEnd, StartsWithBlock, AssociativityPrecedence;
    TablesAgree(Kind(tokens, s), ShiftAhead(tokens, s));
    InfixCases(tokens, s, op, e);
    OperatorSound(tokens, s, op);
    var s2 := OperatorEnd(tokens, s, op);
    var right: Expr;
    right, message := ExpressionFails(tokens, s2, AssociativityPrecedence(op));
    f := Binary(e.offset, op, e, right);
    BinaryFits(op, e, right);
    BinaryGoesOn(tokens, s0, s, s2, op, e, right, ParseTail(tokens, s, InfixTail(op), e).state.pos, Wanted(message));
  }

  lemma BinaryFits(op: BinaryOperator, left: Expr, right: Expr)
    requires Shaped(left) && Shaped(right) && CanPrecede(left, BinaryToken(op))
    requires Settled(left, AssociativityPrecedence(op)) && Above(right, AssociativityPrecedence(op))
    ensures Shaped(Binary(left.offset, op, left, right))
    ensures StartsWithBlock(Binary(left.offset, op, left, right)) == StartsWithBlock(left)
  {
    hide BinaryToken, AssociativityPrecedence, CanPrecede;
  }

  lemma BinaryGoesOn(tokens: seq<Token>, s0: State, s: State, s2: State, op: BinaryOperator, left: Expr, right: Expr,
                     k: nat, next: TokenKind)
    requires s0.pos < |tokens| && s.pos < |tokens| && s2.pos < |tokens|
    requires SpelledBetween(Print(left), tokens, s0, s) && SpelledBetween(PrintOperator(op), tokens, s, s2)
    requires GoesOnWith(Print(right), tokens, s2.pos, k, next)
    ensures GoesOnWith(Print(Binary(left.offset, op, left, right)), tokens, s0.pos, k, next)
  {
    hide GoesOnWith, PrintOperator, Spelled;
    GoesOnAfter(PrintOperator(op), Print(right), tokens, s.pos, k, next);
    GoesOnAfter(Print(left), PrintOperator(op) + Print(right), tokens, s0.pos, k, next);
  }

  lemma {:induction false} CallFails(tokens: seq<Token>, s0: State, s: State, e: Expr)
    returns (f: Expr, message: Message)
    requires Live(tokens, s) && s0.pos <= s.pos && s0.caught == s.caught && s0.reports == s.reports
    requires Reads(tokens, s0, e, s) && Settled(e, NextTailRule(tokens, s).precedence)
    requires NextTailRule(tokens, s).tail == CallTail
    requires var r := ParseTail(tokens, s, CallTail, e); r.Thrown? && r.state.caught == s.caught
    ensures CouldBe(f, tokens, s0, ParseTail(tokens, s, CallTail, e).state, message) && f.Call?
    decreases |tokens| - s.pos, 1
  {
    hide ParseTail, ParseList, LookupTailRule, EndsInOnlyEndOfFile, ShiftAhead, Spelled, GoesOnWith, Shaped, Print,
         CanPrecede, Accounts, PrintList, ShapedList, StartsWithBlock, IsTarget, Settled, FailsAt, Expect;
    CalleeIsTarget(tokens, s, e);
    CallCases(tokens, s, e);
    var s1 := Advance(tokens, s);
    var k := ParseTail(tokens, s, CallTail, e).state.pos;
    var list := ParseList(tokens, s1);
    var args: seq<Expr>;
    if list.Thrown? {
      args, message := ListFails(tokens, s1);
      GoesOnBefore(PrintList(args), [Mark(RParen)], tokens, s1.pos, k, Wanted(message));
    } else {
      args, message := list.value, ExpectClosingParenInCall;
      ListMoves(tokens, s1);
      ClosingFails(tokens, s1);
    }
    f := Call(e.offset, e, args);
    FailsLater(tokens, s, s1, ParseTail(tokens, s, CallTail, e).state, message);
    FailsLater(tokens, s0, s, ParseTail(tokens, s, CallTail, e).state, message);
    CallFits(e, args);
    CallGoesOn(tokens, s0, s, e, args, k, Wanted(message));
  }

  /** Arguments were read, and no closing parenthesis follows. */
  lemma {:induction false} ClosingFails(tokens: seq<Token>, s: State)
    requires Live(tokens, s)
    requires var list := ParseList(tokens, s);
             list.Done? && list.state.caught == s.caught && Kind(tokens, list.state) != RParen
    ensures var list := ParseList(tokens, s);
            var closing := Expect(tokens, list.state, RParen, ExpectClosingParenInCall);
            && FailsAt(tokens, s, closing.state, ExpectClosingParenInCall) && ShapedList(list.value)
            && GoesOnWith(PrintList(list.value) + [Mark(RParen)], tokens, s.pos, closing.state.pos, RParen)
  {
    hide ParseList, EndsInOnlyEndOfFile, Spelled, GoesOnWith, CanPrecede, Accounts, PrintList, ShapedList, Expect;
    ListMoves(tokens, s);
    ListSound(tokens, s);
    ListReports(tokens, s);
    var list := ParseList(tokens, s);
    var t := list.state;
    ExpectFails(tokens, t, RParen, ExpectClosingParenInCall);
    FailsLater(tokens, s, t, Expect(tokens, t, RParen, ExpectClosingParenInCall).state, ExpectClosingParenInCall);
    GoesOnHere(Mark(RParen), tokens, t.pos);
    GoesOnAfter(PrintList(list.value), [Mark(RParen)], tokens, s.pos, t.pos, RParen);
  }

  lemma CallFits(callee: Expr, args: seq<Expr>)
    requires Shaped(callee) && IsTarget(callee) && CanPrecede(callee, LParen) && ShapedList(args)
    ensures Shaped(Call(callee.offset, callee, args))
    ensures StartsWithBlock(Call(callee.offset, callee, args)) == StartsWithBlock(callee)
  {
    hide CanPrecede, ShapedList, IsTarget;
  }

  lemma CallGoesOn(tokens: seq<Token>, s0: State, s: State, callee: Expr, args: seq<Expr>, k: nat, next: TokenKind)
    requires s0.pos < |tokens| && s.pos < |tokens| && Kind(tokens, s) == LParen
             && SpelledBetween(Print(callee), tokens, s0, s)
    requires GoesOnWith(PrintList(args) + [Mark(RParen)], tokens, s.pos + 1, k, next)
    ensures GoesOnWith(Print(Call(callee.offset, callee, args)), tokens, s0.pos, k, next)
  {
    hide GoesOnWith, PrintList, Spelled;
    One(Mark(LParen), tokens, s, s.(pos := s.pos + 1));
    GoesOnAfter([Mark(LParen)], PrintList(args) + [Mark(RParen)], tokens, s.pos, k, next);
    GoesOnAfter(Print(callee), [Mark(LParen)] + (PrintList(args) + [Mark(RParen)]), tokens, s0.pos, k, next);
  }

  lemma {:induction false} ListFails(tokens: seq<Token>, s: State) returns (es: seq<Expr>, message: Message)
    requires Live(tokens, s)
    requires var r := ParseList(tokens, s); r.Thrown? && r.state.caught == s.caught
    ensures CouldBeList(es, tokens, s, ParseList(tokens, s).state, message)
    decreases |tokens| - s.pos, 5
  {
    hide ParseList, ParseExpression, EndsInOnlyEndOfFile, GoesOnWith, Shaped, Print, CanPrecede, Accounts,
         StartsWithBlock, FailsAt, SpelledBetween;
    ListCases(tokens, s);
    var first := ParseExpression(tokens, s, STATEMENT);
    var t := ParseList(tokens, s).state;
    if first.Thrown? {
      var e: Expr;
      e, message := ExpressionFails(tokens, s, STATEMENT);
      es := [e];
      assert PrintList(es) == Print(e) && ShapedList(es);
    } else {
      ExpressionMoves(tokens, s, STATEMENT);
      var e, s1 := first.value, first.state;
      var s2 := Advance(tokens, s1);
      ListMoves(tokens, s2);
      CleanExpression(tokens, s);
      var rest: seq<Expr>;
      rest, message := ListFails(tokens, s2);
      es := [e] + rest;
      assert es[1..] == rest;
      assert ShapedList(es);
      hide PrintList;
      FailsLater(tokens, s, s2, t, message);
      ListGoesOn(tokens, s, s1, e, rest, t.pos, Wanted(message));
    }
  }

  lemma ListGoesOn(tokens: seq<Token>, s: State, s1: State, e: Expr, rest: seq<Expr>, k: nat, next: TokenKind)
    requires s.pos < |tokens| && s1.pos < |tokens| && Kind(tokens, s1) == Comma
             && SpelledBetween(Print(e), tokens, s, s1)
    requires rest != [] && GoesOnWith(PrintList(rest), tokens, s1.pos + 1, k, next)
    ensures GoesOnWith(PrintList([e] + rest), tokens, s.pos, k, next)
  {
    hide GoesOnWith, Spelled, Print;
    One(Mark(Comma), tokens, s1, s1.(pos := s1.pos + 1));
    GoesOnAfter([Mark(Comma)], PrintList(rest), tokens, s1.pos, k, next);
    GoesOnAfter(Print(e), [Mark(Comma)] + PrintList(rest), tokens, s.pos, k, next);
    assert ([e] + rest)[1..] == rest;
  }

  // ---------------------------------------------------------------- failures of statements

  /** An error that ends a statement, and is the first in it, is about the token where the statement stops, and with
      another token there some statement could have gone on. */
  lemma {:induction false} StatementFails(tokens: seq<Token>, s: State) returns (e: Expr, message: Message)
    requires Live(tokens, s)
    requires var r := ParseStatement(tokens, s); r.Thrown? && r.state.caught == s.caught
    ensures FailsAt(tokens, s, ParseStatement(tokens, s).state, message)
    ensures Shaped(e) && !StartsWithBlock(e) && !e.Block?
    ensures GoesOnWith(PrintStatement(e), tokens, s.pos, ParseStatement(tokens, s).state.pos, Wanted(message))
  {
    hide ParseStatement, ParseExpression, ParseHead, ParseBlock, HeadRule, LookupTailRule, EndsInOnlyEndOfFile,
         ShiftAhead, Spelled, GoesOnWith, Shaped, Print, CanPrecede, Accounts;
    if Kind(tokens, s) == LBrace {
      BracesAndEnds();
      BlockStatementIsHead(tokens, s);
      BlockHeadCases(tokens, s);
      assert false;
    } else {
      StatementCases(tokens, s);
      var r := ParseExpression(tokens, s, STATEMENT);
      var k := ParseStatement(tokens, s).state.pos;
      if r.Thrown? {
        e, message := ExpressionFails(tokens, s, STATEMENT);
        GoesOnBefore(Print(e), [Mark(Semicolon)], tokens, s.pos, k, Wanted(message));
      } else {
        e, message := r.value, ExpectSemicolon;
        SemicolonFails(tokens, s);
      }
    }
  }

  /** An expression was read, and no semicolon follows. */
  lemma {:induction false} SemicolonFails(tokens: seq<Token>, s: State)
    requires Live(tokens, s) && Kind(tokens, s) != LBrace && ParseExpression(tokens, s, STATEMENT).Done?
    requires var r := ParseStatement(tokens, s); r.Thrown? && r.state.caught == s.caught
    ensures var e, k := ParseExpression(tokens, s, STATEMENT).value, ParseStatement(tokens, s).state.pos;
            && FailsAt(tokens, s, ParseStatement(tokens, s).state, ExpectSemicolon) && Shaped(e) && !StartsWithBlock(e)
            && GoesOnWith(Print(e) + [Mark(Semicolon)], tokens, s.pos, k, Semicolon)
  {
    hide ParseStatement, ParseExpression, EndsInOnlyEndOfFile, GoesOnWith, Shaped, Print, CanPrecede, Accounts, Expect,
         StartsWithBlock, FailsAt, Spelled;
    StatementCases(tokens, s);
    ExpressionMoves(tokens, s, STATEMENT);
    var e, t := ParseExpression(tokens, s, STATEMENT).value, ParseExpression(tokens, s, STATEMENT).state;
    ExpectFails(tokens, t, Semicolon, ExpectSemicolon);
    FailsKeeps(tokens, t, ParseStatement(tokens, s).state, ExpectSemicolon);
    CleanExpression(tokens, s);
    FailsLater(tokens, s, t, ParseStatement(tokens, s).state, ExpectSemicolon);
    GoesOnHere(Mark(Semicolon), tokens, t.pos);
    GoesOnAfter(Print(e), [Mark(Semicolon)], tokens, s.pos, t.pos, Semicolon);
  }

  // ---------------------------------------------------------------- failures of definitions

  /** A type is missing at the beginning of a parameter, and a name behind its type. */
  function ParameterMessage(tokens: seq<Token>, i: nat, k: nat): Message
    requires i <= k <= |tokens|
  {
    if k == i || tokens[k - 1].kind == Comma then ExpectParameterType
    else if k == i + 1 || tokens[k - 2].kind == Comma then ExpectParameterName
    else ExpectParenAfterParameters
  }

  lemma {:induction false} ParameterFails(tokens: seq<Token>, s: State) returns (p: Parameter, message: Message)
    requires Live(tokens, s)
    requires var r := ParseParameter(tokens, s); r.Thrown? && r.state.reports != s.reports
    ensures FailsAt(tokens, s, ParseParameter(tokens, s).state, message) && ShapedParameter(p)
    ensures var k := ParseParameter(tokens, s).state.pos;
            GoesOnWith(Print(p.typ) + PrintName(p.name), tokens, s.pos, k, Wanted(message))
    ensures message == ParameterMessage(tokens, s.pos, ParseParameter(tokens, s).state.pos)
  {
    hide EndsInOnlyEndOfFile, NamesNotEmpty, SignatureStep, GoesOnWith, Spelled;
    if Kind(tokens, s) != Identifier {
      p, message := Parameter(0, Ident(0, 0), Name(0, 1)), ExpectParameterType;
      TypeGoesOn(tokens, s.pos, p);
    } else {
      var t := tokens[s.pos];
      p, message := Parameter(t.offset, Ident(t.offset, t.length), Name(0, 1)), ExpectParameterName;
      NameBehindTypeGoesOn(tokens, s, p);
    }
  }

  lemma TypeGoesOn(tokens: seq<Token>, i: nat, p: Parameter)
    requires i <= |tokens| && p.typ.Ident?
    ensures GoesOnWith(Print(p.typ) + PrintName(p.name), tokens, i, i, Identifier)
  {
    hide GoesOnWith;
    var piece := Text(Identifier, p.typ.offset, p.typ.length);
    GoesOnHere(piece, tokens, i);
    GoesOnBefore([piece], PrintName(p.name), tokens, i, i, Identifier);
  }

  lemma NameBehindTypeGoesOn(tokens: seq<Token>, s: State, p: Parameter)
    requires s.pos < |tokens| && Kind(tokens, s) == Identifier
    requires p.typ == Ident(tokens[s.pos].offset, tokens[s.pos].length)
    ensures GoesOnWith(Print(p.typ) + PrintName(p.name), tokens, s.pos, s.pos + 1, Identifier)
  {
    hide GoesOnWith, Spelled;
    var typ := Text(Identifier, p.typ.offset, p.typ.length);
    One(typ, tokens, s, s.(pos := s.pos + 1));
    GoesOnHere(Text(Identifier, p.name.offset, p.name.length), tokens, s.pos + 1);
    GoesOnAfter([typ], PrintName(p.name), tokens, s.pos, s.pos + 1, Identifier);
  }

  lemma OneParameter(p: Parameter)
    requires ShapedParameter(p)
    ensures ShapedParameters([p]) && PrintParameters([p]) == Print(p.typ) + PrintName(p.name)
  {
    hide ShapedParameter, Print, PrintName;
  }

  lemma MoreParameters(p: Parameter, rest: seq<Parameter>)
    requires ShapedParameter(p) && ShapedParameters(rest)
    ensures ShapedParameters([p] + rest)
  {
    hide ShapedParameter;
  }

  lemma MessageBehindComma(tokens: seq<Token>, i: nat, j: nat, k: nat)
    requires i < j <= k <= |tokens| && tokens[j - 1].kind == Comma
    ensures ParameterMessage(tokens, i, k) == ParameterMessage(tokens, j, k)
  {
  }

  lemma {:induction false} ParameterListFails(tokens: seq<Token>, s: State)
    returns (ps: seq<Parameter>, message: Message)
    requires Live(tokens, s)
    requires var r := ParseParameterList(tokens, s); r.Thrown? && r.state.reports != s.reports
    ensures FailsAt(tokens, s, ParseParameterList(tokens, s).state, message) && ps != [] && ShapedParameters(ps)
    ensures GoesOnWith(PrintParameters(ps), tokens, s.pos, ParseParameterList(tokens, s).state.pos, Wanted(message))
    ensures message == ParameterMessage(tokens, s.pos, ParseParameterList(tokens, s).state.pos)
    decreases |tokens| - s.pos
  {
    hide EndsInOnlyEndOfFile, NamesNotEmpty, SignatureStep, GoesOnWith, Spelled, SpelledBetween, ParseParameter,
         ParseParameterList, ShapedParameter, ShapedParameters, Print, PrintName, PrintParameters, ParameterMessage,
         FailsAt;
    ParameterListCases(tokens, s);
    var first := ParseParameter(tokens, s);
    var k := ParseParameterList(tokens, s).state.pos;
    if first.Thrown? {
      var p: Parameter;
      p, message := ParameterFails(tokens, s);
      ps := [p];
      OneParameter(p);
    } else {
      var p, s1 := first.value, first.state;
      var s2 := Advance(tokens, s1);
      ParameterSound(tokens, s);
      var rest: seq<Parameter>;
      ParameterKeepsReports(tokens, s);
      rest, message := ParameterListFails(tokens, s2);
      FailsLater(tokens, s, s2, ParseParameterList(tokens, s).state, message);
      ps := [p] + rest;
      MoreParameters(p, rest);
      ParametersGoOn(tokens, s, s1, p, rest, k, Wanted(message));
      MessageBehindComma(tokens, s.pos, s2.pos, k);
    }
  }

  lemma ParameterKeepsReports(tokens: seq<Token>, s: State)
    requires Live(tokens, s)
    ensures var r := ParseParameter(tokens, s);
            r.Done? ==> Live(tokens, r.state) && r.state == s.(pos := r.state.pos) && s.pos <= r.state.pos
  {
    hide EndsInOnlyEndOfFile, NamesNotEmpty, ParseParameter;
  }

  lemma {:induction false} ParameterSound(tokens: seq<Token>, s: State)
    requires Live(tokens, s)
    ensures var r := ParseParameter(tokens, s);
            r.Done? ==>
              ShapedParameter(r.value) && SpelledBetween(Print(r.value.typ) + PrintName(r.value.name), tokens, s, r.state)
  {
    hide EndsInOnlyEndOfFile, NamesNotEmpty, SignatureStep, Spelled;
    var r := ParseParameter(tokens, s);
    if r.Done? {
      var p, s1 := r.value, Advance(tokens, s);
      var typ, name := Text(Identifier, p.typ.offset, p.typ.length), Text(Identifier, p.name.offset, p.name.length);
      One(typ, tokens, s, s1);
      One(name, tokens, s1, r.state);
      Join([typ], [name], tokens, s, s1, r.state);
    }
  }

  lemma ParametersGoOn(tokens: seq<Token>, s: State, s1: State, p: Parameter, rest: seq<Parameter>, k: nat,
                       next: TokenKind)
    requires s.pos < |tokens| && s1.pos < |tokens| && Kind(tokens, s1) == Comma
    requires SpelledBetween(Print(p.typ) + PrintName(p.name), tokens, s, s1)
    requires rest != [] && GoesOnWith(PrintParameters(rest), tokens, s1.pos + 1, k, next)
    ensures GoesOnWith(PrintParameters([p] + rest), tokens, s.pos, k, next)
  {
    hide GoesOnWith, Spelled, Print, PrintName;
    One(Mark(Comma), tokens, s1, s1.(pos := s1.pos + 1));
    GoesOnAfter([Mark(Comma)], PrintParameters(rest), tokens, s1.pos, k, next);
    GoesOnAfter(Print(p.typ) + PrintName(p.name), [Mark(Comma)] + PrintParameters(rest), tokens, s.pos, k, next);
    assert ([p] + rest)[1..] == rest;
    assert Print(p.typ) + PrintName(p.name) + ([Mark(Comma)] + PrintParameters(rest))
        == Print(p.typ) + (PrintName(p.name) + ([Mark(Comma)] + PrintParameters(rest)));
  }

  lemma {:induction false} ParametersFail(tokens: seq<Token>, s: State) returns (ps: seq<Parameter>, message: Message)
    requires Live(tokens, s)
    requires var r := ParseParameters(tokens, s); r.Thrown? && r.state.reports != s.reports
    ensures FailsAt(tokens, s, ParseParameters(tokens, s).state, message) && ShapedParameters(ps)
    ensures var k := ParseParameters(tokens, s).state.pos;
            GoesOnWith(PrintParameters(ps) + [Mark(RParen)], tokens, s.pos, k, Wanted(message))
    ensures message == ParameterMessage(tokens, s.pos, ParseParameters(tokens, s).state.pos)
  {
    hide EndsInOnlyEndOfFile, NamesNotEmpty, GoesOnWith, Spelled, ParseParameters, ParseParameterList, PrintParameters,
         ShapedParameters;
    ParametersEndInNames(tokens, s);
    ParametersCases(tokens, s);
    var list := ParseParameterList(tokens, s);
    var k := ParseParameters(tokens, s).state.pos;
    if list.Thrown? {
      ps, message := ParameterListFails(tokens, s);
      GoesOnBefore(PrintParameters(ps), [Mark(RParen)], tokens, s.pos, k, Wanted(message));
    } else {
      ParameterListSound(tokens, s);
      ps, message := list.value, ExpectParenAfterParameters;
      GoesOnHere(Mark(RParen), tokens, k);
      GoesOnAfter(PrintParameters(ps), [Mark(RParen)], tokens, s.pos, k, RParen);
    }
  }

  lemma {:induction false} ParametersEndInNames(tokens: seq<Token>, s: State)
    requires Live(tokens, s)
    ensures var r := ParseParameterList(tokens, s);
            r.Done? ==>
              && s.pos + 2 <= r.state.pos
              && tokens[r.state.pos - 1].kind == Identifier && tokens[r.state.pos - 2].kind == Identifier
    decreases |tokens| - s.pos
  {
    hide EndsInOnlyEndOfFile, NamesNotEmpty, ParseParameter, ParseParameterList;
    ParameterListCases(tokens, s);
    ParameterIsTwoNames(tokens, s);
    var first := ParseParameter(tokens, s);
    if first.Done? && Kind(tokens, first.state) == Comma {
      ParametersEndInNames(tokens, Advance(tokens, first.state));
    }
  }

  lemma ParameterIsTwoNames(tokens: seq<Token>, s: State)
    requires Live(tokens, s)
    ensures var r := ParseParameter(tokens, s);
            r.Done? ==> r.state.pos == s.pos + 2 && Kind(tokens, s) == Identifier && tokens[s.pos + 1].kind == Identifier
  {
    hide EndsInOnlyEndOfFile, NamesNotEmpty, SignatureStep;
  }

  lemma OneOutputIsShaped()
    ensures ShapedOutputs([Output(0, Ident(0, 0))])
  {
  }

  lemma MoreOutputs(o: Output, rest: seq<Output>)
    requires ShapedOutput(o) && ShapedOutputs(rest)
    ensures ShapedOutputs([o] + rest)
  {
    hide ShapedOutput;
  }

  lemma {:induction false} OutputListFails(tokens: seq<Token>, s: State) returns (os: seq<Output>, message: Message)
    requires Live(tokens, s) && ParseOutputList(tokens, s).Thrown?
    ensures FailsAt(tokens, s, ParseOutputList(tokens, s).state, message) && os != [] && ShapedOutputs(os)
    ensures GoesOnWith(PrintOutputs(os), tokens, s.pos, ParseOutputList(tokens, s).state.pos, Wanted(message))
    ensures message == ExpectReturnType
    ensures var k := ParseOutputList(tokens, s).state.pos; k > s.pos ==> tokens[k - 1].kind == Comma
    decreases |tokens| - s.pos
  {
    hide EndsInOnlyEndOfFile, NamesNotEmpty, SignatureStep, GoesOnWith, Spelled, SpelledBetween, ParseOutput,
         ParseOutputList, ShapedOutput, ShapedOutputs, Print, PrintOutputs, FailsAt;
    OutputListCases(tokens, s);
    OutputSound(tokens, s);
    var first := ParseOutput(tokens, s);
    var k := ParseOutputList(tokens, s).state.pos;
    if first.Thrown? {
      os, message := [Output(0, Ident(0, 0))], ExpectReturnType;
      OneOutputIsShaped();
      OneOutputGoesOn(tokens, s.pos);
    } else {
      var o, s1 := first.value, first.state;
      var s2 := Advance(tokens, s1);
      var rest: seq<Output>;
      rest, message := OutputListFails(tokens, s2);
      OutputKeepsReports(tokens, s);
      FailsLater(tokens, s, s2, ParseOutputList(tokens, s).state, message);
      os := [o] + rest;
      MoreOutputs(o, rest);
      OutputsGoOn(tokens, s, s1, o, rest, k, Wanted(message));
    }
  }

  lemma OneOutputGoesOn(tokens: seq<Token>, i: nat)
    requires i <= |tokens|
    ensures GoesOnWith(PrintOutputs([Output(0, Ident(0, 0))]), tokens, i, i, Identifier)
    ensures ShapedOutputs([Output(0, Ident(0, 0))])
  {
    hide GoesOnWith;
    GoesOnHere(Text(Identifier, 0, 0), tokens, i);
  }

  lemma OutputKeepsReports(tokens: seq<Token>, s: State)
    requires Live(tokens, s)
    ensures var r := ParseOutput(tokens, s);
            r.Done? ==> Live(tokens, r.state) && r.state == s.(pos := r.state.pos) && s.pos <= r.state.pos
  {
    hide EndsInOnlyEndOfFile, NamesNotEmpty, ParseOutput;
  }

  lemma {:induction false} OutputSound(tokens: seq<Token>, s: State)
    requires Live(tokens, s)
    ensures var r := ParseOutput(tokens, s);
            if r.Done? then ShapedOutput(r.value) && SpelledBetween(Print(r.value.typ), tokens, s, r.state)
            else FailsAt(tokens, s, r.state, ExpectReturnType) && r.state.pos == s.pos
  {
    hide EndsInOnlyEndOfFile, NamesNotEmpty, SignatureStep, Spelled;
    var r := ParseOutput(tokens, s);
    if r.Done? {
      One(Text(Identifier, tokens[s.pos].offset, tokens[s.pos].length), tokens, s, r.state);
    }
  }

  lemma OutputsGoOn(tokens: seq<Token>, s: State, s1: State, o: Output, rest: seq<Output>, k: nat, next: TokenKind)
    requires s.pos < |tokens| && s1.pos < |tokens| && Kind(tokens, s1) == Comma
    requires SpelledBetween(Print(o.typ), tokens, s, s1)
    requires rest != [] && GoesOnWith(PrintOutputs(rest), tokens, s1.pos + 1, k, next)
    ensures GoesOnWith(PrintOutputs([o] + rest), tokens, s.pos, k, next)
  {
    hide GoesOnWith, Spelled, Print;
    One(Mark(Comma), tokens, s1, s1.(pos := s1.pos + 1));
    GoesOnAfter([Mark(Comma)], PrintOutputs(rest), tokens, s1.pos, k, next);
    GoesOnAfter(Print(o.typ), [Mark(Comma)] + PrintOutputs(rest), tokens, s.pos, k, next);
    assert ([o] + rest)[1..] == rest;
  }

  lemma {:induction false} OutputsFail(tokens: seq<Token>, s: State) returns (os: seq<Output>, message: Message)
    requires Live(tokens, s) && ParseOutputs(tokens, s).Thrown?
    ensures FailsAt(tokens, s, ParseOutputs(tokens, s).state, message) && ShapedOutputs(os)
    ensures GoesOnWith(PrintArrow(os), tokens, s.pos, ParseOutputs(tokens, s).state.pos, Wanted(message))
    ensures message == ExpectReturnType
    ensures var k := ParseOutputs(tokens, s).state.pos;
            k > s.pos && (tokens[k - 1].kind == ThinArrow || tokens[k - 1].kind == Comma)
  {
    hide EndsInOnlyEndOfFile, NamesNotEmpty, GoesOnWith, Spelled, ParseOutputs, ParseOutputList, PrintOutputs,
         ShapedOutputs;
    OutputsCases(tokens, s);
    var s1 := Advance(tokens, s);
    os, message := OutputListFails(tokens, s1);
    One(Mark(ThinArrow), tokens, s, s1);
    GoesOnAfter([Mark(ThinArrow)], PrintOutputs(os), tokens, s.pos, ParseOutputs(tokens, s).state.pos, Wanted(message));
  }

  lemma {:induction false} OutputsEndInNames(tokens: seq<Token>, s: State)
    requires Live(tokens, s)
    ensures var r := ParseOutputList(tokens, s);
            r.Done? ==> s.pos < r.state.pos && tokens[r.state.pos - 1].kind == Identifier
    decreases |tokens| - s.pos
  {
    hide EndsInOnlyEndOfFile, NamesNotEmpty, ParseOutput, ParseOutputList;
    OutputListCases(tokens, s);
    OutputIsName(tokens, s);
    var first := ParseOutput(tokens, s);
    if first.Done? && Kind(tokens, first.state) == Comma {
      OutputsEndInNames(tokens, Advance(tokens, first.state));
    }
  }

  lemma OutputIsName(tokens: seq<Token>, s: State)
    requires Live(tokens, s)
    ensures var r := ParseOutput(tokens, s);
            r.Done? ==> r.state.pos == s.pos + 1 && Kind(tokens, s) == Identifier
  {
    hide EndsInOnlyEndOfFile, NamesNotEmpty, SignatureStep;
  }

  /** The parameter list was closed between the two positions. */
  ghost predicate IsClosed(tokens: seq<Token>, i: nat, k: nat)
    requires k <= |tokens|
  {
    exists j :: i <= j < k && tokens[j].kind == RParen
  }

  /** What is missing in a signature that begins at `i`, by what stands before the token `k`. */
  ghost function SignatureMessage(tokens: seq<Token>, i: nat, k: nat): Message
    requires i <= k <= |tokens|
  {
    if k == i then ExpectParenAfterFunctionName
    else if !IsClosed(tokens, i, k) then ParameterMessage(tokens, i + 1, k)
    else if tokens[k - 1].kind == RParen || tokens[k - 1].kind == Identifier then ExpectBraceBeforeFunctionBody
    else ExpectReturnType
  }

  lemma {:induction false} ParametersAreOpen(ps: seq<Parameter>)
    requires ShapedParameters(ps)
    ensures forall j :: 0 <= j < |PrintParameters(ps)| ==> PrintParameters(ps)[j].kind != RParen
  {
    if ps != [] {
      var p, rest := ps[0], ps[1..];
      assert ShapedParameter(p) && Print(p.typ) == [Text(Identifier, p.typ.offset, p.typ.length)];
      assert ShapedParameters(rest) by {
        assert forall k :: 0 <= k < |rest| ==> rest[k] == ps[k + 1];
      }
      ParametersAreOpen(rest);
    }
  }

  lemma StaysOpen(ps: seq<Parameter>, tokens: seq<Token>, i: nat, k: nat, next: TokenKind)
    requires ShapedParameters(ps) && GoesOnWith(PrintParameters(ps) + [Mark(RParen)], tokens, i, k, next)
    ensures k <= |tokens| && !IsClosed(tokens, i, k)
  {
    hide ShapedParameters, PrintParameters;
    ParametersAreOpen(ps);
    var pieces := PrintParameters(ps) + [Mark(RParen)];
    forall j | i <= j < k ensures tokens[j].kind != RParen {
      assert Fits(pieces[..k - i][j - i], tokens, i + (j - i));
    }
  }

  lemma {:induction false} SignatureFails(tokens: seq<Token>, s: State)
    returns (ps: seq<Parameter>, os: seq<Output>, message: Message)
    requires Live(tokens, s)
    requires var r := ParseSignature(tokens, s); r.Thrown? && r.state.reports != s.reports
    ensures FailsAt(tokens, s, ParseSignature(tokens, s).state, message) && ShapedParameters(ps) && ShapedOutputs(os)
    ensures GoesOnWith(PrintSignature(ps, os), tokens, s.pos, ParseSignature(tokens, s).state.pos, Wanted(message))
    ensures message == SignatureMessage(tokens, s.pos, ParseSignature(tokens, s).state.pos)
  {
    hide EndsInOnlyEndOfFile, NamesNotEmpty, GoesOnWith, Spelled, ParseSignature, ParseParameters, ParseOutputs,
         PrintParameters, PrintArrow, PrintSignature, ShapedParameters, ShapedOutputs, SignatureMessage,
         ParameterMessage, FailsAt, Expect, SignatureStep;
    if Kind(tokens, s) != LParen {
      SignatureCases(tokens, s);
      NothingShaped();
      ps, os, message := [], [], ExpectParenAfterFunctionName;
      UnopenedFails(tokens, s.pos);
      ExpectFails(tokens, s, LParen, message);
    } else if ParseParameters(tokens, Advance(tokens, s)).Thrown? {
      ps, os, message := OpenSignatureFails(tokens, s);
    } else {
      ps, os, message := ClosedSignatureFails(tokens, s);
    }
  }

  lemma {:induction false} OpenSignatureFails(tokens: seq<Token>, s: State)
    returns (ps: seq<Parameter>, os: seq<Output>, message: Message)
    requires Live(tokens, s) && Kind(tokens, s) == LParen && ParseParameters(tokens, Advance(tokens, s)).Thrown?
    requires var r := ParseSignature(tokens, s); r.Thrown? && r.state.reports != s.reports
    ensures FailsAt(tokens, s, ParseSignature(tokens, s).state, message) && ShapedParameters(ps) && ShapedOutputs(os)
    ensures GoesOnWith(PrintSignature(ps, os), tokens, s.pos, ParseSignature(tokens, s).state.pos, Wanted(message))
    ensures message == SignatureMessage(tokens, s.pos, ParseSignature(tokens, s).state.pos)
  {
    hide EndsInOnlyEndOfFile, NamesNotEmpty, GoesOnWith, Spelled, ParseSignature, ParseParameters, ParseOutputs,
         PrintParameters, PrintArrow, PrintSignature, ShapedParameters, ShapedOutputs, SignatureMessage,
         ParameterMessage, FailsAt, Expect, SignatureStep;
    SignatureCases(tokens, s);
    NothingShaped();
    var t := ParseSignature(tokens, s).state;
    var s1 := Advance(tokens, s);
    ps, message := ParametersFail(tokens, s1);
    os := [];
    OpenFails(tokens, s, ps, t.pos, Wanted(message));
    FailsLater(tokens, s, s1, t, message);
  }

  /** Parameters that were read end in their parenthesis. */
  lemma ClosedParameters(tokens: seq<Token>, s: State)
    requires Live(tokens, s) && ParseParameters(tokens, s).Done?
    ensures var ps, t := ParseParameters(tokens, s).value, ParseParameters(tokens, s).state;
            && Live(tokens, t) && t == s.(pos := t.pos) && s.pos < t.pos && tokens[t.pos - 1].kind == RParen
            && ShapedParameters(ps) && SpelledBetween(PrintParameters(ps) + [Mark(RParen)], tokens, s, t)
  {
    hide EndsInOnlyEndOfFile, NamesNotEmpty, ParseParameters, PrintParameters, ShapedParameters, SignatureStep,
         SpelledBetween;
    ParametersKeepReports(tokens, s);
    ParametersSound(tokens, s);
    ClosedBefore(tokens, s, ParseParameters(tokens, s).state, ParseParameters(tokens, s).value);
  }

  lemma {:induction false} ClosedSignatureFails(tokens: seq<Token>, s: State)
    returns (ps: seq<Parameter>, os: seq<Output>, message: Message)
    requires Live(tokens, s) && Kind(tokens, s) == LParen && ParseParameters(tokens, Advance(tokens, s)).Done?
    requires ParseSignature(tokens, s).Thrown?
    ensures FailsAt(tokens, s, ParseSignature(tokens, s).state, message) && ShapedParameters(ps) && ShapedOutputs(os)
    ensures GoesOnWith(PrintSignature(ps, os), tokens, s.pos, ParseSignature(tokens, s).state.pos, Wanted(message))
    ensures message == SignatureMessage(tokens, s.pos, ParseSignature(tokens, s).state.pos)
  {
    hide EndsInOnlyEndOfFile, NamesNotEmpty, GoesOnWith, Spelled, ParseSignature, ParseParameters, ParseOutputs,
         PrintParameters, PrintArrow, PrintSignature, ShapedParameters, ShapedOutputs, SignatureMessage,
         ParameterMessage, FailsAt, Expect, SignatureStep, SpelledBetween, ReportExpected, Wanted, IsClosed;
    var t := ParseSignature(tokens, s).state;
    var s1 := Advance(tokens, s);
    var s2 := ParseParameters(tokens, s1).state;
    ClosedParameters(tokens, s1);
    ClosedSignatureState(tokens, s);
    ps := ParseParameters(tokens, s1).value;
    os, message := EndFails(tokens, s2);
    FailsKeeps(tokens, s2, t, message);
    ClosedSignatureEnds(tokens, s, s1, s2, t, ps, os, message);
  }

  lemma ClosedSignatureEnds(tokens: seq<Token>, s: State, s1: State, s2: State, t: State, ps: seq<Parameter>,
                            os: seq<Output>, message: Message)
    requires s.pos < |tokens| && s1.pos == s.pos + 1 && s2.pos < |tokens| && Kind(tokens, s) == LParen
    requires s2 == s.(pos := s2.pos) && s1.pos < s2.pos && tokens[s2.pos - 1].kind == RParen
    requires SpelledBetween(PrintParameters(ps) + [Mark(RParen)], tokens, s1, s2)
    requires FailsAt(tokens, s2, t, message) && 0 < t.pos < |tokens|
    requires GoesOnWith(PrintArrow(os) + [Mark(LBrace)], tokens, s2.pos, t.pos, Wanted(message))
    requires message == if tokens[t.pos - 1].kind == RParen || tokens[t.pos - 1].kind == Identifier
                        then ExpectBraceBeforeFunctionBody else ExpectReturnType
    ensures FailsAt(tokens, s, t, message) && s.pos <= t.pos
    ensures GoesOnWith(PrintSignature(ps, os), tokens, s.pos, t.pos, Wanted(message))
    ensures message == SignatureMessage(tokens, s.pos, t.pos)
  {
    hide FailsAt, GoesOnWith, SpelledBetween, PrintParameters, PrintArrow, PrintSignature, SignatureMessage, Wanted;
    FailsKeeps(tokens, s2, t, message);
    SignatureEnds(tokens, s, s1, s2, ps, os, t.pos, Wanted(message));
    ClosedMessage(tokens, s.pos, s2.pos, t.pos);
    FailsLater(tokens, s, s2, t, message);
  }

  /** A signature that fails behind its parameters fails in its outputs, or at its brace. */
  lemma ClosedSignatureState(tokens: seq<Token>, s: State)
    requires Live(tokens, s) && Kind(tokens, s) == LParen && ParseParameters(tokens, Advance(tokens, s)).Done?
    requires ParseSignature(tokens, s).Thrown? && Live(tokens, ParseParameters(tokens, Advance(tokens, s)).state)
    ensures var outputs := ParseOutputs(tokens, ParseParameters(tokens, Advance(tokens, s)).state);
            && (outputs.Thrown? || (outputs.state.pos < |tokens| && Kind(tokens, outputs.state) != LBrace))
            && ParseSignature(tokens, s).state
               == if outputs.Thrown? then outputs.state
                  else ReportExpected(tokens, outputs.state, ExpectBraceBeforeFunctionBody)
  {
    hide EndsInOnlyEndOfFile, NamesNotEmpty, ParseSignature, ParseParameters, ParseOutputs, Expect, ReportExpected;
    SignatureCases(tokens, s);
    var outputs := ParseOutputs(tokens, ParseParameters(tokens, Advance(tokens, s)).state);
    if outputs.Done? {
      ExpectFails(tokens, outputs.state, LBrace, ExpectBraceBeforeFunctionBody);
    }
  }

  lemma ParametersKeepReports(tokens: seq<Token>, s: State)
    requires Live(tokens, s)
    ensures var r := ParseParameters(tokens, s);
            r.Done? ==> Live(tokens, r.state) && r.state == s.(pos := r.state.pos) && s.pos <= r.state.pos
  {
    hide EndsInOnlyEndOfFile, NamesNotEmpty, ParseParameters;
  }

  lemma UnopenedFails(tokens: seq<Token>, k: nat)
    requires k <= |tokens|
    ensures GoesOnWith(PrintSignature([], []), tokens, k, k, LParen)
    ensures SignatureMessage(tokens, k, k) == ExpectParenAfterFunctionName
  {
    hide GoesOnWith;
    GoesOnHere(Mark(LParen), tokens, k);
    GoesOnBefore([Mark(LParen)], PrintParameters([]) + ([Mark(RParen)] + (PrintArrow([]) + [Mark(LBrace)])), tokens,
                 k, k, LParen);
  }

  lemma OpenFails(tokens: seq<Token>, s: State, ps: seq<Parameter>, k: nat, next: TokenKind)
    requires s.pos < |tokens| && Kind(tokens, s) == LParen && ShapedParameters(ps)
    requires GoesOnWith(PrintParameters(ps) + [Mark(RParen)], tokens, s.pos + 1, k, next)
    ensures s.pos < k <= |tokens|
    ensures GoesOnWith(PrintSignature(ps, []), tokens, s.pos, k, next)
    ensures SignatureMessage(tokens, s.pos, k) == ParameterMessage(tokens, s.pos + 1, k)
  {
    hide GoesOnWith, PrintParameters, PrintArrow, PrintSignature, IsClosed, Spelled, ShapedParameters, ParameterMessage;
    StaysOpen(ps, tokens, s.pos + 1, k, next);
    GoesOnInside(PrintParameters(ps) + [Mark(RParen)], tokens, s.pos + 1, k, next);
    StillOpen(tokens, s.pos, k);
    var start, end := PrintParameters(ps) + [Mark(RParen)], PrintArrow([]) + [Mark(LBrace)];
    One(Mark(LParen), tokens, s, s.(pos := s.pos + 1));
    GoesOnBefore(start, end, tokens, s.pos + 1, k, next);
    GoesOnAfter([Mark(LParen)], start + end, tokens, s.pos, k, next);
    SignaturePieces(ps, []);
  }

  lemma GoesOnInside(pieces: seq<Piece>, tokens: seq<Token>, i: nat, k: nat, next: TokenKind)
    requires GoesOnWith(pieces, tokens, i, k, next)
    ensures i <= k <= |tokens|
  {
  }

  lemma ClosedMessage(tokens: seq<Token>, i: nat, j: nat, k: nat)
    requires i < j <= k <= |tokens| && tokens[j - 1].kind == RParen
    ensures SignatureMessage(tokens, i, k)
            == if tokens[k - 1].kind == RParen || tokens[k - 1].kind == Identifier then ExpectBraceBeforeFunctionBody
               else ExpectReturnType
  {
    hide IsClosed, ParameterMessage;
    CloseStays(tokens, i, j, k);
  }

  lemma NothingShaped()
    ensures ShapedParameters([]) && ShapedOutputs([])
  {
  }

  lemma StillOpen(tokens: seq<Token>, i: nat, k: nat)
    requires i < k <= |tokens| && tokens[i].kind == LParen && !IsClosed(tokens, i + 1, k)
    ensures !IsClosed(tokens, i, k)
  {
  }

  lemma CloseStays(tokens: seq<Token>, i: nat, j: nat, k: nat)
    requires i < j <= k <= |tokens| && tokens[j - 1].kind == RParen
    ensures IsClosed(tokens, i, k)
  {
  }

  lemma ClosedBefore(tokens: seq<Token>, s: State, t: State, ps: seq<Parameter>)
    requires s.pos <= |tokens| && SpelledBetween(PrintParameters(ps) + [Mark(RParen)], tokens, s, t)
    ensures s.pos < t.pos <= |tokens| && tokens[t.pos - 1].kind == RParen
  {
    hide PrintParameters;
    var n := |PrintParameters(ps)|;
    assert Fits((PrintParameters(ps) + [Mark(RParen)])[n], tokens, s.pos + n);
  }

  /** Behind the parameters: the outputs fail, or the brace is missing. */
  lemma {:induction false} EndFails(tokens: seq<Token>, s: State) returns (os: seq<Output>, message: Message)
    requires Live(tokens, s) && s.pos > 0 && tokens[s.pos - 1].kind == RParen
    requires var outputs := ParseOutputs(tokens, s);
             outputs.Thrown? || Kind(tokens, outputs.state) != LBrace
    ensures var outputs := ParseOutputs(tokens, s);
            var t := if outputs.Thrown? then outputs.state
                     else ReportExpected(tokens, outputs.state, ExpectBraceBeforeFunctionBody);
            && FailsAt(tokens, s, t, message) && ShapedOutputs(os)
            && GoesOnWith(PrintArrow(os) + [Mark(LBrace)], tokens, s.pos, t.pos, Wanted(message))
            && message == if tokens[t.pos - 1].kind == RParen || tokens[t.pos - 1].kind == Identifier
                          then ExpectBraceBeforeFunctionBody else ExpectReturnType
  {
    hide EndsInOnlyEndOfFile, NamesNotEmpty, GoesOnWith, Spelled, ParseOutputs, ParseOutputList, PrintArrow,
         ShapedOutputs;
    var outputs := ParseOutputs(tokens, s);
    var k := outputs.state.pos;
    if outputs.Thrown? {
      os, message := OutputsFail(tokens, s);
      GoesOnBefore(PrintArrow(os), [Mark(LBrace)], tokens, s.pos, k, Wanted(message));
    } else {
      OutputsSound(tokens, s);
      OutputsCases(tokens, s);
      if Kind(tokens, s) == ThinArrow {
        OutputsEndInNames(tokens, Advance(tokens, s));
      }
      os, message := outputs.value, ExpectBraceBeforeFunctionBody;
      GoesOnHere(Mark(LBrace), tokens, k);
      GoesOnAfter(PrintArrow(os), [Mark(LBrace)], tokens, s.pos, k, LBrace);
    }
  }

  lemma SignatureEnds(tokens: seq<Token>, s: State, s1: State, s2: State, ps: seq<Parameter>, os: seq<Output>, k: nat,
                      next: TokenKind)
    requires s.pos < |tokens| && s1.pos == s.pos + 1 && s2.pos < |tokens| && Kind(tokens, s) == LParen
    requires SpelledBetween(PrintParameters(ps) + [Mark(RParen)], tokens, s1, s2)
    requires GoesOnWith(PrintArrow(os) + [Mark(LBrace)], tokens, s2.pos, k, next)
    ensures GoesOnWith(PrintSignature(ps, os), tokens, s.pos, k, next)
  {
    hide GoesOnWith, Spelled, PrintParameters, PrintArrow, PrintSignature;
    var start, end := PrintParameters(ps) + [Mark(RParen)], PrintArrow(os) + [Mark(LBrace)];
    One(Mark(LParen), tokens, s, s1);
    GoesOnAfter(start, end, tokens, s1.pos, k, next);
    GoesOnAfter([Mark(LParen)], start + end, tokens, s.pos, k, next);
    SignaturePieces(ps, os);
  }

  predicate IsModifier(kind: TokenKind) {
    kind == KwPublic || kind == KwPrivate
  }

  /** Where the name of a definition that begins at `i` is. */
  function NameAt(tokens: seq<Token>, i: nat): nat
    requires i < |tokens|
  {
    if IsModifier(tokens[i].kind) then i + 1 else i
  }

  /** What is missing in a definition that begins at `i`, by what stands before the token `k`. */
  ghost function DefinitionMessage(tokens: seq<Token>, i: nat, k: nat): Message
    requires i < |tokens| && NameAt(tokens, i) <= k <= |tokens|
  {
    var name := NameAt(tokens, i);
    if k == name then ExpectFunctionStructOrEnum else SignatureMessage(tokens, name + 1, k)
  }

  lemma AccessIsModifier(tokens: seq<Token>, s: State)
    requires Live(tokens, s)
    ensures ParseAccess(tokens, s).1.pos == NameAt(tokens, s.pos)
    ensures ParseAccess(tokens, s).0 == NoModifier <==> !IsModifier(Kind(tokens, s))
  {
    hide EndsInOnlyEndOfFile;
  }

  lemma AccessGoesOn(tokens: seq<Token>, s: State, d: Definition, k: nat, next: TokenKind)
    requires Live(tokens, s) && d.access == ParseAccess(tokens, s).0
    requires d.access != NoModifier ==> d.offset == tokens[s.pos].offset
    requires GoesOnWith(PrintName(d.name) + (PrintSignature(d.parameters, d.outputs) + PrintBlock(d.statements)), tokens,
                        ParseAccess(tokens, s).1.pos, k, next)
    ensures GoesOnWith(PrintDefinition(d), tokens, s.pos, k, next)
  {
    hide EndsInOnlyEndOfFile, GoesOnWith, Spelled, PrintName, PrintSignature, PrintBlock, PrintDefinition;
    var rest := PrintName(d.name) + (PrintSignature(d.parameters, d.outputs) + PrintBlock(d.statements));
    DefinitionPieces(d);
    if d.access == NoModifier {
      assert [] + rest == rest;
    } else {
      AccessSpelled(tokens, s, d);
      GoesOnAfter(PrintAccess(d), rest, tokens, s.pos, k, next);
    }
  }

  /** The name of a definition is missing. */
  lemma {:induction false} UnnamedFails(tokens: seq<Token>, s: State) returns (d: Definition)
    requires Live(tokens, s) && tokens[ParseAccess(tokens, s).1.pos].kind != Identifier
    ensures var s1 := ParseAccess(tokens, s).1;
            && FailsAt(tokens, s, ReportExpected(tokens, s1, ExpectFunctionStructOrEnum), ExpectFunctionStructOrEnum)
            && ShapedDefinition(d) && GoesOnWith(PrintDefinition(d), tokens, s.pos, s1.pos, Identifier)
  {
    hide EndsInOnlyEndOfFile, GoesOnWith, Spelled, ParseAccess, PrintBlock, PrintSignature, PrintDefinition, FailsAt;
    var (access, s1) := ParseAccess(tokens, s);
    var offset: Offset := if access == NoModifier then 0 else tokens[s.pos].offset;
    d := Function(offset, access, Name(0, 0), [], [], []);
    NameFails(tokens, s1);
    GoesOnHere(Text(Identifier, 0, 0), tokens, s1.pos);
    GoesOnBefore(PrintName(d.name), PrintSignature([], []) + PrintBlock([]), tokens, s1.pos, s1.pos, Identifier);
    AccessGoesOn(tokens, s, d, s1.pos, Identifier);
    FailsLater(tokens, s, s1, ReportExpected(tokens, s1, ExpectFunctionStructOrEnum), ExpectFunctionStructOrEnum);
  }

  /** A definition with a name, of which the signature fails. */
  lemma {:induction false} NamedFails(tokens: seq<Token>, s: State) returns (d: Definition, message: Message)
    requires Live(tokens, s) && tokens[ParseAccess(tokens, s).1.pos].kind == Identifier
    requires var r := ParseSignature(tokens, Advance(tokens, ParseAccess(tokens, s).1));
             r.Thrown? && r.state.reports != s.reports
    ensures var t := ParseSignature(tokens, Advance(tokens, ParseAccess(tokens, s).1)).state;
            && FailsAt(tokens, s, t, message) && ShapedDefinition(d) && ParseAccess(tokens, s).1.pos < t.pos <= |tokens|
            && GoesOnWith(PrintDefinition(d), tokens, s.pos, t.pos, Wanted(message))
            && message == SignatureMessage(tokens, ParseAccess(tokens, s).1.pos + 1, t.pos)
  {
    hide EndsInOnlyEndOfFile, NamesNotEmpty, GoesOnWith, Spelled, ParseSignature, ParseAccess, PrintBlock, PrintSignature,
         PrintDefinition, SignatureMessage, SignatureStep, FailsAt, Wanted;
    var (access, s1) := ParseAccess(tokens, s);
    var name, s2 := tokens[s1.pos], Advance(tokens, s1);
    var t := ParseSignature(tokens, s2).state;
    var ps: seq<Parameter>;
    var os: seq<Output>;
    ps, os, message := SignatureFails(tokens, s2);
    d := Function(tokens[s.pos].offset, access, Name(name.offset, name.length), ps, os, []);
    AccessIsModifier(tokens, s);
    FailsKeeps(tokens, s2, t, message);
    GoesOnBefore(PrintSignature(ps, os), PrintBlock([]), tokens, s2.pos, t.pos, Wanted(message));
    One(Text(Identifier, name.offset, name.length), tokens, s1, s2);
    GoesOnAfter(PrintName(d.name), PrintSignature(ps, os) + PrintBlock([]), tokens, s1.pos, t.pos, Wanted(message));
    AccessGoesOn(tokens, s, d, t.pos, Wanted(message));
    FailsLater(tokens, s, s2, t, message);
  }

  /** An error that ends a definition is about the token where the definition stops; the message is the one for that
      place, and with a token of the kind that it names some definition could have gone on there. */
  lemma {:induction false} DefinitionFails(tokens: seq<Token>, s: State) returns (d: Definition, message: Message)
    requires Live(tokens, s)
    requires var r := ParseDefinition(tokens, s); r.Thrown? && r.state.reports != s.reports
    ensures FailsAt(tokens, s, ParseDefinition(tokens, s).state, message) && ShapedDefinition(d)
    ensures GoesOnWith(PrintDefinition(d), tokens, s.pos, ParseDefinition(tokens, s).state.pos, Wanted(message))
    ensures NameAt(tokens, s.pos) <= ParseDefinition(tokens, s).state.pos
    ensures message == DefinitionMessage(tokens, s.pos, ParseDefinition(tokens, s).state.pos)
  {
    hide EndsInOnlyEndOfFile, NamesNotEmpty, GoesOnWith, Spelled, ParseDefinition, ParseSignature, ParseBlock,
         ParseAccess, PrintDefinition, ShapedDefinition, SignatureMessage, SignatureStep, FailsAt, NameAt;
    DefinitionCases(tokens, s);
    AccessIsModifier(tokens, s);
    if tokens[ParseAccess(tokens, s).1.pos].kind != Identifier {
      message := ExpectFunctionStructOrEnum;
      d := UnnamedFails(tokens, s);
    } else {
      d, message := NamedFails(tokens, s);
    }
  }

  lemma NameFails(tokens: seq<Token>, s: State)
    requires Live(tokens, s)
    ensures FailsAt(tokens, s, ReportExpected(tokens, s, ExpectFunctionStructOrEnum), ExpectFunctionStructOrEnum)
  {
  }

  // ---------------------------------------------------------------- errors behind other errors

  /** The last report is about the token where the parser has stopped. */
  ghost predicate IsReported(tokens: seq<Token>, t: State) {
    t.pos < |tokens| && t.reports != [] && t.reports[|t.reports| - 1].found == tokens[t.pos]
  }

  lemma JustReported(tokens: seq<Token>, s: State, message: Message)
    requires s.pos < |tokens|
    ensures IsReported(tokens, ReportExpected(tokens, s, message))
  {
  }

  lemma {:induction false} ExpressionStops(tokens: seq<Token>, s: State, p: Precedence)
    requires Live(tokens, s)
    ensures var r := ParseExpression(tokens, s, p); r.Thrown? ==> IsReported(tokens, r.state)
    decreases |tokens| - s.pos, 4
  {
    hide ParseExpression, ParseHead, ParseTails, HeadRule, EndsInOnlyEndOfFile, IsReported, ReportExpected, Accounts;
    ExpressionCases(tokens, s, p);
    if !IsHead(Kind(tokens, s)) {
      JustReported(tokens, s, ExpectExpression);
    } else {
      HeadStops(tokens, s);
      HeadMoves(tokens, s);
      var head := ParseHead(tokens, s);
      if head.Done? {
        TailsStop(tokens, head.state, p, head.value);
      }
    }
  }

  lemma {:induction false} HeadStops(tokens: seq<Token>, s: State)
    requires Live(tokens, s) && IsHead(Kind(tokens, s))
    ensures var r := ParseHead(tokens, s); r.Thrown? ==> IsReported(tokens, r.state)
    decreases |tokens| - s.pos, 3
  {
    hide ParseHead, ParseExpression, ParseList, ParseBlock, HeadRule, EndsInOnlyEndOfFile, IsReported, Accounts;
    HeadPrintsBack(Kind(tokens, s));
    var s1 := Advance(tokens, s);
    match HeadRule(Kind(tokens, s))
    case BlockHead => BlockHeadCases(tokens, s);
    case ReturnHead =>
      ReturnCases(tokens, s);
      ListStops(tokens, s1);
    case PrefixHead(op) =>
      PrefixCases(tokens, s, op);
      ExpressionStops(tokens, s1, PREFIX);
    case _ => PlainHeads(tokens, s);
  }

  lemma {:induction false} TailsStop(tokens: seq<Token>, s: State, p: Precedence, e: Expr)
    requires Live(tokens, s)
    ensures var r := ParseTails(tokens, s, p, e); r.Thrown? ==> IsReported(tokens, r.state)
    decreases |tokens| - s.pos, 3
  {
    hide ParseTail, ParseTails, NextTailRule, EndsInOnlyEndOfFile, IsReported, Accounts;
    TailsCases(tokens, s, p, e);
    if p < NextTailRule(tokens, s).precedence {
      TailStops(tokens, s, e);
      TailMoves(tokens, s, e);
      var r := ParseTail(tokens, s, NextTailRule(tokens, s).tail, e);
      if r.Done? {
        TailsStop(tokens, r.state, p, r.value);
      }
    }
  }

  lemma {:induction false} TailStops(tokens: seq<Token>, s: State, e: Expr)
    requires Live(tokens, s) && NextTailRule(tokens, s).tail != NoTail
    ensures var r := ParseTail(tokens, s, NextTailRule(tokens, s).tail, e); r.Thrown? ==> IsReported(tokens, r.state)
    decreases |tokens| - s.pos, 2
  {
    hide ParseTail, ParseExpression, ParseList, Expect, LookupTailRule, ShiftAhead, EndsInOnlyEndOfFile, IsReported,
         ReportExpected, Accounts;
    TablesAgree(Kind(tokens, s), ShiftAhead(tokens, s));
    match NextTailRule(tokens, s).tail
    case InfixTail(op) =>
      InfixCases(tokens, s, op, e);
      ExpressionStops(tokens, OperatorEnd(tokens, s, op), AssociativityPrecedence(op));
    case PostfixTail(op) => PostfixCases(tokens, s, op, e);
    case CallTail =>
      CallCases(tokens, s, e);
      var s1 := Advance(tokens, s);
      ListStops(tokens, s1);
      ListMoves(tokens, s1);
      ExpectStops(tokens, ParseList(tokens, s1).state, RParen, ExpectClosingParenInCall);
  }

  lemma ExpectStops(tokens: seq<Token>, s: State, kind: TokenKind, message: Message)
    requires Live(tokens, s) && kind != EndOfFile
    ensures var r := Expect(tokens, s, kind, message); r.Thrown? ==> IsReported(tokens, r.state)
  {
    hide EndsInOnlyEndOfFile;
  }

  lemma {:induction false} ListStops(tokens: seq<Token>, s: State)
    requires Live(tokens, s)
    ensures var r := ParseList(tokens, s); r.Thrown? ==> IsReported(tokens, r.state)
    decreases |tokens| - s.pos, 5
  {
    hide ParseList, ParseExpression, EndsInOnlyEndOfFile, IsReported, Accounts;
    ListCases(tokens, s);
    ExpressionStops(tokens, s, STATEMENT);
    ExpressionMoves(tokens, s, STATEMENT);
    var first := ParseExpression(tokens, s, STATEMENT);
    if first.Done? && Kind(tokens, first.state) == Comma {
      ListStops(tokens, Advance(tokens, first.state));
    }
  }

  /** Whatever errors were caught before, the error that ends a statement is about the token where it stops. */
  lemma {:induction false} StatementStops(tokens: seq<Token>, s: State)
    requires Live(tokens, s)
    ensures var r := ParseStatement(tokens, s); r.Thrown? ==> IsReported(tokens, r.state)
  {
    hide ParseStatement, ParseExpression, ParseHead, ParseBlock, Expect, HeadRule, EndsInOnlyEndOfFile, IsReported,
         Accounts;
    if Kind(tokens, s) == LBrace {
      BracesAndEnds();
      BlockStatementIsHead(tokens, s);
      BlockHeadCases(tokens, s);
    } else {
      StatementCases(tokens, s);
      ExpressionStops(tokens, s, STATEMENT);
      ExpressionMoves(tokens, s, STATEMENT);
      ExpectStops(tokens, ParseExpression(tokens, s, STATEMENT).state, Semicolon, ExpectSemicolon);
    }
  }
}
