/** Where the reports of the parser are: each is about a token of the list, and they come in the order of the tokens. */
module ParserReports {
  import opened Tokens
  import opened Ast
  import opened Grammar
  import opened ParserSpec

  /** The reports are about tokens up to position `bound`, each not before the one before it. */
  ghost predicate InOrder(reports: seq<Report>, tokens: seq<Token>, bound: nat)
    decreases |reports|
  {
    reports == [] || exists k: nat :: LastAt(reports, tokens, bound, k)
  }

  ghost predicate LastAt(reports: seq<Report>, tokens: seq<Token>, bound: nat, k: nat)
    requires reports != []
    decreases |reports|, 0
  {
    var last := |reports| - 1;
    k <= bound && k < |tokens| && reports[last].found == tokens[k] && InOrder(reports[..last], tokens, k)
  }

  ghost predicate Ordered(tokens: seq<Token>, s: State) {
    InOrder(s.reports, tokens, s.pos)
  }

  lemma InOrderLater(reports: seq<Report>, tokens: seq<Token>, i: nat, j: nat)
    requires InOrder(reports, tokens, i) && i <= j
    ensures InOrder(reports, tokens, j)
  {
    if reports != [] {
      if k: nat :| LastAt(reports, tokens, i, k) {
        assert LastAt(reports, tokens, j, k);
      }
    }
  }

  /** Moving the cursor on keeps the order. */
  lemma OrderedLater(tokens: seq<Token>, s: State, t: State)
    requires Ordered(tokens, s) && s.reports == t.reports && s.pos <= t.pos
    ensures Ordered(tokens, t)
  {
    InOrderLater(s.reports, tokens, s.pos, t.pos);
  }

  lemma ReportKeeps(tokens: seq<Token>, s: State, message: Message)
    requires Ordered(tokens, s) && s.pos < |tokens|
    ensures Ordered(tokens, ReportExpected(tokens, s, message))
  {
    var t := ReportExpected(tokens, s, message);
    assert t.reports[..|t.reports| - 1] == s.reports;
    assert LastAt(t.reports, tokens, t.pos, s.pos);
  }

  lemma ExpectKeeps(tokens: seq<Token>, s: State, kind: TokenKind, message: Message)
    requires Live(tokens, s) && Ordered(tokens, s) && kind != EndOfFile
    ensures Ordered(tokens, Expect(tokens, s, kind, message).state)
  {
    hide Ordered, EndsInOnlyEndOfFile, ReportExpected;
    ReportKeeps(tokens, s, message);
    OrderedLater(tokens, s, Advance(tokens, s));
  }

  // ---------------------------------------------------------------- expressions

  lemma {:induction false} ExpressionKeeps(tokens: seq<Token>, s: State, p: Precedence)
    requires Live(tokens, s) && Ordered(tokens, s)
    ensures Ordered(tokens, ParseExpression(tokens, s, p).state)
    decreases |tokens| - s.pos, 4
  {
    hide LookupTailRule, HeadRule, ParseHead, ParseTails, ParseTail, ParseList, ParseStatement, ParseBlock,
         RecoverAtStatementLevel, EndsInOnlyEndOfFile, ShiftAhead, Ordered, Accounts, ReportExpected;
    if IsHead(Kind(tokens, s)) {
      HeadKeeps(tokens, s);
      var h := ParseHead(tokens, s);
      if h.Done? {
        TailsKeep(tokens, h.state, p, h.value);
      }
    } else {
      ReportKeeps(tokens, s, ExpectExpression);
    }
  }

  lemma {:induction false} HeadKeeps(tokens: seq<Token>, s: State)
    requires Live(tokens, s) && IsHead(Kind(tokens, s)) && Ordered(tokens, s)
    ensures Ordered(tokens, ParseHead(tokens, s).state)
    decreases |tokens| - s.pos, 3
  {
    hide LookupTailRule, HeadRule, ParseExpression, ParseTails, ParseTail, ParseList, ParseStatement, ParseBlock,
         RecoverAtStatementLevel, EndsInOnlyEndOfFile, ShiftAhead, Ordered, Accounts, ReportExpected;
    HeadPrintsBack(Kind(tokens, s));
    var s1 := Advance(tokens, s);
    OrderedLater(tokens, s, s1);
    match HeadRule(Kind(tokens, s))
    case BlockHead => BlockKeeps(tokens, s1);
    case ReturnHead => ListKeeps(tokens, s1);
    case PrefixHead(_) => ExpressionKeeps(tokens, s1, PREFIX);
    case _ =>
  }

  lemma {:induction false} TailsKeep(tokens: seq<Token>, s: State, p: Precedence, e: Expr)
    requires Live(tokens, s) && Ordered(tokens, s)
    ensures Ordered(tokens, ParseTails(tokens, s, p, e).state)
    decreases |tokens| - s.pos, 3
  {
    hide LookupTailRule, HeadRule, ParseExpression, ParseHead, ParseTail, ParseList, ParseStatement, ParseBlock,
         RecoverAtStatementLevel, EndsInOnlyEndOfFile, ShiftAhead, Ordered, Accounts, ReportExpected;
    TablesAgree(Kind(tokens, s), ShiftAhead(tokens, s));
    var rule := NextTailRule(tokens, s);
    if p < rule.precedence {
      TailKeeps(tokens, s, e);
      var t := ParseTail(tokens, s, rule.tail, e);
      if t.Done? {
        TailsKeep(tokens, t.state, p, t.value);
      }
    }
  }

  lemma {:induction false} TailKeeps(tokens: seq<Token>, s: State, e: Expr)
    requires Live(tokens, s) && NextTailRule(tokens, s).tail != NoTail && Ordered(tokens, s)
    ensures Ordered(tokens, ParseTail(tokens, s, NextTailRule(tokens, s).tail, e).state)
    decreases |tokens| - s.pos, 2
  {
    hide LookupTailRule, ParseExpression, ParseTail, ParseList, Expect, EndsInOnlyEndOfFile, ShiftAhead, Ordered,
         Accounts;
    TablesAgree(Kind(tokens, s), ShiftAhead(tokens, s));
    var s1 := Advance(tokens, s);
    OrderedLater(tokens, s, s1);
    match NextTailRule(tokens, s).tail
    case InfixTail(op) =>
      OrderedLater(tokens, s, OperatorEnd(tokens, s, op));
      ExpressionKeeps(tokens, OperatorEnd(tokens, s, op), AssociativityPrecedence(op));
      InfixCases(tokens, s, op, e);
    case PostfixTail(op) =>
      PostfixMoves(tokens, s, op, e);
    case CallTail =>
      OrderedLater(tokens, s1, Advance(tokens, s1));
      ListKeeps(tokens, s1);
      ExpectKeeps(tokens, ParseList(tokens, s1).state, RParen, ExpectClosingParenInCall);
      CallCases(tokens, s, e);
  }

  lemma PostfixMoves(tokens: seq<Token>, s: State, op: UnaryOperator, e: Expr)
    requires Live(tokens, s) && NextTailRule(tokens, s).tail == PostfixTail(op)
    ensures ParseTail(tokens, s, PostfixTail(op), e).state == Advance(tokens, s)
  {
    hide LookupTailRule, EndsInOnlyEndOfFile, ShiftAhead, Accounts;
  }

  lemma {:induction false} ListKeeps(tokens: seq<Token>, s: State)
    requires Live(tokens, s) && Ordered(tokens, s)
    ensures Ordered(tokens, ParseList(tokens, s).state)
    decreases |tokens| - s.pos, 5
  {
    hide ParseExpression, ParseList, EndsInOnlyEndOfFile, Ordered, Accounts;
    ListCases(tokens, s);
    ExpressionKeeps(tokens, s, STATEMENT);
    var first := ParseExpression(tokens, s, STATEMENT);
    if first.Done? && Kind(tokens, first.state) == Comma {
      var s2 := Advance(tokens, first.state);
      OrderedLater(tokens, first.state, s2);
      ListKeeps(tokens, s2);
    }
  }

  // ---------------------------------------------------------------- statements

  lemma {:induction false} StatementKeeps(tokens: seq<Token>, s: State)
    requires Live(tokens, s) && Ordered(tokens, s)
    ensures Ordered(tokens, ParseStatement(tokens, s).state)
    decreases |tokens| - s.pos, 5
  {
    hide LookupTailRule, ParseExpression, ParseHead, ParseTails, ParseTail, ParseList, ParseBlock, Expect,
         RecoverAtStatementLevel, EndsInOnlyEndOfFile, ShiftAhead, Ordered, Accounts, ReportExpected;
    if Kind(tokens, s) == LBrace {
      HeadKeeps(tokens, s);
    } else {
      ExpressionKeeps(tokens, s, STATEMENT);
      ExpectKeeps(tokens, ParseExpression(tokens, s, STATEMENT).state, Semicolon, ExpectSemicolon);
    }
  }

  lemma {:induction false} BlockKeeps(tokens: seq<Token>, s: State)
    requires Live(tokens, s) && Ordered(tokens, s)
    ensures Ordered(tokens, ParseBlock(tokens, s).1)
    decreases |tokens| - s.pos, 6
  {
    hide ParseBlock, ParseStatement, RecoverAtStatementLevel, EndsInOnlyEndOfFile, Ordered, Accounts;
    if Kind(tokens, s) == RBrace {
      BlockCloses(tokens, s);
      OrderedLater(tokens, s, Advance(tokens, s));
    } else {
      StatementKeeps(tokens, s);
      match ParseStatement(tokens, s)
      case Done(e, s1) =>
        BlockGoesOn(tokens, s, e, s1);
        BlockKeeps(tokens, s1);
      case Thrown(s1) =>
        var (atEnd, s2) := RecoverAtStatementLevel(tokens, s1.(caught := s1.caught + 1));
        RecoveryMoves(tokens, s, s1, atEnd, s2);
        BlockRecovers(tokens, s, s1, atEnd, s2);
        OrderedLater(tokens, s1, s2);
        if !atEnd {
          BlockKeeps(tokens, s2);
        }
    }
  }

  // ---------------------------------------------------------------- definitions

  lemma TypeKeeps(tokens: seq<Token>, s: State, message: Message)
    requires Live(tokens, s) && Ordered(tokens, s)
    ensures Ordered(tokens, ParseType(tokens, s, message).state)
  {
    hide Ordered, EndsInOnlyEndOfFile, ReportExpected, NamesNotEmpty;
    ReportKeeps(tokens, s, message);
    OrderedLater(tokens, s, Advance(tokens, s));
  }

  lemma ParameterKeeps(tokens: seq<Token>, s: State)
    requires Live(tokens, s) && Ordered(tokens, s)
    ensures Ordered(tokens, ParseParameter(tokens, s).state)
  {
    hide Ordered, EndsInOnlyEndOfFile, ReportExpected, NamesNotEmpty, ParseType;
    TypeKeeps(tokens, s, ExpectParameterType);
    var s1 := ParseType(tokens, s, ExpectParameterType).state;
    ReportKeeps(tokens, s1, ExpectParameterName);
    OrderedLater(tokens, s1, Advance(tokens, s1));
  }

  lemma {:induction false} ParameterListKeeps(tokens: seq<Token>, s: State)
    requires Live(tokens, s) && Ordered(tokens, s)
    ensures Ordered(tokens, ParseParameterList(tokens, s).state)
    decreases |tokens| - s.pos
  {
    hide Ordered, EndsInOnlyEndOfFile, NamesNotEmpty, ParseParameter;
    ParameterKeeps(tokens, s);
    var first := ParseParameter(tokens, s);
    if first.Done? && Kind(tokens, first.state) == Comma {
      OrderedLater(tokens, first.state, Advance(tokens, first.state));
      ParameterListKeeps(tokens, Advance(tokens, first.state));
    }
  }

  lemma ParametersKeep(tokens: seq<Token>, s: State)
    requires Live(tokens, s) && Ordered(tokens, s)
    ensures Ordered(tokens, ParseParameters(tokens, s).state)
  {
    hide Ordered, EndsInOnlyEndOfFile, NamesNotEmpty, ParseParameterList, Expect;
    OrderedLater(tokens, s, Advance(tokens, s));
    ParameterListKeeps(tokens, s);
    ExpectKeeps(tokens, ParseParameterList(tokens, s).state, RParen, ExpectParenAfterParameters);
  }

  lemma {:induction false} OutputListKeeps(tokens: seq<Token>, s: State)
    requires Live(tokens, s) && Ordered(tokens, s)
    ensures Ordered(tokens, ParseOutputList(tokens, s).state)
    decreases |tokens| - s.pos
  {
    hide Ordered, EndsInOnlyEndOfFile, NamesNotEmpty, ParseType;
    TypeKeeps(tokens, s, ExpectReturnType);
    var first := ParseOutput(tokens, s);
    if first.Done? && Kind(tokens, first.state) == Comma {
      OrderedLater(tokens, first.state, Advance(tokens, first.state));
      OutputListKeeps(tokens, Advance(tokens, first.state));
    }
  }

  lemma OutputsKeep(tokens: seq<Token>, s: State)
    requires Live(tokens, s) && Ordered(tokens, s)
    ensures Ordered(tokens, ParseOutputs(tokens, s).state)
  {
    hide Ordered, EndsInOnlyEndOfFile, NamesNotEmpty, ParseOutputList;
    OrderedLater(tokens, s, Advance(tokens, s));
    OutputListKeeps(tokens, Advance(tokens, s));
  }

  lemma SignatureKeeps(tokens: seq<Token>, s: State)
    requires Live(tokens, s) && Ordered(tokens, s)
    ensures Ordered(tokens, ParseSignature(tokens, s).state)
  {
    hide Ordered, EndsInOnlyEndOfFile, NamesNotEmpty, ParseParameters, ParseOutputs, Expect;
    ExpectKeeps(tokens, s, LParen, ExpectParenAfterFunctionName);
    var s1 := Expect(tokens, s, LParen, ExpectParenAfterFunctionName).state;
    ParametersKeep(tokens, s1);
    var s2 := ParseParameters(tokens, s1).state;
    OutputsKeep(tokens, s2);
    ExpectKeeps(tokens, ParseOutputs(tokens, s2).state, LBrace, ExpectBraceBeforeFunctionBody);
  }

  lemma DefinitionKeeps(tokens: seq<Token>, s: State)
    requires Live(tokens, s) && Ordered(tokens, s)
    ensures Ordered(tokens, ParseDefinition(tokens, s).state)
  {
    hide Ordered, EndsInOnlyEndOfFile, NamesNotEmpty, ParseSignature, ParseBlock, ParseAccess, ReportExpected;
    var s1 := ParseAccess(tokens, s).1;
    OrderedLater(tokens, s, s1);
    ReportKeeps(tokens, s1, ExpectFunctionStructOrEnum);
    var s2 := Advance(tokens, s1);
    OrderedLater(tokens, s1, s2);
    SignatureKeeps(tokens, s2);
    BlockKeeps(tokens, ParseSignature(tokens, s2).state);
  }

  lemma {:induction false} DefinitionsKeep(tokens: seq<Token>, s: State)
    requires Live(tokens, s) && Ordered(tokens, s)
    ensures Ordered(tokens, ParseDefinitions(tokens, s).1)
    decreases |tokens| - s.pos
  {
    hide Ordered, EndsInOnlyEndOfFile, NamesNotEmpty, ParseDefinition, RecoverAtDefinitionLevel;
    if Kind(tokens, s) != EndOfFile {
      DefinitionKeeps(tokens, s);
      match ParseDefinition(tokens, s)
      case Done(_, s1) => DefinitionsKeep(tokens, s1);
      case Thrown(s1) =>
        var s2 := RecoverAtDefinitionLevel(tokens, s1.(caught := s1.caught + 1));
        OrderedLater(tokens, s1, s2);
        DefinitionsKeep(tokens, s2);
    }
  }

  // ---------------------------------------------------------------- main result

  /** Every report of a run is about a token of the list, and no report is about a token before that of the last one. */
  lemma {:induction false} ReportsAreInOrder(tokens: seq<Token>)
    requires EndsInOnlyEndOfFile(tokens)
    ensures InOrder(Run(tokens).1.reports, tokens, |tokens| - 1)
  {
    hide InOrder, ParseDefinitions;
    NoReports(tokens);
    DefinitionsKeep(tokens, START);
  }

  lemma NoReports(tokens: seq<Token>)
    ensures InOrder([], tokens, 0)
  {
  }

  /** A parameter that is given up without a report has an empty identifier token as its name, and there is no other
      such case. */
  lemma {:induction false} SilentExactlyOnEmptyName(tokens: seq<Token>, s: State)
    requires Live(tokens, s)
    ensures var r := ParseParameter(tokens, s);
            r.Thrown? && r.state.reports == s.reports
            <==> && s.pos + 1 < |tokens|
                 && tokens[s.pos].kind == Identifier && tokens[s.pos + 1].kind == Identifier
                 && tokens[s.pos + 1].length == 0
  {
    hide EndsInOnlyEndOfFile, NamesNotEmpty, SignatureStep;
  }

  // ---------------------------------------------------------------- where recovery stops

  predicate StopsStatement(kind: TokenKind) {
    kind == Semicolon || kind == RBrace || kind == EndOfFile
  }

  /** Statement recovery goes to the first `;`, `}` or end of the file, and passes only a `;`. */
  lemma {:induction false} StatementRecoveryStopsFirst(tokens: seq<Token>, s: State) returns (k: nat)
    requires Live(tokens, s)
    ensures s.pos <= k < |tokens| && StopsStatement(tokens[k].kind)
    ensures forall j :: s.pos <= j < k ==> !StopsStatement(tokens[j].kind)
    ensures RecoverAtStatementLevel(tokens, s)
            == (tokens[k].kind == EndOfFile, s.(pos := if tokens[k].kind == Semicolon then k + 1 else k))
    decreases |tokens| - s.pos
  {
    if StopsStatement(Kind(tokens, s)) {
      k := s.pos;
    } else {
      k := StatementRecoveryStopsFirst(tokens, Advance(tokens, s));
    }
  }

  predicate StopsDefinition(kind: TokenKind) {
    kind == KwPublic || kind == KwPrivate || kind == KwStruct || kind == KwEnum || kind == EndOfFile
  }

  lemma RecoveryTokens(kind: TokenKind)
    ensures IsRecoveryToken(kind) <==> StopsDefinition(kind)
  {
  }

  /** Definition recovery goes to the first modifier, `struct`, `enum` or end of the file behind the current token. */
  lemma {:induction false} DefinitionRecoveryStopsFirst(tokens: seq<Token>, s: State)
    requires Live(tokens, s)
    ensures var t := RecoverAtDefinitionLevel(tokens, s);
            && Live(tokens, t) && t == s.(pos := t.pos) && StopsDefinition(Kind(tokens, t))
            && (Kind(tokens, s) != EndOfFile ==> s.pos < t.pos)
            && forall j :: s.pos < j < t.pos ==> !StopsDefinition(tokens[j].kind)
    decreases |tokens| - s.pos
  {
    hide IsRecoveryToken;
    var s1 := Advance(tokens, s);
    RecoveryTokens(Kind(tokens, s1));
    if !IsRecoveryToken(Kind(tokens, s1)) {
      DefinitionRecoveryStopsFirst(tokens, s1);
    }
  }

  /** Where definition recovery stops, if that is known to be at `k`. */
  lemma {:induction false} DefinitionRecoveryStopsAt(tokens: seq<Token>, s: State, k: nat)
    requires Live(tokens, s) && Kind(tokens, s) != EndOfFile && s.pos < k < |tokens|
    requires StopsDefinition(tokens[k].kind) && forall j :: s.pos < j < k ==> !StopsDefinition(tokens[j].kind)
    ensures RecoverAtDefinitionLevel(tokens, s) == s.(pos := k)
  {
    hide StopsDefinition, RecoverAtDefinitionLevel, EndsInOnlyEndOfFile;
    DefinitionRecoveryStopsFirst(tokens, s);
  }
}
