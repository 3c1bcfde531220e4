/** The parser decides by the tokens that it has passed and the one where it stands: on two lists that share their first
    tokens it does the same, until it is past them. */
module ParserLocality {
  import opened Tokens
  import opened Ast
  import opened Grammar
  import opened ParserSpec
  import opened ParserSoundness
  import opened ParserErrors
  import ParserCompleteness

  /** The lists share the tokens up to position `k`, where neither has ended. */
  ghost predicate Share(tokens: seq<Token>, others: seq<Token>, k: nat) {
    && EndsInOnlyEndOfFile(tokens) && EndsInOnlyEndOfFile(others)
    && k + 1 < |tokens| && k + 1 < |others|
    && forall j :: 0 <= j <= k ==> tokens[j] == others[j]
  }

  lemma Shared(tokens: seq<Token>, others: seq<Token>, k: nat, s: State)
    requires Share(tokens, others, k) && s.pos <= k
    ensures Live(tokens, s) && Live(others, s) && Kind(tokens, s) == Kind(others, s) != EndOfFile
    ensures tokens[s.pos] == others[s.pos]
    ensures Advance(tokens, s) == Advance(others, s) == s.(pos := s.pos + 1)
    ensures k + 1 < |tokens| && k + 1 < |others|
  {
  }

  /** Past `k`, or at `k` with a `>` in front, which means one thing or another by the token behind it. */
  ghost predicate IsFar(tokens: seq<Token>, done: bool, t: State, k: nat)
    requires k < |tokens|
  {
    t.pos > k || (done && t.pos == k && tokens[k].kind == RAngle)
  }

  lemma ShiftIsForAngles(kind: TokenKind, a: bool, b: bool)
    requires kind != RAngle
    ensures LookupTailRule(kind, a) == LookupTailRule(kind, b)
  {
  }

  lemma SameTailRule(tokens: seq<Token>, others: seq<Token>, k: nat, s: State)
    requires Share(tokens, others, k) && s.pos <= k && !(s.pos == k && tokens[k].kind == RAngle)
    ensures Live(tokens, s) && Live(others, s) && NextTailRule(tokens, s) == NextTailRule(others, s)
  {
    hide LookupTailRule;
    Shared(tokens, others, k, s);
    if s.pos == k {
      ShiftIsForAngles(tokens[k].kind, ShiftAhead(tokens, s), ShiftAhead(others, s));
    }
  }

  // ---------------------------------------------------------------- expressions

  lemma {:induction false} ExpressionLocal(tokens: seq<Token>, others: seq<Token>, k: nat, s: State, p: Precedence)
    requires Share(tokens, others, k) && s.pos <= k && Live(tokens, s) && Live(others, s)
    ensures var r, q := ParseExpression(tokens, s, p), ParseExpression(others, s, p);
            || (r == q && r.state.pos <= k)
            || (IsFar(tokens, r.Done?, r.state, k) && IsFar(others, q.Done?, q.state, k))
    decreases |tokens| - s.pos, 4
  {
    hide Share, ParseExpression, ParseHead, ParseTails, HeadRule, EndsInOnlyEndOfFile, IsFar, Accounts;
    Shared(tokens, others, k, s);
    ExpressionCases(tokens, s, p);
    ExpressionCases(others, s, p);
    if IsHead(Kind(tokens, s)) {
      HeadLocal(tokens, others, k, s);
      HeadMoves(tokens, s);
      HeadMoves(others, s);
      var r, q := ParseHead(tokens, s), ParseHead(others, s);
      if r == q && r.state.pos <= k {
        if r.Done? {
          TailsLocal(tokens, others, k, r.state, p, r.value);
        }
      } else {
        FarHead(tokens, k, s, p);
        FarHead(others, k, s, p);
      }
    }
  }

  lemma {:induction false} FarHead(tokens: seq<Token>, k: nat, s: State, p: Precedence)
    requires Live(tokens, s) && IsHead(Kind(tokens, s)) && k < |tokens|
    requires var r := ParseHead(tokens, s); IsFar(tokens, r.Done?, r.state, k)
    ensures var r := ParseExpression(tokens, s, p); IsFar(tokens, r.Done?, r.state, k)
  {
    hide ParseExpression, ParseHead, ParseTails, HeadRule, EndsInOnlyEndOfFile, Accounts;
    ExpressionCases(tokens, s, p);
    var r := ParseHead(tokens, s);
    HeadMoves(tokens, s);
    if r.Done? {
      TailsFar(tokens, k, r.state, p, r.value);
    }
  }

  lemma {:induction false} TailsFar(tokens: seq<Token>, k: nat, s: State, p: Precedence, e: Expr)
    requires Live(tokens, s) && k < |tokens| && IsFar(tokens, true, s, k)
    ensures var r := ParseTails(tokens, s, p, e); IsFar(tokens, r.Done?, r.state, k)
  {
    hide ParseTail, ParseTails, NextTailRule, EndsInOnlyEndOfFile, Accounts;
    TailsCases(tokens, s, p, e);
    if p < NextTailRule(tokens, s).precedence {
      TailMoves(tokens, s, e);
      var r := ParseTail(tokens, s, NextTailRule(tokens, s).tail, e);
      if r.Done? {
        TailsMove(tokens, r.state, p, r.value);
      }
    }
  }

  /** The heads of one token. */
  lemma PlainHeadCases(tokens: seq<Token>, s: State)
    requires Live(tokens, s)
    requires var head := HeadRule(Kind(tokens, s)); head.IdentHead? || head.LiteralHead?
    ensures var token, head := tokens[s.pos], HeadRule(Kind(tokens, s));
            ParseHead(tokens, s)
            == Done(if head.IdentHead? then Ident(token.offset, token.length)
                    else Literal(token.offset, head.lit, token.length),
                    Advance(tokens, s))
  {
    hide HeadRule, EndsInOnlyEndOfFile, Accounts;
  }

  lemma {:induction false} HeadLocal(tokens: seq<Token>, others: seq<Token>, k: nat, s: State)
    requires Share(tokens, others, k) && s.pos <= k && Live(tokens, s) && Live(others, s) && IsHead(Kind(tokens, s))
    requires IsHead(Kind(others, s))
    ensures var r, q := ParseHead(tokens, s), ParseHead(others, s);
            || (r == q && r.state.pos <= k)
            || (IsFar(tokens, r.Done?, r.state, k) && IsFar(others, q.Done?, q.state, k))
    decreases |tokens| - s.pos, 3
  {
    hide Share, ParseHead, ParseExpression, ParseList, ParseBlock, HeadRule, EndsInOnlyEndOfFile, Accounts;
    Shared(tokens, others, k, s);
    var s1 := Advance(tokens, s);
    match HeadRule(Kind(tokens, s))
    case BlockHead =>
      BlockHeadCases(tokens, s);
      BlockHeadCases(others, s);
      BlockLater(tokens, others, k, s1);
    case ReturnHead =>
      ReturnLocal(tokens, others, k, s);
    case PrefixHead(op) =>
      PrefixCases(tokens, s, op);
      PrefixCases(others, s, op);
      ExpressionLater(tokens, others, k, s1, PREFIX);
    case _ =>
      PlainHeadCases(tokens, s);
      PlainHeadCases(others, s);
  }

  /** The same from a position that may be past the shared tokens already. */
  lemma {:induction false} ExpressionLater(tokens: seq<Token>, others: seq<Token>, k: nat, s: State, p: Precedence)
    requires Share(tokens, others, k) && Live(tokens, s) && Live(others, s)
    ensures var r, q := ParseExpression(tokens, s, p), ParseExpression(others, s, p);
            || (r == q && r.state.pos <= k)
            || (IsFar(tokens, r.Done?, r.state, k) && IsFar(others, q.Done?, q.state, k))
    decreases |tokens| - s.pos, 5
  {
    hide ParseExpression, EndsInOnlyEndOfFile;
    if s.pos <= k {
      ExpressionLocal(tokens, others, k, s, p);
    } else {
      ExpressionMoves(tokens, s, p);
      ExpressionMoves(others, s, p);
    }
  }

  lemma {:induction false} BlockLater(tokens: seq<Token>, others: seq<Token>, k: nat, s: State)
    requires Share(tokens, others, k) && Live(tokens, s) && Live(others, s)
    ensures var r, q := ParseBlock(tokens, s), ParseBlock(others, s);
            (r == q && r.1.pos <= k) || (r.1.pos > k && q.1.pos > k)
    decreases |tokens| - s.pos, 8
  {
    hide ParseBlock, EndsInOnlyEndOfFile;
    if s.pos <= k {
      BlockLocal(tokens, others, k, s);
    } else {
      BlockMoves(tokens, s);
      BlockMoves(others, s);
    }
  }

  lemma {:induction false} ListLater(tokens: seq<Token>, others: seq<Token>, k: nat, s: State)
    requires Share(tokens, others, k) && Live(tokens, s) && Live(others, s)
    ensures var r, q := ParseList(tokens, s), ParseList(others, s);
            (r == q && r.state.pos <= k) || (r.state.pos > k && q.state.pos > k)
    decreases |tokens| - s.pos, 7
  {
    hide ParseList, EndsInOnlyEndOfFile;
    if s.pos <= k {
      ListLocal(tokens, others, k, s);
    } else {
      ListMoves(tokens, s);
      ListMoves(others, s);
    }
  }

  lemma {:induction false} ReturnLocal(tokens: seq<Token>, others: seq<Token>, k: nat, s: State)
    requires Share(tokens, others, k) && s.pos <= k && Live(tokens, s) && Live(others, s)
    requires HeadRule(Kind(tokens, s)) == HeadRule(Kind(others, s)) == ReturnHead
    ensures var r, q := ParseHead(tokens, s), ParseHead(others, s);
            (r == q && r.state.pos <= k) || (r.state.pos > k && q.state.pos > k)
    decreases |tokens| - s.pos, 2
  {
    hide Share, ParseHead, ParseList, HeadRule, EndsInOnlyEndOfFile, Accounts;
    Shared(tokens, others, k, s);
    ReturnCases(tokens, s);
    ReturnCases(others, s);
    var s1 := Advance(tokens, s);
    if s1.pos <= k {
      Shared(tokens, others, k, s1);
      if IsHead(Kind(tokens, s1)) {
        ListLater(tokens, others, k, s1);
      }
    } else {
      ListMoves(tokens, s1);
      ListMoves(others, s1);
    }
  }

  lemma {:induction false} TailsLocal(tokens: seq<Token>, others: seq<Token>, k: nat, s: State, p: Precedence, e: Expr)
    requires Share(tokens, others, k) && s.pos <= k && Live(tokens, s) && Live(others, s)
    ensures var r, q := ParseTails(tokens, s, p, e), ParseTails(others, s, p, e);
            || (r == q && r.state.pos <= k)
            || (IsFar(tokens, r.Done?, r.state, k) && IsFar(others, q.Done?, q.state, k))
    decreases |tokens| - s.pos, 3
  {
    hide Share, ParseTail, ParseTails, NextTailRule, EndsInOnlyEndOfFile, Accounts;
    Shared(tokens, others, k, s);
    if s.pos == k && Kind(tokens, s) == RAngle {
      TailsFar(tokens, k, s, p, e);
      TailsFar(others, k, s, p, e);
    } else {
      SameTailRule(tokens, others, k, s);
      TailsCases(tokens, s, p, e);
      TailsCases(others, s, p, e);
      var rule := NextTailRule(tokens, s);
      if p < rule.precedence {
        TailLocal(tokens, others, k, s, e);
        TailMoves(tokens, s, e);
        TailMoves(others, s, e);
        var r, q := ParseTail(tokens, s, rule.tail, e), ParseTail(others, s, rule.tail, e);
        if r == q && r.state.pos <= k {
          if r.Done? {
            TailsLocal(tokens, others, k, r.state, p, r.value);
          }
        } else {
          if r.Done? {
            TailsFar(tokens, k, r.state, p, r.value);
          }
          if q.Done? {
            TailsFar(others, k, q.state, p, q.value);
          }
        }
      }
    }
  }

  lemma {:induction false} TailLocal(tokens: seq<Token>, others: seq<Token>, k: nat, s: State, e: Expr)
    requires Share(tokens, others, k) && s.pos <= k && Live(tokens, s) && Live(others, s)
    requires !(s.pos == k && tokens[k].kind == RAngle)
    requires NextTailRule(tokens, s) == NextTailRule(others, s) && NextTailRule(tokens, s).tail != NoTail
    ensures var tail := NextTailRule(tokens, s).tail;
            var r, q := ParseTail(tokens, s, tail, e), ParseTail(others, s, tail, e);
            || (r == q && r.state.pos <= k)
            || (IsFar(tokens, r.Done?, r.state, k) && IsFar(others, q.Done?, q.state, k))
    decreases |tokens| - s.pos, 2
  {
    hide Share, ParseTail, ParseExpression, ParseList, NextTailRule, OperatorEnd, EndsInOnlyEndOfFile, Accounts;
    Shared(tokens, others, k, s);
    var s1 := Advance(tokens, s);
    match NextTailRule(tokens, s).tail
    case InfixTail(op) =>
      InfixCases(tokens, s, op, e);
      InfixCases(others, s, op, e);
      SameOperatorEnd(tokens, others, k, s, op);
      ExpressionLater(tokens, others, k, OperatorEnd(tokens, s, op), AssociativityPrecedence(op));
    case PostfixTail(op) =>
      PostfixCases(tokens, s, op, e);
      PostfixCases(others, s, op, e);
    case CallTail => CallLocal(tokens, others, k, s, e);
  }

  lemma SameOperatorEnd(tokens: seq<Token>, others: seq<Token>, k: nat, s: State, op: BinaryOperator)
    requires Share(tokens, others, k) && s.pos <= k && Live(tokens, s) && !(s.pos == k && tokens[k].kind == RAngle)
    requires NextTailRule(tokens, s).tail == InfixTail(op)
    ensures Live(others, s) && OperatorEnd(tokens, s, op) == OperatorEnd(others, s, op)
    ensures s.pos < OperatorEnd(tokens, s, op).pos
  {
    hide Share, EndsInOnlyEndOfFile, LookupTailRule, BinaryToken, ShiftAhead;
    Shared(tokens, others, k, s);
    OperatorSound(tokens, s, op);
    ShiftIsAngle(op);
    if op == Shr {
      Shared(tokens, others, k, Advance(tokens, s));
    }
  }

  lemma {:induction false} CallLocal(tokens: seq<Token>, others: seq<Token>, k: nat, s: State, e: Expr)
    requires Share(tokens, others, k) && s.pos <= k && Live(tokens, s) && Live(others, s)
    requires NextTailRule(tokens, s).tail == NextTailRule(others, s).tail == CallTail
    ensures var r, q := ParseTail(tokens, s, CallTail, e), ParseTail(others, s, CallTail, e);
            (r == q && r.state.pos <= k) || (r.state.pos > k && q.state.pos > k)
    decreases |tokens| - s.pos, 1
  {
    hide Share, ParseTail, ParseList, NextTailRule, Expect, EndsInOnlyEndOfFile, Accounts;
    Shared(tokens, others, k, s);
    CallCases(tokens, s, e);
    CallCases(others, s, e);
    var s1 := Advance(tokens, s);
    if s1.pos <= k {
      Shared(tokens, others, k, s1);
      if Kind(tokens, s1) != RParen {
        ListLater(tokens, others, k, s1);
        ListMoves(tokens, s1);
        ListMoves(others, s1);
        var list := ParseList(tokens, s1);
        if list == ParseList(others, s1) && list.Done? && list.state.pos <= k {
          ExpectLocal(tokens, others, k, list.state, RParen, ExpectClosingParenInCall);
        }
      }
    } else {
      ListMoves(tokens, s1);
      ListMoves(others, s1);
    }
  }

  lemma ExpectLocal(tokens: seq<Token>, others: seq<Token>, k: nat, s: State, kind: TokenKind, message: Message)
    requires Share(tokens, others, k) && s.pos <= k && Live(tokens, s) && Live(others, s) && kind != EndOfFile
    ensures Expect(tokens, s, kind, message) == Expect(others, s, kind, message)
  {
    hide Share, EndsInOnlyEndOfFile;
    Shared(tokens, others, k, s);
  }

  /** At statement level an expression takes a `>` in any case. */
  lemma {:induction false} ElementLocal(tokens: seq<Token>, others: seq<Token>, k: nat, s: State)
    requires Share(tokens, others, k) && s.pos <= k && Live(tokens, s) && Live(others, s)
    ensures var r, q := ParseExpression(tokens, s, STATEMENT), ParseExpression(others, s, STATEMENT);
            (r == q && r.state.pos <= k) || (r.state.pos > k && q.state.pos > k)
    decreases |tokens| - s.pos, 5
  {
    hide ParseExpression, EndsInOnlyEndOfFile;
    ExpressionLocal(tokens, others, k, s, STATEMENT);
    NoAngleLeft(tokens, s);
    NoAngleLeft(others, s);
  }

  lemma NoAngleLeft(tokens: seq<Token>, s: State)
    requires Live(tokens, s)
    ensures var r := ParseExpression(tokens, s, STATEMENT); r.Done? ==> Kind(tokens, r.state) != RAngle
  {
    hide ParseExpression, EndsInOnlyEndOfFile, Reads, LookupTailRule, ShiftAhead;
    ExpressionSound(tokens, s, STATEMENT);
    AnglesAreTails();
  }

  lemma AnglesAreTails()
    ensures LookupTailRule(RAngle, false).precedence > STATEMENT && LookupTailRule(RAngle, true).precedence > STATEMENT
  {
  }

  lemma {:induction false} ListLocal(tokens: seq<Token>, others: seq<Token>, k: nat, s: State)
    requires Share(tokens, others, k) && s.pos <= k && Live(tokens, s) && Live(others, s)
    ensures var r, q := ParseList(tokens, s), ParseList(others, s);
            (r == q && r.state.pos <= k) || (r.state.pos > k && q.state.pos > k)
    decreases |tokens| - s.pos, 6
  {
    hide Share, ParseList, ParseExpression, EndsInOnlyEndOfFile, Accounts;
    ListCases(tokens, s);
    ListCases(others, s);
    ElementLocal(tokens, others, k, s);
    ExpressionMoves(tokens, s, STATEMENT);
    ExpressionMoves(others, s, STATEMENT);
    var r, q := ParseExpression(tokens, s, STATEMENT), ParseExpression(others, s, STATEMENT);
    if r == q && r.state.pos <= k {
      Shared(tokens, others, k, r.state);
      if r.Done? && Kind(tokens, r.state) == Comma {
        ListLater(tokens, others, k, Advance(tokens, r.state));
      }
    } else {
      ListFar(tokens, s, k);
      ListFar(others, s, k);
    }
  }

  lemma {:induction false} ListFar(tokens: seq<Token>, s: State, k: nat)
    requires Live(tokens, s) && ParseExpression(tokens, s, STATEMENT).state.pos > k
    ensures ParseList(tokens, s).state.pos > k
  {
    hide ParseList, ParseExpression, EndsInOnlyEndOfFile, Accounts;
    ListCases(tokens, s);
    ExpressionMoves(tokens, s, STATEMENT);
    var r := ParseExpression(tokens, s, STATEMENT);
    if r.Done? && Kind(tokens, r.state) == Comma {
      ListMoves(tokens, Advance(tokens, r.state));
    }
  }

  // ---------------------------------------------------------------- statements

  lemma {:induction false} StatementLocal(tokens: seq<Token>, others: seq<Token>, k: nat, s: State)
    requires Share(tokens, others, k) && s.pos <= k && Live(tokens, s) && Live(others, s)
    ensures var r, q := ParseStatement(tokens, s), ParseStatement(others, s);
            (r == q && r.state.pos <= k) || (r.state.pos > k && q.state.pos > k)
    decreases |tokens| - s.pos, 6
  {
    hide Share, ParseStatement, ParseExpression, ParseHead, ParseBlock, Expect, HeadRule, EndsInOnlyEndOfFile, Accounts;
    Shared(tokens, others, k, s);
    if Kind(tokens, s) == LBrace {
      BracesAndEnds();
      ParserCompleteness.BlockStatementIsHead(tokens, s);
      ParserCompleteness.BlockStatementIsHead(others, s);
      BlockHeadCases(tokens, s);
      BlockHeadCases(others, s);
      BlockLater(tokens, others, k, Advance(tokens, s));
    } else {
      StatementCases(tokens, s);
      StatementCases(others, s);
      ElementLocal(tokens, others, k, s);
      ExpressionMoves(tokens, s, STATEMENT);
      ExpressionMoves(others, s, STATEMENT);
      var r, q := ParseExpression(tokens, s, STATEMENT), ParseExpression(others, s, STATEMENT);
      if r == q && r.state.pos <= k {
        if r.Done? {
          ExpectLocal(tokens, others, k, r.state, Semicolon, ExpectSemicolon);
        }
      }
    }
  }

  lemma {:induction false} RecoveryLocal(tokens: seq<Token>, others: seq<Token>, k: nat, s: State)
    requires Share(tokens, others, k) && s.pos <= k && Live(tokens, s) && Live(others, s)
    ensures var r, q := RecoverAtStatementLevel(tokens, s), RecoverAtStatementLevel(others, s);
            (r == q && r.1.pos <= k) || (r.1.pos > k && q.1.pos > k)
    decreases |tokens| - s.pos
  {
    hide Share, EndsInOnlyEndOfFile;
    Shared(tokens, others, k, s);
    var s1 := Advance(tokens, s);
    if s1.pos <= k {
      RecoveryLocal(tokens, others, k, s1);
    }
  }

  lemma {:induction false} BlockFar(tokens: seq<Token>, s: State, k: nat)
    requires Live(tokens, s) && Kind(tokens, s) != RBrace && ParseStatement(tokens, s).state.pos > k
    ensures ParseBlock(tokens, s).1.pos > k
  {
    hide ParseBlock, ParseStatement, RecoverAtStatementLevel, Accounts, EndsInOnlyEndOfFile;
    StatementMoves(tokens, s);
    match ParseStatement(tokens, s)
    case Done(e, s1) =>
      BlockGoesOn(tokens, s, e, s1);
      BlockMoves(tokens, s1);
    case Thrown(s1) =>
      var (atEnd, s2) := RecoverAtStatementLevel(tokens, s1.(caught := s1.caught + 1));
      RecoveryMoves(tokens, s, s1, atEnd, s2);
      BlockRecovers(tokens, s, s1, atEnd, s2);
      if !atEnd {
        BlockMoves(tokens, s2);
      }
  }

  lemma {:induction false} BlockLocal(tokens: seq<Token>, others: seq<Token>, k: nat, s: State)
    requires Share(tokens, others, k) && s.pos <= k && Live(tokens, s) && Live(others, s)
    ensures var r, q := ParseBlock(tokens, s), ParseBlock(others, s);
            (r == q && r.1.pos <= k) || (r.1.pos > k && q.1.pos > k)
    decreases |tokens| - s.pos, 7
  {
    hide Share, ParseBlock, ParseStatement, RecoverAtStatementLevel, Accounts, EndsInOnlyEndOfFile;
    Shared(tokens, others, k, s);
    if Kind(tokens, s) == RBrace {
      BlockCloses(tokens, s);
      BlockCloses(others, s);
    } else {
      StatementLocal(tokens, others, k, s);
      var r, q := ParseStatement(tokens, s), ParseStatement(others, s);
      if r == q && r.state.pos <= k {
        StatementMoves(tokens, s);
        match r
        case Done(e, s1) =>
          BlockGoesOn(tokens, s, e, s1);
          BlockGoesOn(others, s, e, s1);
          BlockLater(tokens, others, k, s1);
        case Thrown(s1) => BlockRecoversLocal(tokens, others, k, s, s1);
      } else {
        BlockFar(tokens, s, k);
        BlockFar(others, s, k);
      }
    }
  }

  lemma {:induction false} BlockRecoversLocal(tokens: seq<Token>, others: seq<Token>, k: nat, s: State, s1: State)
    requires Share(tokens, others, k) && s.pos <= s1.pos <= k && Live(tokens, s) && Live(others, s)
    requires Kind(tokens, s) != RBrace && Kind(others, s) != RBrace
    requires ParseStatement(tokens, s) == ParseStatement(others, s) == Thrown(s1)
    requires Live(tokens, s1) && Live(others, s1)
    ensures var r, q := ParseBlock(tokens, s), ParseBlock(others, s);
            (r == q && r.1.pos <= k) || (r.1.pos > k && q.1.pos > k)
    decreases |tokens| - s.pos, 6
  {
    hide Share, ParseBlock, ParseStatement, RecoverAtStatementLevel, Accounts, EndsInOnlyEndOfFile;
    var from := s1.(caught := s1.caught + 1);
    RecoveryLocal(tokens, others, k, from);
    var (atEnd, s2) := RecoverAtStatementLevel(tokens, from);
    var (ended, t2) := RecoverAtStatementLevel(others, from);
    RecoveryMoves(tokens, s, s1, atEnd, s2);
    BlockRecovers(tokens, s, s1, atEnd, s2);
    RecoveryMoves(others, s, s1, ended, t2);
    BlockRecovers(others, s, s1, ended, t2);
    if !atEnd {
      BlockMoves(tokens, s2);
    }
    if !ended {
      BlockMoves(others, t2);
    }
    if s2 == t2 && atEnd == ended && !atEnd && s2.pos <= k {
      BlockLater(tokens, others, k, s2);
    }
  }

  // ---------------------------------------------------------------- definitions

  lemma ParameterLocal(tokens: seq<Token>, others: seq<Token>, k: nat, s: State)
    requires Share(tokens, others, k) && s.pos <= k && Live(tokens, s) && Live(others, s)
    ensures var r, q := ParseParameter(tokens, s), ParseParameter(others, s);
            (r == q && r.state.pos <= k) || (r.state.pos > k && q.state.pos > k)
  {
    hide Share, EndsInOnlyEndOfFile, NamesNotEmpty, SignatureStep;
    Shared(tokens, others, k, s);
    if s.pos + 1 <= k {
      Shared(tokens, others, k, Advance(tokens, s));
    }
  }

  lemma {:induction false} ParameterListLater(tokens: seq<Token>, others: seq<Token>, k: nat, s: State)
    requires Share(tokens, others, k) && Live(tokens, s) && Live(others, s)
    ensures var r, q := ParseParameterList(tokens, s), ParseParameterList(others, s);
            (r == q && r.state.pos <= k) || (r.state.pos > k && q.state.pos > k)
    decreases |tokens| - s.pos
  {
    hide Share, EndsInOnlyEndOfFile, NamesNotEmpty, ParseParameter, ParseParameterList;
    ParameterListCases(tokens, s);
    ParameterListCases(others, s);
    var r, q := ParseParameter(tokens, s), ParseParameter(others, s);
    if s.pos <= k {
      ParameterLocal(tokens, others, k, s);
      if r == q && r.state.pos <= k {
        Shared(tokens, others, k, r.state);
        if r.Done? && Kind(tokens, r.state) == Comma {
          ParameterListLater(tokens, others, k, Advance(tokens, r.state));
        }
      }
    }
  }

  lemma {:induction false} ParametersLater(tokens: seq<Token>, others: seq<Token>, k: nat, s: State)
    requires Share(tokens, others, k) && Live(tokens, s) && Live(others, s)
    ensures var r, q := ParseParameters(tokens, s), ParseParameters(others, s);
            (r == q && r.state.pos <= k) || (r.state.pos > k && q.state.pos > k)
  {
    hide Share, EndsInOnlyEndOfFile, NamesNotEmpty, ParseParameterList, ParseParameters, Expect;
    ParametersCases(tokens, s);
    ParametersCases(others, s);
    if s.pos <= k {
      Shared(tokens, others, k, s);
      if Kind(tokens, s) != RParen {
        ParameterListLater(tokens, others, k, s);
        var r := ParseParameterList(tokens, s);
        if r == ParseParameterList(others, s) && r.Done? && r.state.pos <= k {
          ExpectLocal(tokens, others, k, r.state, RParen, ExpectParenAfterParameters);
        }
      }
    }
  }

  lemma OutputLocal(tokens: seq<Token>, others: seq<Token>, k: nat, s: State)
    requires Share(tokens, others, k) && s.pos <= k && Live(tokens, s) && Live(others, s)
    ensures ParseOutput(tokens, s) == ParseOutput(others, s)
  {
    hide Share, EndsInOnlyEndOfFile, NamesNotEmpty, SignatureStep;
    Shared(tokens, others, k, s);
  }

  lemma {:induction false} OutputListLater(tokens: seq<Token>, others: seq<Token>, k: nat, s: State)
    requires Share(tokens, others, k) && Live(tokens, s) && Live(others, s)
    ensures var r, q := ParseOutputList(tokens, s), ParseOutputList(others, s);
            (r == q && r.state.pos <= k) || (r.state.pos > k && q.state.pos > k)
    decreases |tokens| - s.pos
  {
    hide Share, EndsInOnlyEndOfFile, NamesNotEmpty, ParseOutput, ParseOutputList;
    OutputListCases(tokens, s);
    OutputListCases(others, s);
    var r, q := ParseOutput(tokens, s), ParseOutput(others, s);
    if s.pos <= k {
      OutputLocal(tokens, others, k, s);
      if r.state.pos <= k {
        Shared(tokens, others, k, r.state);
        if r.Done? && Kind(tokens, r.state) == Comma {
          OutputListLater(tokens, others, k, Advance(tokens, r.state));
        }
      }
    }
  }

  lemma {:induction false} OutputsLater(tokens: seq<Token>, others: seq<Token>, k: nat, s: State)
    requires Share(tokens, others, k) && Live(tokens, s) && Live(others, s)
    ensures var r, q := ParseOutputs(tokens, s), ParseOutputs(others, s);
            (r == q && r.state.pos <= k) || (r.state.pos > k && q.state.pos > k)
  {
    hide Share, EndsInOnlyEndOfFile, NamesNotEmpty, ParseOutputList, ParseOutputs;
    OutputsCases(tokens, s);
    OutputsCases(others, s);
    if s.pos <= k {
      Shared(tokens, others, k, s);
      if Kind(tokens, s) == ThinArrow {
        OutputListLater(tokens, others, k, Advance(tokens, s));
      }
    }
  }

  lemma {:induction false} SignatureLater(tokens: seq<Token>, others: seq<Token>, k: nat, s: State)
    requires Share(tokens, others, k) && Live(tokens, s) && Live(others, s)
    ensures var r, q := ParseSignature(tokens, s), ParseSignature(others, s);
            (r == q && r.state.pos <= k) || (r.state.pos > k && q.state.pos > k)
  {
    hide Share, EndsInOnlyEndOfFile, NamesNotEmpty, ParseSignature, ParseParameters, ParseOutputs, Expect;
    SignatureCases(tokens, s);
    SignatureCases(others, s);
    if s.pos <= k {
      Shared(tokens, others, k, s);
      ExpectLocal(tokens, others, k, s, LParen, ExpectParenAfterFunctionName);
      var begin := Expect(tokens, s, LParen, ExpectParenAfterFunctionName);
      if begin.Done? {
        ParametersLater(tokens, others, k, begin.state);
        var ps := ParseParameters(tokens, begin.state);
        if ps == ParseParameters(others, begin.state) && ps.Done? && ps.state.pos <= k {
          OutputsLater(tokens, others, k, ps.state);
          var os := ParseOutputs(tokens, ps.state);
          if os == ParseOutputs(others, ps.state) && os.Done? && os.state.pos <= k {
            ExpectLocal(tokens, others, k, os.state, LBrace, ExpectBraceBeforeFunctionBody);
          }
        }
      }
    }
  }

  lemma AccessLocal(tokens: seq<Token>, others: seq<Token>, k: nat, s: State)
    requires Share(tokens, others, k) && s.pos <= k && Live(tokens, s) && Live(others, s)
    ensures ParseAccess(tokens, s) == ParseAccess(others, s)
  {
    hide Share, EndsInOnlyEndOfFile;
    Shared(tokens, others, k, s);
  }

  lemma {:induction false} DefinitionLocal(tokens: seq<Token>, others: seq<Token>, k: nat, s: State)
    requires Share(tokens, others, k) && s.pos <= k && Live(tokens, s) && Live(others, s)
    ensures var r, q := ParseDefinition(tokens, s), ParseDefinition(others, s);
            (r == q && r.state.pos <= k) || (r.state.pos > k && q.state.pos > k)
  {
    hide Share, EndsInOnlyEndOfFile, NamesNotEmpty, ParseDefinition, ParseSignature, ParseBlock, ParseAccess, Accounts;
    DefinitionCases(tokens, s);
    DefinitionCases(others, s);
    Shared(tokens, others, k, s);
    AccessLocal(tokens, others, k, s);
    var s1 := ParseAccess(tokens, s).1;
    if s1.pos <= k {
      Shared(tokens, others, k, s1);
      if Kind(tokens, s1) == Identifier {
        var s2 := Advance(tokens, s1);
        SignatureLater(tokens, others, k, s2);
        var signature := ParseSignature(tokens, s2);
        if signature == ParseSignature(others, s2) && signature.Done? && signature.state.pos <= k {
          BlockLater(tokens, others, k, signature.state);
        } else {
          BodyMoves(tokens, s2);
          BodyMoves(others, s2);
        }
      }
    } else {
      BodyMoves(tokens, Advance(tokens, s1));
      BodyMoves(others, Advance(others, s1));
    }
  }

  lemma BodyMoves(tokens: seq<Token>, s: State)
    requires Live(tokens, s)
    ensures var signature := ParseSignature(tokens, s);
            && s.pos <= signature.state.pos
            && (signature.Done? ==>
                  && Live(tokens, signature.state)
                  && signature.state.pos <= ParseBlock(tokens, signature.state).1.pos)
  {
    hide EndsInOnlyEndOfFile, NamesNotEmpty, ParseSignature, ParseBlock;
  }
}
