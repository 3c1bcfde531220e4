/** Whatever the parser returns is a tree of the language, and if no error was caught on the way, the tokens it
    passed are a spelling of that tree. */
module ParserSoundness {
  import opened Tokens
  import opened Ast
  import opened Grammar
  import opened ParserSpec

  /** `e` was read between the states `s` and `t`. */
  ghost predicate Reads(tokens: seq<Token>, s: State, e: Expr, t: State)
    requires s.pos < |tokens| && t.pos < |tokens|
  {
    && Shaped(e)
    && e.offset == tokens[s.pos].offset
    && (StartsWithBlock(e) ==> tokens[s.pos].kind == LBrace)
    && CanPrecede(e, tokens[t.pos].kind)
    && (t.caught == s.caught ==> SpelledBetween(Print(e), tokens, s, t))
  }

  ghost predicate SpelledBetween(pieces: seq<Piece>, tokens: seq<Token>, s: State, t: State) {
    Spelled(pieces, tokens, s.pos) && t.pos == s.pos + |pieces|
  }

  /** An operator of level `next` cannot reach into `e`. */
  ghost predicate Settled(e: Expr, next: Precedence) {
    && (e.Binary? ==> next <= AssociativityPrecedence(e.op))
    && (IsPrefix(e) ==> next <= PREFIX)
  }

  /** A binary operator at the root of `e` binds tighter than `p`. */
  ghost predicate Above(e: Expr, p: Precedence) {
    e.Binary? ==> p < AssociativityPrecedence(e.op)
  }

  lemma Join(a: seq<Piece>, b: seq<Piece>, tokens: seq<Token>, s: State, t: State, u: State)
    requires SpelledBetween(a, tokens, s, t) && SpelledBetween(b, tokens, t, u)
    ensures SpelledBetween(a + b, tokens, s, u)
  {
    SpelledConcat(a, b, tokens, s.pos);
  }

  lemma One(piece: Piece, tokens: seq<Token>, s: State, t: State)
    requires s.pos < |tokens| && t.pos == s.pos + 1 && Fits(piece, tokens, s.pos)
    ensures SpelledBetween([piece], tokens, s, t)
  {
  }

  /** `parse_expression(p)` stops before a token that binds no tighter than `p`, and returns a tree of the language. */
  lemma {:induction false} ExpressionSound(tokens: seq<Token>, s: State, p: Precedence)
    requires Live(tokens, s) && p <= PREFIX
    ensures var r := ParseExpression(tokens, s, p);
            r.Done? ==>
              && Reads(tokens, s, r.value, r.state)
              && Above(r.value, p)
              && NextTailRule(tokens, r.state).precedence <= p
    decreases |tokens| - s.pos, 4
  {
    hide LookupTailRule, HeadRule, ParseHead, ParseTails, ParseTail, ParseList, ParseStatement, ParseBlock,
         RecoverAtStatementLevel, EndsInOnlyEndOfFile, ShiftAhead, UnaryToken, BinaryToken, Spelled;
    if IsHead(Kind(tokens, s)) {
      HeadSound(tokens, s);
      var h := ParseHead(tokens, s);
      if h.Done? {
        TailsSound(tokens, s, h.state, p, h.value);
      }
    }
  }

  lemma {:induction false} HeadSound(tokens: seq<Token>, s: State)
    requires Live(tokens, s) && IsHead(Kind(tokens, s))
    ensures var r := ParseHead(tokens, s);
            r.Done? ==>
              && Reads(tokens, s, r.value, r.state)
              && !r.value.Binary?
              && Settled(r.value, NextTailRule(tokens, r.state).precedence)
              && (r.value.Block? <==> Kind(tokens, s) == LBrace)
    decreases |tokens| - s.pos, 3
  {
    hide LookupTailRule, HeadRule, ParseExpression, ParseTails, ParseTail, ParseList, ParseStatement, ParseBlock,
         RecoverAtStatementLevel, EndsInOnlyEndOfFile, ShiftAhead, UnaryToken, BinaryToken, Spelled,
         AssociativityPrecedence;
    var token := tokens[s.pos];
    var s1 := Advance(tokens, s);
    var r := ParseHead(tokens, s);
    HeadPrintsBack(token.kind);
    match HeadRule(token.kind)
    case IdentHead => One(Text(Identifier, token.offset, token.length), tokens, s, s1);
    case LiteralHead(kind) => One(Text(token.kind, token.offset, token.length), tokens, s, s1);
    case BlockHead =>
      BlockSound(tokens, s1);
      var (statements, s2) := ParseBlock(tokens, s1);
      if s2.caught == s1.caught {
        One(MarkAt(LBrace, token.offset), tokens, s, s1);
        Join([MarkAt(LBrace, token.offset)], PrintBlock(statements), tokens, s, s1, s2);
      }
    case ReturnHead => ReturnSound(tokens, s);
    case PrefixHead(op) => PrefixSound(tokens, s, op);
  }

  lemma {:induction false} ReturnSound(tokens: seq<Token>, s: State)
    requires Live(tokens, s) && HeadRule(Kind(tokens, s)) == ReturnHead
    ensures var r := ParseHead(tokens, s);
            r.Done? ==> r.value.Return? && Reads(tokens, s, r.value, r.state)
    decreases |tokens| - s.pos, 2
  {
    hide LookupTailRule, HeadRule, ParseExpression, ParseTails, ParseTail, ParseList, ParseStatement, ParseBlock,
         EndsInOnlyEndOfFile, ShiftAhead, Reads, Shaped, Print;
    HeadPrintsBack(Kind(tokens, s));
    var s1 := Advance(tokens, s);
    if IsHead(Kind(tokens, s1)) {
      ListSound(tokens, s1);
      var r := ParseList(tokens, s1);
      if r.Done? {
        ReturnReads(tokens, s, s1, r.value, r.state);
      }
    } else {
      ReturnReads(tokens, s, s1, [], s1);
    }
  }

  lemma ReturnReads(tokens: seq<Token>, s: State, s1: State, values: seq<Expr>, t: State)
    requires s.pos < |tokens| && t.pos < |tokens| && s1.pos == s.pos + 1 && s.caught == s1.caught <= t.caught
    requires Kind(tokens, s) == KwReturn && ShapedList(values)
    requires CanPrecede(Return(tokens[s.pos].offset, values), Kind(tokens, t))
    requires t.caught == s1.caught ==> SpelledBetween(PrintList(values), tokens, s1, t)
    ensures Reads(tokens, s, Return(tokens[s.pos].offset, values), t)
  {
    hide HeadRule, LookupTailRule, Spelled, ShapedList, PrintList, CanPrecede;
    var piece := MarkAt(KwReturn, tokens[s.pos].offset);
    One(piece, tokens, s, s1);
    if t.caught == s1.caught {
      Join([piece], PrintList(values), tokens, s, s1, t);
    }
  }

  lemma {:induction false} PrefixSound(tokens: seq<Token>, s: State, op: UnaryOperator)
    requires Live(tokens, s) && HeadRule(Kind(tokens, s)) == PrefixHead(op)
    ensures var r := ParseHead(tokens, s);
            r.Done? ==> Reads(tokens, s, r.value, r.state) && Settled(r.value, NextTailRule(tokens, r.state).precedence)
    decreases |tokens| - s.pos, 2
  {
    hide LookupTailRule, HeadRule, ParseExpression, ParseTails, ParseTail, ParseList, ParseStatement, ParseBlock,
         RecoverAtStatementLevel, EndsInOnlyEndOfFile, ShiftAhead, UnaryToken, BinaryToken, Spelled;
    var s1 := Advance(tokens, s);
    HeadPrintsBack(Kind(tokens, s));
    ExpressionSound(tokens, s1, PREFIX);
    var r := ParseExpression(tokens, s1, PREFIX);
    if r.Done? {
      if r.value.Binary? {
        TablesAgree(BinaryToken(r.value.op), r.value.op == Shr);
        OperatorReadsBack(r.value.op, r.value.op == Shr);
      }
      if r.state.caught == s.caught {
        var piece := MarkAt(UnaryToken(op), tokens[s.pos].offset);
        One(piece, tokens, s, s1);
        Join([piece], Print(r.value), tokens, s, s1, r.state);
      }
    }
  }

  /** The loop over tail functions: `e` was read from `s0` to `s`. */
  lemma {:induction false} TailsSound(tokens: seq<Token>, s0: State, s: State, p: Precedence, e: Expr)
    requires Live(tokens, s) && s0.pos < |tokens| && s0.caught <= s.caught && p <= PREFIX
    requires Reads(tokens, s0, e, s) && Above(e, p) && Settled(e, NextTailRule(tokens, s).precedence)
    ensures var r := ParseTails(tokens, s, p, e);
            r.Done? ==>
              && Reads(tokens, s0, r.value, r.state)
              && Above(r.value, p)
              && NextTailRule(tokens, r.state).precedence <= p
    decreases |tokens| - s.pos, 3
  {
    hide LookupTailRule, HeadRule, ParseExpression, ParseHead, ParseTail, ParseList, ParseStatement, ParseBlock,
         RecoverAtStatementLevel, EndsInOnlyEndOfFile, ShiftAhead, Shaped, Print, CanPrecede, StartsWithBlock,
         Spelled;
    var rule := NextTailRule(tokens, s);
    if p < rule.precedence {
      TablesAgree(Kind(tokens, s), ShiftAhead(tokens, s));
      TailSound(tokens, s0, s, e);
      var r := ParseTail(tokens, s, rule.tail, e);
      if r.Done? {
        TailsSound(tokens, s0, r.state, p, r.value);
      }
    }
  }

  lemma {:induction false} TailSound(tokens: seq<Token>, s0: State, s: State, e: Expr)
    requires Live(tokens, s) && s0.pos < |tokens| && s0.caught <= s.caught
    requires Reads(tokens, s0, e, s) && Settled(e, NextTailRule(tokens, s).precedence)
    requires NextTailRule(tokens, s).tail != NoTail
    ensures var rule := NextTailRule(tokens, s);
            var r := ParseTail(tokens, s, rule.tail, e);
            r.Done? ==>
              && Reads(tokens, s0, r.value, r.state)
              && Settled(r.value, NextTailRule(tokens, r.state).precedence)
              && (r.value.Binary? ==> AssociativityPrecedence(r.value.op) == rule.precedence)
    decreases |tokens| - s.pos, 2
  {
    hide LookupTailRule, HeadRule, ParseExpression, ParseHead, ParseTails, ParseTail, ParseList, ParseStatement,
         ParseBlock, RecoverAtStatementLevel, Reads, EndsInOnlyEndOfFile, ShiftAhead;
    TablesAgree(Kind(tokens, s), ShiftAhead(tokens, s));
    match NextTailRule(tokens, s).tail
    case InfixTail(op) => InfixSound(tokens, s0, s, op, e);
    case PostfixTail(op) => PostfixSound(tokens, s0, s, op, e);
    case CallTail => CallSound(tokens, s0, s, e);
  }

  lemma {:induction false} InfixSound(tokens: seq<Token>, s0: State, s: State, op: BinaryOperator, e: Expr)
    requires Live(tokens, s) && s0.pos < |tokens| && s0.caught <= s.caught
    requires Reads(tokens, s0, e, s) && Settled(e, NextTailRule(tokens, s).precedence)
    requires NextTailRule(tokens, s).tail == InfixTail(op)
    ensures var r := ParseTail(tokens, s, InfixTail(op), e);
            r.Done? ==>
              && r.value.Binary? && r.value.op == op
              && Reads(tokens, s0, r.value, r.state)
              && Settled(r.value, NextTailRule(tokens, r.state).precedence)
    decreases |tokens| - s.pos, 1
  {
    hide LookupTailRule, ParseExpression, ParseTail, BinaryToken, Reads, EndsInOnlyEndOfFile, ShiftAhead, Spelled,
         Accounts, AssociativityPrecedence;
    TablesAgree(Kind(tokens, s), ShiftAhead(tokens, s));
    OperatorSound(tokens, s, op);
    var s2 := OperatorEnd(tokens, s, op);
    ExpressionSound(tokens, s2, AssociativityPrecedence(op));
    ExpressionMoves(tokens, s2, AssociativityPrecedence(op));
    InfixCases(tokens, s, op, e);
    var r := ParseExpression(tokens, s2, AssociativityPrecedence(op));
    if r.Done? {
      BinaryReads(tokens, s0, s, op, e, s2, r.value, r.state);
    }
  }

  lemma OperatorSound(tokens: seq<Token>, s: State, op: BinaryOperator)
    requires Live(tokens, s) && NextTailRule(tokens, s).tail == InfixTail(op)
    ensures Kind(tokens, s) == BinaryToken(op) && s.pos < OperatorEnd(tokens, s, op).pos
    ensures SpelledBetween(PrintOperator(op), tokens, s, OperatorEnd(tokens, s, op))
  {
    hide BinaryToken, LookupTailRule, ShiftAhead, EndsInOnlyEndOfFile, OperatorEnd, PrintOperator, SpelledBetween;
    TablesAgree(Kind(tokens, s), ShiftAhead(tokens, s));
    OperatorPrintsBack(Kind(tokens, s), ShiftAhead(tokens, s));
    ShiftIsAngle(op);
    if op == Shr {
      ShiftSpelled(tokens, s);
    } else {
      OperatorSpelled(tokens, s, op);
    }
  }

  lemma ShiftSpelled(tokens: seq<Token>, s: State)
    requires Live(tokens, s) && Kind(tokens, s) == RAngle && ShiftAhead(tokens, s)
    ensures SpelledBetween(PrintOperator(Shr), tokens, s, OperatorEnd(tokens, s, Shr))
  {
    hide EndsInOnlyEndOfFile;
  }

  lemma OperatorSpelled(tokens: seq<Token>, s: State, op: BinaryOperator)
    requires Live(tokens, s) && op != Shr && Kind(tokens, s) == BinaryToken(op) != EndOfFile
    ensures SpelledBetween(PrintOperator(op), tokens, s, OperatorEnd(tokens, s, op))
  {
    hide BinaryToken, EndsInOnlyEndOfFile;
  }

  lemma ShiftIsAngle(op: BinaryOperator)
    ensures op == Shr ==> BinaryToken(op) == RAngle
  {
  }

  lemma BinaryReads(tokens: seq<Token>, s0: State, s: State, op: BinaryOperator, left: Expr,
                    s2: State, right: Expr, t: State)
    requires s0.pos < |tokens| && s.pos < |tokens| && s2.pos < |tokens| && t.pos < |tokens|
    requires s0.caught <= s.caught == s2.caught <= t.caught
    requires Reads(tokens, s0, left, s) && SpelledBetween(PrintOperator(op), tokens, s, s2)
             && Reads(tokens, s2, right, t)
    requires Settled(left, AssociativityPrecedence(op)) && Above(right, AssociativityPrecedence(op))
    requires Kind(tokens, s) == BinaryToken(op)
    ensures Reads(tokens, s0, Binary(left.offset, op, left, right), t)
  {
    hide HeadRule, LookupTailRule, BinaryToken, AssociativityPrecedence, Spelled, PrintOperator;
    if t.caught == s0.caught {
      Join(PrintOperator(op), Print(right), tokens, s, s2, t);
      Join(Print(left), PrintOperator(op) + Print(right), tokens, s0, s, t);
    }
  }

  lemma {:induction false} PostfixSound(tokens: seq<Token>, s0: State, s: State, op: UnaryOperator, e: Expr)
    requires Live(tokens, s) && s0.pos < |tokens| && s0.caught <= s.caught
    requires Reads(tokens, s0, e, s) && Settled(e, NextTailRule(tokens, s).precedence)
    requires NextTailRule(tokens, s).tail == PostfixTail(op)
    ensures var r := ParseTail(tokens, s, PostfixTail(op), e);
            && r.Done? && !r.value.Binary?
            && Reads(tokens, s0, r.value, r.state)
            && Settled(r.value, NextTailRule(tokens, r.state).precedence)
  {
    hide LookupTailRule, HeadRule, ParseExpression, ParseHead, ParseTails, ParseList, ParseStatement, ParseBlock,
         RecoverAtStatementLevel, EndsInOnlyEndOfFile, ShiftAhead, Reads, UnaryToken, Spelled;
    TablesAgree(Kind(tokens, s), ShiftAhead(tokens, s));
    PostfixPrintsBack(Kind(tokens, s), ShiftAhead(tokens, s));
    LevelBelowPrefix(e);
    PostfixReads(tokens, s0, s, op, e, Advance(tokens, s));
  }

  lemma PostfixReads(tokens: seq<Token>, s0: State, s: State, op: UnaryOperator, e: Expr, s1: State)
    requires s0.pos < |tokens| && s.pos < |tokens| && s1.pos == s.pos + 1 < |tokens|
    requires s0.caught <= s.caught == s1.caught
    requires Reads(tokens, s0, e, s) && IsTarget(e) && !IsPrefixOperator(op) && Kind(tokens, s) == UnaryToken(op)
    ensures Reads(tokens, s0, Unary(e.offset, op, e), s1)
  {
    hide UnaryToken, Spelled;
    if s.caught == s0.caught {
      One(Mark(UnaryToken(op)), tokens, s, s1);
      Join(Print(e), [Mark(UnaryToken(op))], tokens, s0, s, s1);
    }
  }

  lemma {:induction false} CallSound(tokens: seq<Token>, s0: State, s: State, e: Expr)
    requires Live(tokens, s) && s0.pos < |tokens| && s0.caught <= s.caught
    requires Reads(tokens, s0, e, s) && Settled(e, NextTailRule(tokens, s).precedence)
    requires NextTailRule(tokens, s).tail == CallTail
    ensures var r := ParseTail(tokens, s, CallTail, e);
            r.Done? ==> r.value.Call? && Reads(tokens, s0, r.value, r.state)
    decreases |tokens| - s.pos, 1
  {
    hide LookupTailRule, ParseTail, ParseList, Expect, EndsInOnlyEndOfFile, ShiftAhead, Reads, Spelled, SpelledBetween,
         Accounts, ShapedList, PrintList, Settled, IsTarget;
    CalleeIsTarget(tokens, s, e);
    CallCases(tokens, s, e);
    var s1 := Advance(tokens, s);
    var r := ParseTail(tokens, s, CallTail, e);
    if r.Done? {
      if Kind(tokens, s1) == RParen {
        NothingPrinted();
        assert PrintList([]) + [Mark(RParen)] == [Mark(RParen)];
        One(Mark(RParen), tokens, s1, r.state);
      } else {
        ArgumentsSound(tokens, s1);
      }
      CallReads(tokens, s0, s, e, s1, r.value.args, r.state);
    }
  }

  lemma CalleeIsTarget(tokens: seq<Token>, s: State, e: Expr)
    requires Live(tokens, s) && NextTailRule(tokens, s).tail == CallTail
             && Settled(e, NextTailRule(tokens, s).precedence)
    ensures IsTarget(e) && Kind(tokens, s) == LParen
  {
    hide LookupTailRule, EndsInOnlyEndOfFile, ShiftAhead;
    TablesAgree(Kind(tokens, s), ShiftAhead(tokens, s));
    PostfixPrintsBack(Kind(tokens, s), ShiftAhead(tokens, s));
    LevelBelowPrefix(e);
  }

  lemma {:induction false} ArgumentsSound(tokens: seq<Token>, s: State)
    requires Live(tokens, s) && ParseList(tokens, s).Done?
    ensures var list := ParseList(tokens, s);
            var closing := Expect(tokens, list.state, RParen, ExpectClosingParenInCall);
            && ShapedList(list.value) && s.caught <= closing.state.caught
            && (closing.Done? && closing.state.caught == s.caught ==>
                  SpelledBetween(PrintList(list.value) + [Mark(RParen)], tokens, s, closing.state))
    decreases |tokens| - s.pos, 6
  {
    hide ParseList, EndsInOnlyEndOfFile, Spelled, Accounts, ShapedList, PrintList, Expect, CanPrecede;
    ListSound(tokens, s);
    ListMoves(tokens, s);
    var list := ParseList(tokens, s);
    var closing := Expect(tokens, list.state, RParen, ExpectClosingParenInCall);
    if closing.Done? && closing.state.caught == s.caught {
      One(Mark(RParen), tokens, list.state, closing.state);
      Join(PrintList(list.value), [Mark(RParen)], tokens, s, list.state, closing.state);
    }
  }

  lemma NothingPrinted()
    ensures PrintList([]) == [] && ShapedList([])
  {
  }

  lemma CallReads(tokens: seq<Token>, s0: State, s: State, e: Expr, s1: State, args: seq<Expr>, t: State)
    requires s0.pos < |tokens| && s.pos < |tokens| && t.pos < |tokens|
    requires s0.caught <= s.caught == s1.caught <= t.caught
    requires Reads(tokens, s0, e, s) && IsTarget(e) && Kind(tokens, s) == LParen && s1.pos == s.pos + 1
    requires ShapedList(args)
    requires t.caught == s1.caught ==> SpelledBetween(PrintList(args) + [Mark(RParen)], tokens, s1, t)
    ensures Reads(tokens, s0, Call(e.offset, e, args), t)
  {
    hide HeadRule, LookupTailRule, Spelled, ShapedList, PrintList;
    One(Mark(LParen), tokens, s, s1);
    if t.caught == s0.caught {
      Join([Mark(LParen)], PrintList(args) + [Mark(RParen)], tokens, s, s1, t);
      Join(Print(e), [Mark(LParen)] + (PrintList(args) + [Mark(RParen)]), tokens, s0, s, t);
    }
  }

  lemma LevelBelowPrefix(e: Expr)
    ensures e.Binary? ==> AssociativityPrecedence(e.op) < PREFIX
  {
    if e.Binary? {
      OperatorReadsBack(e.op, e.op == Shr);
      TablesAgree(BinaryToken(e.op), e.op == Shr);
    }
  }

  lemma {:induction false} ListSound(tokens: seq<Token>, s: State)
    requires Live(tokens, s)
    ensures var r := ParseList(tokens, s);
            r.Done? ==>
              && r.value != [] && ShapedList(r.value)
              && CanPrecede(r.value[|r.value| - 1], Kind(tokens, r.state))
              && !IsTail(Kind(tokens, r.state)) && Kind(tokens, r.state) != Comma
              && (r.state.caught == s.caught ==> SpelledBetween(PrintList(r.value), tokens, s, r.state))
    decreases |tokens| - s.pos, 5
  {
    hide LookupTailRule, ParseExpression, ParseList, EndsInOnlyEndOfFile, ShiftAhead, Spelled, Accounts, Shaped, Print,
         CanPrecede;
    ExpressionSound(tokens, s, STATEMENT);
    ExpressionMoves(tokens, s, STATEMENT);
    ListCases(tokens, s);
    var first := ParseExpression(tokens, s, STATEMENT);
    var r := ParseList(tokens, s);
    if first.Done? {
      var s1 := first.state;
      TablesAgree(Kind(tokens, s1), ShiftAhead(tokens, s1));
      if Kind(tokens, s1) == Comma {
        var s2 := Advance(tokens, s1);
        ListSound(tokens, s2);
        ListMoves(tokens, s2);
        var rest := ParseList(tokens, s2);
        if rest.Done? {
          assert r.value[1..] == rest.value;
          assert r.value[|r.value| - 1] == rest.value[|rest.value| - 1];
          if r.state.caught == s.caught {
            One(Mark(Comma), tokens, s1, s2);
            Join([Mark(Comma)], PrintList(rest.value), tokens, s1, s2, r.state);
            Join(Print(first.value), [Mark(Comma)] + PrintList(rest.value), tokens, s, s1, r.state);
          }
        }
      }
    }
  }

  lemma {:induction false} StatementSound(tokens: seq<Token>, s: State)
    requires Live(tokens, s)
    ensures var r := ParseStatement(tokens, s);
            r.Done? ==>
              && Shaped(r.value)
              && (StartsWithBlock(r.value) ==> r.value.Block?)
              && (r.state.caught == s.caught ==> SpelledBetween(PrintStatement(r.value), tokens, s, r.state))
    decreases |tokens| - s.pos, 5
  {
    hide LookupTailRule, ParseExpression, ParseHead, ParseTails, ParseTail, ParseList, ParseBlock,
         RecoverAtStatementLevel, EndsInOnlyEndOfFile, ShiftAhead, UnaryToken, BinaryToken, Spelled;
    if Kind(tokens, s) == LBrace {
      assert HeadRule(LBrace) == BlockHead;
      HeadSound(tokens, s);
    } else {
      ExpressionSound(tokens, s, STATEMENT);
      var e := ParseExpression(tokens, s, STATEMENT);
      var r := ParseStatement(tokens, s);
      if r.Done? && r.state.caught == s.caught {
        One(Mark(Semicolon), tokens, e.state, r.state);
        Join(Print(e.value), [Mark(Semicolon)], tokens, s, e.state, r.state);
      }
    }
  }

  lemma {:induction false} BlockSound(tokens: seq<Token>, s: State)
    requires Live(tokens, s)
    ensures var r := ParseBlock(tokens, s);
            && ShapedBlock(r.0)
            && (r.1.caught == s.caught ==> SpelledBetween(PrintBlock(r.0), tokens, s, r.1))
    decreases |tokens| - s.pos, 6
  {
    hide ParseBlock, ParseStatement, RecoverAtStatementLevel, Accounts, EndsInOnlyEndOfFile, Shaped, Print,
         PrintStatement, StartsWithBlock, Spelled;
    var r := ParseBlock(tokens, s);
    if Kind(tokens, s) == RBrace {
      BlockCloses(tokens, s);
      One(Mark(RBrace), tokens, s, r.1);
    } else {
      StatementSound(tokens, s);
      match ParseStatement(tokens, s)
      case Done(e, s1) =>
        BlockGoesOn(tokens, s, e, s1);
        BlockMoves(tokens, s1);
        BlockSound(tokens, s1);
        var rest := ParseBlock(tokens, s1);
        assert r.0[1..] == rest.0;
        if r.1.caught == s.caught {
          Join(PrintStatement(e), PrintBlock(rest.0), tokens, s, s1, r.1);
        }
      case Thrown(s1) =>
        var (atEnd, s2) := RecoverAtStatementLevel(tokens, s1.(caught := s1.caught + 1));
        RecoveryMoves(tokens, s, s1, atEnd, s2);
        BlockRecovers(tokens, s, s1, atEnd, s2);
        if !atEnd {
          BlockMoves(tokens, s2);
          BlockSound(tokens, s2);
        }
    }
  }
}
