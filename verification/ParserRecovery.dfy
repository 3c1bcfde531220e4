/** What error recovery keeps: whatever errors are caught, every token of every tree in the result is found in the
    token list, in order. Only a closing brace can be missing, at the end of the file. */
module ParserRecovery {
  import opened Tokens
  import opened Ast
  import opened Grammar
  import opened ParserSpec
  import opened ParserSoundness
  import opened ParserCompleteness
  import opened ParserPrograms
  import opened ParserReports

  // ---------------------------------------------------------------- pieces found in order

  /** The pieces are found between the positions `i` and `j`, in order, with any tokens between them. */
  ghost predicate Embeds(ps: seq<Piece>, tokens: seq<Token>, i: nat, j: nat)
    decreases |ps|
  {
    if ps == [] then i <= j
    else
      || (exists k: nat :: FoundAt(ps, tokens, i, j, k))
      || (ps[0] == Mark(RBrace) && i < |tokens| <= j + 1 && Embeds(ps[1..], tokens, |tokens| - 1, j))
  }

  /** The first piece is the token at `k`, and the others are found behind it. */
  ghost predicate FoundAt(ps: seq<Piece>, tokens: seq<Token>, i: nat, j: nat, k: nat)
    requires ps != []
    decreases |ps|, 0
  {
    i <= k < j && k < |tokens| && Fits(ps[0], tokens, k) && Embeds(ps[1..], tokens, k + 1, j)
  }

  lemma {:induction false} EmbedsForward(ps: seq<Piece>, tokens: seq<Token>, i: nat, j: nat)
    requires Embeds(ps, tokens, i, j)
    ensures i <= j
    decreases |ps|
  {
    hide Fits;
  }

  /** Pieces that are found in a part are found in the whole. */
  lemma {:induction false} EmbedsWider(ps: seq<Piece>, tokens: seq<Token>, i: nat, j: nat, h: nat, l: nat)
    requires Embeds(ps, tokens, i, j) && h <= i && j <= l
    ensures Embeds(ps, tokens, h, l)
    decreases |ps|
  {
    hide Fits;
    if ps != [] {
      if k: nat :| FoundAt(ps, tokens, i, j, k) {
        EmbedsWider(ps[1..], tokens, k + 1, j, k + 1, l);
        assert FoundAt(ps, tokens, h, l, k);
      } else {
        EmbedsWider(ps[1..], tokens, |tokens| - 1, j, |tokens| - 1, l);
      }
    }
  }

  lemma {:induction false} EmbedsJoin(a: seq<Piece>, b: seq<Piece>, tokens: seq<Token>, i: nat, m: nat, j: nat)
    requires Embeds(a, tokens, i, m) && Embeds(b, tokens, m, j)
    ensures Embeds(a + b, tokens, i, j)
    decreases |a|
  {
    hide Fits;
    EmbedsForward(b, tokens, m, j);
    if a == [] {
      assert a + b == b;
      EmbedsWider(b, tokens, m, j, i, j);
    } else {
      assert (a + b)[1..] == a[1..] + b;
      if k: nat :| FoundAt(a, tokens, i, m, k) {
        EmbedsJoin(a[1..], b, tokens, k + 1, m, j);
        assert FoundAt(a + b, tokens, i, j, k);
      } else {
        EmbedsJoin(a[1..], b, tokens, |tokens| - 1, m, j);
      }
    }
  }

  /** The token at `i` is passed. */
  lemma EmbedsOne(piece: Piece, tokens: seq<Token>, i: nat, j: nat)
    requires i < |tokens| && i < j && Fits(piece, tokens, i)
    ensures Embeds([piece], tokens, i, j)
  {
    hide Fits;
    assert [piece][1..] == [];
    assert FoundAt([piece], tokens, i, j, i);
  }

  /** A spelling is the special case with no tokens between. */
  lemma {:induction false} SpelledEmbeds(ps: seq<Piece>, tokens: seq<Token>, i: nat)
    requires Spelled(ps, tokens, i)
    ensures Embeds(ps, tokens, i, i + |ps|)
    decreases |ps|
  {
    if ps != [] {
      assert ps == [ps[0]] + ps[1..];
      SpelledConcat([ps[0]], ps[1..], tokens, i);
      SpelledEmbeds(ps[1..], tokens, i + 1);
      assert Fits(ps[0], tokens, i + 0);
      assert FoundAt(ps, tokens, i, i + |ps|, i);
    }
  }

  /** Every node begins where the first of its tokens does. */
  lemma {:induction false} NodeBeginsAtFirstPiece(e: Expr)
    requires Shaped(e)
    ensures Print(e) != [] && (Print(e)[0].Text? || Print(e)[0].MarkAt?) && Print(e)[0].offset == e.offset
  {
    hide BinaryToken, UnaryToken, LiteralToken, AssociativityPrecedence, CanPrecede, PrintList, PrintBlock;
    match e
    case Unary(_, op, operand) => NodeBeginsAtFirstPiece(operand);
    case Binary(_, _, left, _) => NodeBeginsAtFirstPiece(left);
    case Call(_, callee, _) => NodeBeginsAtFirstPiece(callee);
    case _ =>
  }

  // ---------------------------------------------------------------- expressions

  /** The tokens of `e` are found between two states. */
  ghost predicate Found(e: Expr, tokens: seq<Token>, s: State, t: State) {
    Embeds(Print(e), tokens, s.pos, t.pos)
  }

  lemma {:induction false} ExpressionFound(tokens: seq<Token>, s: State, p: Precedence)
    requires Live(tokens, s)
    ensures var r := ParseExpression(tokens, s, p);
            r.Done? ==> Found(r.value, tokens, s, r.state)
    decreases |tokens| - s.pos, 4
  {
    hide LookupTailRule, HeadRule, ParseHead, ParseTails, ParseTail, ParseList, ParseStatement, ParseBlock,
         RecoverAtStatementLevel, EndsInOnlyEndOfFile, ShiftAhead, Found, Accounts;
    if IsHead(Kind(tokens, s)) {
      HeadFound(tokens, s);
      var h := ParseHead(tokens, s);
      if h.Done? {
        HeadMoves(tokens, s);
        TailsFound(tokens, s, h.state, p, h.value);
      }
    }
  }

  lemma HeadMoves(tokens: seq<Token>, s: State)
    requires Live(tokens, s) && IsHead(Kind(tokens, s))
    ensures s.pos < ParseHead(tokens, s).state.pos < |tokens|
  {
    hide ParseHead, HeadRule;
  }

  lemma {:induction false} HeadFound(tokens: seq<Token>, s: State)
    requires Live(tokens, s) && IsHead(Kind(tokens, s))
    ensures var r := ParseHead(tokens, s);
            r.Done? ==> Found(r.value, tokens, s, r.state)
    decreases |tokens| - s.pos, 3
  {
    hide LookupTailRule, HeadRule, ParseExpression, ParseTails, ParseTail, ParseList, ParseStatement, ParseBlock,
         RecoverAtStatementLevel, EndsInOnlyEndOfFile, ShiftAhead, Embeds, UnaryToken, LiteralToken, Accounts,
         PrintList, PrintBlock;
    var token := tokens[s.pos];
    var s1 := Advance(tokens, s);
    var r := ParseHead(tokens, s);
    HeadPrintsBack(token.kind);
    match HeadRule(token.kind)
    case IdentHead => EmbedsOne(Text(Identifier, token.offset, token.length), tokens, s.pos, s1.pos);
    case LiteralHead(kind) => EmbedsOne(Text(token.kind, token.offset, token.length), tokens, s.pos, s1.pos);
    case BlockHead =>
      BlockFound(tokens, s1);
      var block := ParseBlock(tokens, s1);
      EmbedsOne(MarkAt(LBrace, token.offset), tokens, s.pos, s1.pos);
      EmbedsJoin([MarkAt(LBrace, token.offset)], PrintBlock(block.0), tokens, s.pos, s1.pos, block.1.pos);
    case ReturnHead =>
      EmbedsOne(MarkAt(KwReturn, token.offset), tokens, s.pos, s1.pos);
      if IsHead(Kind(tokens, s1)) {
        ListFound(tokens, s1);
        var values := ParseList(tokens, s1);
        if values.Done? {
          EmbedsJoin([MarkAt(KwReturn, token.offset)], PrintList(values.value), tokens, s.pos, s1.pos, values.state.pos);
        }
      } else {
        NothingPrinted();
        assert [MarkAt(KwReturn, token.offset)] + [] == [MarkAt(KwReturn, token.offset)];
      }
    case PrefixHead(op) =>
      ExpressionFound(tokens, s1, PREFIX);
      var operand := ParseExpression(tokens, s1, PREFIX);
      if operand.Done? {
        var piece := MarkAt(UnaryToken(op), token.offset);
        EmbedsOne(piece, tokens, s.pos, s1.pos);
        EmbedsJoin([piece], Print(operand.value), tokens, s.pos, s1.pos, operand.state.pos);
      }
  }

  lemma {:induction false} TailsFound(tokens: seq<Token>, s0: State, s: State, p: Precedence, e: Expr)
    requires Live(tokens, s) && Found(e, tokens, s0, s)
    ensures var r := ParseTails(tokens, s, p, e);
            r.Done? ==> Found(r.value, tokens, s0, r.state)
    decreases |tokens| - s.pos, 3
  {
    hide LookupTailRule, HeadRule, ParseExpression, ParseHead, ParseTail, ParseList, ParseStatement, ParseBlock,
         RecoverAtStatementLevel, EndsInOnlyEndOfFile, ShiftAhead, Found, Accounts;
    TablesAgree(Kind(tokens, s), ShiftAhead(tokens, s));
    var rule := NextTailRule(tokens, s);
    if p < rule.precedence {
      TailFound(tokens, s0, s, e);
      var t := ParseTail(tokens, s, rule.tail, e);
      if t.Done? {
        TailsFound(tokens, s0, t.state, p, t.value);
      }
    }
  }

  lemma {:induction false} TailFound(tokens: seq<Token>, s0: State, s: State, e: Expr)
    requires Live(tokens, s) && Found(e, tokens, s0, s) && NextTailRule(tokens, s).tail != NoTail
    ensures var r := ParseTail(tokens, s, NextTailRule(tokens, s).tail, e);
            r.Done? ==> Found(r.value, tokens, s0, r.state)
    decreases |tokens| - s.pos, 2
  {
    hide ParseTail, EndsInOnlyEndOfFile, NextTailRule, Found;
    match NextTailRule(tokens, s).tail
    case InfixTail(op) => InfixFound(tokens, s0, s, op, e);
    case PostfixTail(op) => PostfixFound(tokens, s0, s, op, e);
    case CallTail => CallFound(tokens, s0, s, e);
  }

  lemma {:induction false} InfixFound(tokens: seq<Token>, s0: State, s: State, op: BinaryOperator, e: Expr)
    requires Live(tokens, s) && Found(e, tokens, s0, s) && NextTailRule(tokens, s).tail == InfixTail(op)
    ensures var r := ParseTail(tokens, s, InfixTail(op), e);
            r.Done? ==> Found(r.value, tokens, s0, r.state)
    decreases |tokens| - s.pos, 1
  {
    hide ParseTail, ParseExpression, EndsInOnlyEndOfFile, NextTailRule, Embeds, Accounts, PrintOperator, Spelled,
         OperatorEnd, AssociativityPrecedence, BinaryToken;
    InfixCases(tokens, s, op, e);
    OperatorSound(tokens, s, op);
    SpelledEmbeds(PrintOperator(op), tokens, s.pos);
    var s2 := OperatorEnd(tokens, s, op);
    ExpressionFound(tokens, s2, AssociativityPrecedence(op));
    var right := ParseExpression(tokens, s2, AssociativityPrecedence(op));
    if right.Done? {
      EmbedsJoin(PrintOperator(op), Print(right.value), tokens, s.pos, s2.pos, right.state.pos);
      EmbedsJoin(Print(e), PrintOperator(op) + Print(right.value), tokens, s0.pos, s.pos, right.state.pos);
    }
  }

  lemma PostfixFound(tokens: seq<Token>, s0: State, s: State, op: UnaryOperator, e: Expr)
    requires Live(tokens, s) && Found(e, tokens, s0, s) && NextTailRule(tokens, s).tail == PostfixTail(op)
    ensures var r := ParseTail(tokens, s, PostfixTail(op), e);
            r.Done? ==> Found(r.value, tokens, s0, r.state)
  {
    hide LookupTailRule, EndsInOnlyEndOfFile, ShiftAhead, Embeds, Accounts, UnaryToken;
    PostfixPrintsBack(Kind(tokens, s), ShiftAhead(tokens, s));
    TablesAgree(Kind(tokens, s), ShiftAhead(tokens, s));
    var s1 := Advance(tokens, s);
    EmbedsOne(Mark(UnaryToken(op)), tokens, s.pos, s1.pos);
    EmbedsJoin(Print(e), [Mark(UnaryToken(op))], tokens, s0.pos, s.pos, s1.pos);
  }

  lemma CallAtParen(tokens: seq<Token>, s: State)
    requires Live(tokens, s) && NextTailRule(tokens, s).tail == CallTail
    ensures Kind(tokens, s) == LParen
  {
    hide LookupTailRule, EndsInOnlyEndOfFile, ShiftAhead;
    PostfixPrintsBack(Kind(tokens, s), ShiftAhead(tokens, s));
  }

  lemma {:induction false} CallFound(tokens: seq<Token>, s0: State, s: State, e: Expr)
    requires Live(tokens, s) && Found(e, tokens, s0, s) && NextTailRule(tokens, s).tail == CallTail
    ensures var r := ParseTail(tokens, s, CallTail, e);
            r.Done? ==> Found(r.value, tokens, s0, r.state)
    decreases |tokens| - s.pos, 1
  {
    hide LookupTailRule, ParseTail, ParseList, EndsInOnlyEndOfFile, ShiftAhead, Embeds, Found, Accounts, PrintList,
         Expect;
    CallAtParen(tokens, s);
    CallCases(tokens, s, e);
    hide NextTailRule;
    var s1 := Advance(tokens, s);
    var r := ParseTail(tokens, s, CallTail, e);
    if r.Done? {
      if Kind(tokens, s1) == RParen {
        NothingPrinted();
        assert PrintList([]) + [Mark(RParen)] == [Mark(RParen)];
        EmbedsOne(Mark(RParen), tokens, s1.pos, r.state.pos);
      } else {
        ArgumentsFound(tokens, s1);
      }
      CallIsFound(tokens, s0, s, e, s1, r.value.args, r.state);
    }
  }

  lemma {:induction false} ArgumentsFound(tokens: seq<Token>, s: State)
    requires Live(tokens, s) && ParseList(tokens, s).Done?
    ensures var list := ParseList(tokens, s);
            var closing := Expect(tokens, list.state, RParen, ExpectClosingParenInCall);
            && s.pos <= closing.state.pos
            && (closing.Done? ==> Embeds(PrintList(list.value) + [Mark(RParen)], tokens, s.pos, closing.state.pos))
    decreases |tokens| - s.pos, 6
  {
    hide ParseList, EndsInOnlyEndOfFile, Embeds, Accounts, PrintList, Expect;
    ListFound(tokens, s);
    ListMoves(tokens, s);
    var list := ParseList(tokens, s);
    var closing := Expect(tokens, list.state, RParen, ExpectClosingParenInCall);
    if closing.Done? {
      EmbedsOne(Mark(RParen), tokens, list.state.pos, closing.state.pos);
      EmbedsJoin(PrintList(list.value), [Mark(RParen)], tokens, s.pos, list.state.pos, closing.state.pos);
    }
  }

  lemma CallIsFound(tokens: seq<Token>, s0: State, s: State, e: Expr, s1: State, args: seq<Expr>, t: State)
    requires Found(e, tokens, s0, s) && s.pos < |tokens| && Kind(tokens, s) == LParen && s1.pos == s.pos + 1
    requires Embeds(PrintList(args) + [Mark(RParen)], tokens, s1.pos, t.pos)
    ensures Found(Call(e.offset, e, args), tokens, s0, t)
  {
    hide Embeds, PrintList;
    EmbedsOne(Mark(LParen), tokens, s.pos, s1.pos);
    EmbedsJoin([Mark(LParen)], PrintList(args) + [Mark(RParen)], tokens, s.pos, s1.pos, t.pos);
    EmbedsJoin(Print(e), [Mark(LParen)] + (PrintList(args) + [Mark(RParen)]), tokens, s0.pos, s.pos, t.pos);
  }

  lemma {:induction false} ListFound(tokens: seq<Token>, s: State)
    requires Live(tokens, s)
    ensures var r := ParseList(tokens, s);
            r.Done? ==> r.value != [] && Embeds(PrintList(r.value), tokens, s.pos, r.state.pos)
    decreases |tokens| - s.pos, 5
  {
    hide ParseExpression, ParseList, EndsInOnlyEndOfFile, Embeds, Accounts, Print;
    ExpressionFound(tokens, s, STATEMENT);
    ListCases(tokens, s);
    var first := ParseExpression(tokens, s, STATEMENT);
    var r := ParseList(tokens, s);
    if first.Done? {
      var s1 := first.state;
      if Kind(tokens, s1) == Comma {
        var s2 := Advance(tokens, s1);
        ListFound(tokens, s2);
        var rest := ParseList(tokens, s2);
        if rest.Done? {
          assert r.value[1..] == rest.value;
          EmbedsOne(Mark(Comma), tokens, s1.pos, s2.pos);
          EmbedsJoin([Mark(Comma)], PrintList(rest.value), tokens, s1.pos, s2.pos, r.state.pos);
          EmbedsJoin(Print(first.value), [Mark(Comma)] + PrintList(rest.value), tokens, s.pos, s1.pos, r.state.pos);
        }
      }
    }
  }

  // ---------------------------------------------------------------- statements

  /** Only a statement that begins with a brace is printed without a semicolon. */
  lemma StatementIsBlock(tokens: seq<Token>, s: State)
    requires Live(tokens, s)
    ensures var r := ParseStatement(tokens, s);
            r.Done? ==> (r.value.Block? <==> Kind(tokens, s) == LBrace)
  {
    hide LookupTailRule, HeadRule, ParseExpression, ParseHead, ParseTails, ParseTail, ParseList, ParseBlock, Accounts,
         RecoverAtStatementLevel, EndsInOnlyEndOfFile, ShiftAhead, Print, Shaped, CanPrecede, Settled, Above;
    if Kind(tokens, s) == LBrace {
      BraceIsHead();
      HeadSound(tokens, s);
    } else {
      ExpressionSound(tokens, s, STATEMENT);
    }
  }

  lemma BraceIsHead()
    ensures IsHead(LBrace)
  {
  }

  lemma {:induction false} StatementFound(tokens: seq<Token>, s: State)
    requires Live(tokens, s)
    ensures var r := ParseStatement(tokens, s);
            r.Done? ==> Embeds(PrintStatement(r.value), tokens, s.pos, r.state.pos)
    decreases |tokens| - s.pos, 5
  {
    hide LookupTailRule, HeadRule, ParseExpression, ParseHead, ParseTails, ParseTail, ParseList, ParseBlock, Embeds,
         Accounts, RecoverAtStatementLevel, EndsInOnlyEndOfFile, ShiftAhead, Print;
    StatementIsBlock(tokens, s);
    if Kind(tokens, s) == LBrace {
      BraceIsHead();
      HeadFound(tokens, s);
    } else {
      ExpressionFound(tokens, s, STATEMENT);
      var e := ParseExpression(tokens, s, STATEMENT);
      var r := ParseStatement(tokens, s);
      if r.Done? {
        EmbedsOne(Mark(Semicolon), tokens, e.state.pos, r.state.pos);
        EmbedsJoin(Print(e.value), [Mark(Semicolon)], tokens, s.pos, e.state.pos, r.state.pos);
      }
    }
  }

  /** The statements that a block keeps are found in it, behind any errors. */
  lemma {:induction false} BlockFound(tokens: seq<Token>, s: State)
    requires Live(tokens, s)
    ensures var r := ParseBlock(tokens, s);
            Embeds(PrintBlock(r.0), tokens, s.pos, r.1.pos)
    decreases |tokens| - s.pos, 6
  {
    hide ParseBlock, ParseStatement, RecoverAtStatementLevel, Accounts, EndsInOnlyEndOfFile, Embeds, PrintStatement;
    var r := ParseBlock(tokens, s);
    if Kind(tokens, s) == RBrace {
      BlockCloses(tokens, s);
      EmbedsOne(Mark(RBrace), tokens, s.pos, r.1.pos);
    } else {
      StatementFound(tokens, s);
      match ParseStatement(tokens, s)
      case Done(e, s1) =>
        BlockGoesOn(tokens, s, e, s1);
        BlockMoves(tokens, s1);
        BlockFound(tokens, s1);
        var rest := ParseBlock(tokens, s1);
        assert r.0[1..] == rest.0;
        EmbedsJoin(PrintStatement(e), PrintBlock(rest.0), tokens, s.pos, s1.pos, r.1.pos);
      case Thrown(s1) =>
        var (atEnd, s2) := RecoverAtStatementLevel(tokens, s1.(caught := s1.caught + 1));
        RecoveryMoves(tokens, s, s1, atEnd, s2);
        BlockRecovers(tokens, s, s1, atEnd, s2);
        if atEnd {
          BraceMissing(tokens, s.pos);
        } else {
          BlockMoves(tokens, s2);
          BlockFound(tokens, s2);
          EmbedsWider(PrintBlock(r.0), tokens, s2.pos, r.1.pos, s.pos, r.1.pos);
        }
    }
  }

  lemma BraceMissing(tokens: seq<Token>, i: nat)
    requires i < |tokens|
    ensures Embeds([Mark(RBrace)], tokens, i, |tokens| - 1)
  {
    assert [Mark(RBrace)][1..] == [];
    assert Embeds([], tokens, |tokens| - 1, |tokens| - 1);
  }

  // ---------------------------------------------------------------- definitions

  lemma {:induction false} DefinitionFound(tokens: seq<Token>, s: State)
    requires Live(tokens, s)
    ensures var r := ParseDefinition(tokens, s);
            r.Done? ==> Embeds(PrintDefinition(r.value), tokens, s.pos, r.state.pos)
  {
    hide EndsInOnlyEndOfFile, NamesNotEmpty, ParseSignature, ParseBlock, PrintSignature, PrintBlock, PrintDefinition,
         Spelled, Embeds, PrintAccess, Accounts;
    var r := ParseDefinition(tokens, s);
    if r.Done? {
      var d := r.value;
      var s1 := ParseAccess(tokens, s).1;
      var s2 := Advance(tokens, s1);
      SignatureSound(tokens, s2);
      var signature := ParseSignature(tokens, s2);
      var s3 := signature.state;
      BlockFound(tokens, s3);
      AccessSpelled(tokens, s, d);
      SpelledEmbeds(PrintAccess(d), tokens, s.pos);
      EmbedsOne(Text(Identifier, d.name.offset, d.name.length), tokens, s1.pos, s2.pos);
      SpelledEmbeds(PrintSignature(d.parameters, d.outputs), tokens, s2.pos);
      var body := PrintBlock(d.statements);
      var tail := PrintSignature(d.parameters, d.outputs) + body;
      EmbedsJoin(PrintSignature(d.parameters, d.outputs), body, tokens, s2.pos, s3.pos, r.state.pos);
      EmbedsJoin(PrintName(d.name), tail, tokens, s1.pos, s2.pos, r.state.pos);
      EmbedsJoin(PrintAccess(d), PrintName(d.name) + tail, tokens, s.pos, s1.pos, r.state.pos);
      DefinitionPieces(d);
    }
  }

  lemma {:induction false} DefinitionsFound(tokens: seq<Token>, s: State)
    requires Live(tokens, s)
    ensures Embeds(PrintProgram(ParseDefinitions(tokens, s).0), tokens, s.pos, |tokens|)
    decreases |tokens| - s.pos
  {
    hide NamesNotEmpty, ParseDefinition, PrintDefinition, Embeds, RecoverAtDefinitionLevel;
    var r := ParseDefinitions(tokens, s);
    if Kind(tokens, s) == EndOfFile {
      EmbedsOne(Mark(EndOfFile), tokens, s.pos, |tokens|);
    } else {
      DefinitionFound(tokens, s);
      match ParseDefinition(tokens, s)
      case Done(d, s1) =>
        DefinitionsFound(tokens, s1);
        var rest := ParseDefinitions(tokens, s1);
        assert r.0[1..] == rest.0;
        EmbedsJoin(PrintDefinition(d), PrintProgram(rest.0), tokens, s.pos, s1.pos, |tokens|);
      case Thrown(s1) =>
        var s2 := RecoverAtDefinitionLevel(tokens, s1.(caught := s1.caught + 1));
        DefinitionsFound(tokens, s2);
        EmbedsWider(PrintProgram(r.0), tokens, s2.pos, |tokens|, s.pos, |tokens|);
    }
  }

  // ---------------------------------------------------------------- main results

  /** Whatever errors are met, every token of the program in the result is a token of the list, in order; only closing
      braces may be missing, at the end of the file. */
  lemma {:induction false} ResultIsFound(tokens: seq<Token>)
    requires EndsInOnlyEndOfFile(tokens)
    ensures ShapedProgram(Run(tokens).0) && Embeds(PrintProgram(Run(tokens).0), tokens, 0, |tokens|)
  {
    hide ShapedProgram, ParseDefinitions, Embeds;
    ResultIsShaped(tokens);
    DefinitionsFound(tokens, START);
  }

  /** A definition that is spelled here is kept, whatever errors come later. */
  lemma {:induction false} GoodDefinitionIsKept(tokens: seq<Token>, s: State, d: Definition)
    requires Live(tokens, s) && ShapedDefinition(d) && Ahead(PrintDefinition(d), tokens, s)
    ensures ParseDefinitions(tokens, s).0 == [d] + ParseDefinitions(tokens, Past(s, PrintDefinition(d))).0
  {
    hide ParseDefinition, RecoverAtDefinitionLevel, PrintDefinition, ShapedDefinition, Spelled, EndsInOnlyEndOfFile;
    DefinitionComplete(tokens, s, d);
  }

  /** A statement that is spelled here is kept, whatever errors come later. */
  lemma {:induction false} GoodStatementIsKept(tokens: seq<Token>, s: State, e: Expr)
    requires Live(tokens, s) && Shaped(e) && (StartsWithBlock(e) ==> e.Block?) && Ahead(PrintStatement(e), tokens, s)
    ensures ParseBlock(tokens, s).0 == [e] + ParseBlock(tokens, Past(s, PrintStatement(e))).0
  {
    hide ParseStatement, RecoverAtStatementLevel, PrintStatement, Shaped, StartsWithBlock, Spelled, EndsInOnlyEndOfFile;
    StatementComplete(tokens, s, e);
  }

  /** A bad definition costs nothing beyond the place where recovery stops: a program from there on is kept whole. */
  lemma {:induction false} RestOfProgramIsKept(tokens: seq<Token>, s: State, ds: seq<Definition>)
    requires Live(tokens, s) && Kind(tokens, s) != EndOfFile && ParseDefinition(tokens, s).Thrown?
    requires var s1 := ParseDefinition(tokens, s).state;
             Prints(ds, tokens, RecoverAtDefinitionLevel(tokens, s1.(caught := s1.caught + 1)).pos)
    requires ShapedProgram(ds)
    ensures ParseDefinitions(tokens, s).0 == ds
    ensures ParseDefinitions(tokens, s).1.caught == s.caught + 1
  {
    hide ParseDefinition, RecoverAtDefinitionLevel, Prints, ShapedProgram, EndsInOnlyEndOfFile;
    var s1 := ParseDefinition(tokens, s).state;
    var s2 := RecoverAtDefinitionLevel(tokens, s1.(caught := s1.caught + 1));
    DefinitionsComplete(tokens, s2, ds);
  }

  /** A program behind a bad definition is kept whole, if it begins with the first modifier, `struct`, `enum` or end of
      the file behind the token that was not expected. */
  lemma {:induction false} ProgramBehindErrorIsKept(tokens: seq<Token>, s: State, k: nat, ds: seq<Definition>)
    requires Live(tokens, s) && Kind(tokens, s) != EndOfFile && ParseDefinition(tokens, s).Thrown?
    requires Kind(tokens, ParseDefinition(tokens, s).state) != EndOfFile
    requires ParseDefinition(tokens, s).state.pos < k < |tokens|
    requires tokens[k].kind == KwPublic || tokens[k].kind == KwPrivate || tokens[k].kind == EndOfFile
    requires forall j :: ParseDefinition(tokens, s).state.pos < j < k ==> !StopsDefinition(tokens[j].kind)
    requires ShapedProgram(ds) && Prints(ds, tokens, k)
    ensures ParseDefinitions(tokens, s).0 == ds
    ensures ParseDefinitions(tokens, s).1.caught == s.caught + 1
  {
    hide ParseDefinition, ParseDefinitions, RecoverAtDefinitionLevel, Prints, ShapedProgram, EndsInOnlyEndOfFile,
         NamesNotEmpty;
    var s1 := ParseDefinition(tokens, s).state;
    DefinitionRecoveryStopsAt(tokens, s1.(caught := s1.caught + 1), k);
    RestOfProgramIsKept(tokens, s, ds);
  }

  /** A bad statement costs nothing beyond the place where recovery stops: statements from there on are kept whole. */
  lemma {:induction false} RestOfBlockIsKept(tokens: seq<Token>, s: State, statements: seq<Expr>)
    requires Live(tokens, s) && Kind(tokens, s) != RBrace && ParseStatement(tokens, s).Thrown?
    requires var s1 := ParseStatement(tokens, s).state;
             var (atEnd, s2) := RecoverAtStatementLevel(tokens, s1.(caught := s1.caught + 1));
             !atEnd && Ahead(PrintBlock(statements), tokens, s2)
    requires ShapedBlock(statements)
    ensures ParseBlock(tokens, s).0 == statements
    ensures ParseBlock(tokens, s).1.caught == ParseStatement(tokens, s).state.caught + 1
  {
    hide ParseStatement, RecoverAtStatementLevel, Ahead, ShapedBlock, EndsInOnlyEndOfFile;
    var s1 := ParseStatement(tokens, s).state;
    var s2 := RecoverAtStatementLevel(tokens, s1.(caught := s1.caught + 1)).1;
    BlockComplete(tokens, s2, statements);
  }

  /** Statements behind a bad one are kept whole, if they begin behind the first semicolon, or at the first brace, that
      is not before the token that was not expected. */
  lemma {:induction false} StatementsBehindErrorAreKept(tokens: seq<Token>, s: State, k: nat, statements: seq<Expr>)
    requires Live(tokens, s) && Kind(tokens, s) != RBrace && ParseStatement(tokens, s).Thrown?
    requires ParseStatement(tokens, s).state.pos <= k < |tokens|
    requires tokens[k].kind == Semicolon || tokens[k].kind == RBrace
    requires forall j :: ParseStatement(tokens, s).state.pos <= j < k ==> !StopsStatement(tokens[j].kind)
    requires ShapedBlock(statements)
    requires var begin := if tokens[k].kind == Semicolon then k + 1 else k;
             Ahead(PrintBlock(statements), tokens, s.(pos := begin))
    ensures ParseBlock(tokens, s).0 == statements
    ensures ParseBlock(tokens, s).1.caught == ParseStatement(tokens, s).state.caught + 1
  {
    hide ParseStatement, ParseBlock, RecoverAtStatementLevel, ShapedBlock, EndsInOnlyEndOfFile, Spelled, PrintBlock;
    var s1 := ParseStatement(tokens, s).state;
    var l := StatementRecoveryStopsFirst(tokens, s1.(caught := s1.caught + 1));
    assert l == k;
    RestOfBlockIsKept(tokens, s, statements);
  }
}
