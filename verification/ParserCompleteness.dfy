/** A spelling of a tree of the language parses back to exactly that tree, and nothing is reported. */
module ParserCompleteness {
  import opened Tokens
  import opened Ast
  import opened Grammar
  import opened ParserSpec
  import opened ParserSoundness

  /** The state after a spelling of `pieces`. */
  function Past(s: State, pieces: seq<Piece>): State {
    s.(pos := s.pos + |pieces|)
  }

  /** The tokens at `s` spell `pieces`, and the end of file is not among them. */
  ghost predicate Ahead(pieces: seq<Piece>, tokens: seq<Token>, s: State) {
    Live(tokens, s) && Spelled(pieces, tokens, s.pos) && s.pos + |pieces| < |tokens|
  }

  lemma Split(a: seq<Piece>, b: seq<Piece>, tokens: seq<Token>, s: State)
    requires Ahead(a + b, tokens, s)
    ensures Ahead(a, tokens, s) && Ahead(b, tokens, Past(s, a)) && Past(s, a + b) == Past(Past(s, a), b)
  {
    SpelledConcat(a, b, tokens, s.pos);
  }

  lemma First(piece: Piece, tokens: seq<Token>, s: State)
    requires Ahead([piece], tokens, s)
    ensures Fits(piece, tokens, s.pos)
    ensures piece.kind != EndOfFile ==> Advance(tokens, s) == Past(s, [piece])
  {
    assert Fits([piece][0], tokens, s.pos + 0);
  }

  /** What follows a tree lets it be read whole: an operator that is too weak to reach into it, and nothing that a
      `return` at its right edge would take in. */
  ghost predicate Follows(tokens: seq<Token>, e: Expr, t: State) {
    Live(tokens, t) && CanPrecede(e, Kind(tokens, t)) && Settled(e, NextTailRule(tokens, t).precedence)
  }

  /** Round trip for expressions. */
  lemma {:induction false} ExpressionComplete(tokens: seq<Token>, s: State, p: Precedence, e: Expr)
    requires p <= PREFIX && Shaped(e) && Above(e, p) && Ahead(Print(e), tokens, s)
    requires CanPrecede(e, Kind(tokens, Past(s, Print(e)))) && NextTailRule(tokens, Past(s, Print(e))).precedence <= p
    ensures ParseExpression(tokens, s, p) == Done(e, Past(s, Print(e)))
    decreases e, 3
  {
    hide LookupTailRule, HeadRule, ParseHead, ParseTail, ParseList, ParseStatement, ParseBlock, Shaped, Print,
         CanPrecede, Spelled, EndsInOnlyEndOfFile, ShiftAhead, ParseExpression;
    LevelBelowPrefix(e);
    SpineComplete(tokens, s, p, e);
  }

  /** Reading a tree brings the loop over tail functions to the end of the tree with the tree in hand. */
  lemma {:induction false} SpineComplete(tokens: seq<Token>, s: State, p: Precedence, e: Expr)
    requires p <= PREFIX && Shaped(e) && Above(e, p) && Ahead(Print(e), tokens, s)
    requires Follows(tokens, e, Past(s, Print(e)))
    ensures ParseExpression(tokens, s, p) == ParseTails(tokens, Past(s, Print(e)), p, e)
    decreases e, 2
  {
    hide LookupTailRule, HeadRule, ParseHead, ParseTail, ParseTails, ParseList, ParseStatement, ParseBlock, Shaped,
         Print, CanPrecede, Spelled, EndsInOnlyEndOfFile, ShiftAhead;
    SpelledHead(e, tokens, s.pos);
    match e
    case Unary(_, op, operand) =>
      if IsPrefixOperator(op) {
        HeadComplete(tokens, s, e);
      } else {
        PostfixComplete(tokens, s, p, e);
      }
    case Binary(_, _, _, _) => BinaryComplete(tokens, s, p, e);
    case Call(_, _, _) => CallComplete(tokens, s, p, e);
    case _ => HeadComplete(tokens, s, e);
  }

  lemma {:induction false} HeadComplete(tokens: seq<Token>, s: State, e: Expr)
    requires Shaped(e) && Ahead(Print(e), tokens, s) && Follows(tokens, e, Past(s, Print(e)))
    requires e.Ident? || e.Literal? || e.Block? || e.Return? || IsPrefix(e)
    ensures IsHead(Kind(tokens, s))
    ensures ParseHead(tokens, s) == Done(e, Past(s, Print(e)))
    decreases e, 1
  {
    hide HeadRule, LookupTailRule, ParseExpression, ParseTail, ParseTails, ParseList, ParseStatement, ParseBlock,
         Spelled, EndsInOnlyEndOfFile, ShiftAhead, LiteralToken, UnaryToken, Accounts;
    match e
    case Ident(offset, length) =>
      NamesAreHeads();
      First(Text(Identifier, offset, length), tokens, s);
    case Literal(offset, kind, length) =>
      LiteralReadsBack(kind);
      LiteralIsNoEnd(kind);
      First(Text(LiteralToken(kind), offset, length), tokens, s);
    case Block(_, _) =>
      hide ParseHead;
      BlockHeadComplete(tokens, s, e);
    case Return(_, _) =>
      hide ParseHead;
      ReturnComplete(tokens, s, e);
    case Unary(_, _, _) =>
      hide ParseHead;
      PrefixComplete(tokens, s, e);
  }

  lemma LiteralIsNoEnd(kind: LiteralKind)
    ensures LiteralToken(kind) != EndOfFile
  {
  }

  lemma {:induction false} BlockHeadComplete(tokens: seq<Token>, s: State, e: Expr)
    requires e.Block? && Shaped(e) && Ahead(Print(e), tokens, s)
    ensures IsHead(Kind(tokens, s))
    ensures ParseHead(tokens, s) == Done(e, Past(s, Print(e)))
    decreases e, 0
  {
    hide HeadRule, ParseBlock, Spelled, EndsInOnlyEndOfFile, Accounts, PrintBlock, ShapedBlock;
    BracesAndEnds();
    Split([MarkAt(LBrace, e.offset)], PrintBlock(e.statements), tokens, s);
    First(MarkAt(LBrace, e.offset), tokens, s);
    BlockComplete(tokens, Advance(tokens, s), e.statements);
  }

  lemma {:induction false} PrefixComplete(tokens: seq<Token>, s: State, e: Expr)
    requires IsPrefix(e) && Shaped(e) && Ahead(Print(e), tokens, s) && Follows(tokens, e, Past(s, Print(e)))
    ensures IsHead(Kind(tokens, s))
    ensures ParseHead(tokens, s) == Done(e, Past(s, Print(e)))
    decreases e, 0
  {
    hide HeadRule, LookupTailRule, ParseExpression, Spelled, EndsInOnlyEndOfFile, Accounts, UnaryToken, ShiftAhead;
    var offset, op, operand := e.offset, e.unaryOp, e.operand;
    UnaryOperatorReadsBack(op, false);
    HeadPrintsBack(UnaryToken(op));
    Split([MarkAt(UnaryToken(op), offset)], Print(operand), tokens, s);
    First(MarkAt(UnaryToken(op), offset), tokens, s);
    ExpressionComplete(tokens, Advance(tokens, s), PREFIX, operand);
  }

  lemma {:induction false} ReturnComplete(tokens: seq<Token>, s: State, e: Expr)
    requires e.Return? && Shaped(e) && Ahead(Print(e), tokens, s) && Follows(tokens, e, Past(s, Print(e)))
    ensures IsHead(Kind(tokens, s))
    ensures ParseHead(tokens, s) == Done(e, Past(s, Print(e)))
    decreases e, 0
  {
    hide HeadRule, LookupTailRule, ParseHead, ParseList, Spelled, EndsInOnlyEndOfFile, ShiftAhead, PrintList,
         ShapedList, Accounts;
    NamesAreHeads();
    var offset, values := e.offset, e.values;
    Split([MarkAt(KwReturn, offset)], PrintList(values), tokens, s);
    First(MarkAt(KwReturn, offset), tokens, s);
    ReturnCases(tokens, s);
    if values != [] {
      TablesAgree(Kind(tokens, Past(s, Print(e))), ShiftAhead(tokens, Past(s, Print(e))));
      ListComplete(tokens, Advance(tokens, s), values);
    } else {
      NothingPrinted();
    }
  }

  lemma {:induction false} PostfixComplete(tokens: seq<Token>, s: State, p: Precedence, e: Expr)
    requires p <= PREFIX && Shaped(e) && Ahead(Print(e), tokens, s)
    requires e.Unary? && !IsPrefixOperator(e.unaryOp)
    ensures ParseExpression(tokens, s, p) == ParseTails(tokens, Past(s, Print(e)), p, e)
    decreases e, 1
  {
    hide LookupTailRule, HeadRule, ParseHead, ParseExpression, ParseList, ParseStatement, ParseBlock, Spelled,
         EndsInOnlyEndOfFile, ShiftAhead, UnaryToken;
    var target, mark := e.operand, Mark(UnaryToken(e.unaryOp));
    Split(Print(target), [mark], tokens, s);
    var t := Past(s, Print(target));
    First(mark, tokens, t);
    UnaryOperatorReadsBack(e.unaryOp, ShiftAhead(tokens, t));
    SpineComplete(tokens, s, p, target);
  }

  lemma {:induction false} CallComplete(tokens: seq<Token>, s: State, p: Precedence, e: Expr)
    requires p <= PREFIX && Shaped(e) && Ahead(Print(e), tokens, s) && e.Call?
    ensures ParseExpression(tokens, s, p) == ParseTails(tokens, Past(s, Print(e)), p, e)
    decreases e, 1
  {
    hide LookupTailRule, HeadRule, ParseHead, ParseExpression, ParseTail, ParseList, ParseStatement, ParseBlock,
         Spelled, EndsInOnlyEndOfFile, ShiftAhead, PrintList, CanPrecede, Shaped, Print;
    var t := Past(s, Print(e.callee));
    CallSplits(tokens, s, e, t);
    ParenIsCall(ShiftAhead(tokens, t));
    CalleeFollows(tokens, e, t);
    SpineComplete(tokens, s, p, e.callee);
    ArgumentsComplete(tokens, t, e);
  }

  lemma CallSplits(tokens: seq<Token>, s: State, e: Expr, t: State)
    requires e.Call? && Ahead(Print(e), tokens, s) && t == Past(s, Print(e.callee))
    ensures Ahead(Print(e.callee), tokens, s) && Live(tokens, t) && Kind(tokens, t) == LParen
    ensures Ahead(PrintList(e.args) + [Mark(RParen)], tokens, Advance(tokens, t))
    ensures Past(s, Print(e)) == Past(Advance(tokens, t), PrintList(e.args) + [Mark(RParen)])
  {
    hide Spelled, EndsInOnlyEndOfFile, PrintList;
    var arguments := PrintList(e.args) + [Mark(RParen)];
    Split(Print(e.callee), [Mark(LParen)] + arguments, tokens, s);
    Split([Mark(LParen)], arguments, tokens, t);
    First(Mark(LParen), tokens, t);
  }

  lemma CalleeFollows(tokens: seq<Token>, e: Expr, t: State)
    requires e.Call? && Shaped(e) && Live(tokens, t) && Kind(tokens, t) == LParen
    ensures Shaped(e.callee) && !e.callee.Binary? && Follows(tokens, e.callee, t)
  {
    hide LookupTailRule, EndsInOnlyEndOfFile, ShiftAhead;
  }

  lemma ParenIsCall(shift: bool)
    ensures LookupTailRule(LParen, shift) == TailRule(POSTFIX, CallTail)
  {
  }

  lemma {:induction false} ArgumentsComplete(tokens: seq<Token>, t: State, e: Expr)
    requires e.Call? && Shaped(e) && Live(tokens, t) && NextTailRule(tokens, t).tail == CallTail
    requires Kind(tokens, t) == LParen && Ahead(PrintList(e.args) + [Mark(RParen)], tokens, Advance(tokens, t))
    ensures ParseTail(tokens, t, CallTail, e.callee)
            == Done(e, Past(Advance(tokens, t), PrintList(e.args) + [Mark(RParen)]))
    decreases e, 0
  {
    hide ParseTail, ParseList, Spelled, EndsInOnlyEndOfFile, NextTailRule, Print, PrintList, CanPrecede, Accounts,
         Expect;
    var args, t1 := e.args, Advance(tokens, t);
    CallCases(tokens, t, e.callee);
    if args != [] {
      ClosedListComplete(tokens, t1, args);
    } else {
      NothingPrinted();
      assert [] + [Mark(RParen)] == [Mark(RParen)];
      First(Mark(RParen), tokens, t1);
    }
  }

  lemma {:induction false} ClosedListComplete(tokens: seq<Token>, s: State, es: seq<Expr>)
    requires es != [] && ShapedList(es) && Ahead(PrintList(es) + [Mark(RParen)], tokens, s)
    ensures Kind(tokens, s) != RParen
    ensures ParseList(tokens, s) == Done(es, Past(s, PrintList(es)))
    ensures Expect(tokens, Past(s, PrintList(es)), RParen, ExpectClosingParenInCall)
            == Done(Unit, Past(s, PrintList(es) + [Mark(RParen)]))
    decreases es, 4
  {
    hide HeadRule, LookupTailRule, ParseList, Spelled, EndsInOnlyEndOfFile, Print, PrintList, ShapedList, CanPrecede,
         Accounts;
    Split(PrintList(es), [Mark(RParen)], tokens, s);
    First(Mark(RParen), tokens, Past(s, PrintList(es)));
    ParenCloses();
    ClosersCanFollow(es[|es| - 1], RParen);
    ListComplete(tokens, s, es);
  }

  lemma ParenCloses()
    ensures !IsHead(RParen) && !IsTail(RParen)
  {
  }

  lemma {:induction false} BinaryComplete(tokens: seq<Token>, s: State, p: Precedence, e: Expr)
    requires p <= PREFIX && Shaped(e) && Above(e, p) && Ahead(Print(e), tokens, s) && e.Binary?
    requires Follows(tokens, e, Past(s, Print(e)))
    ensures ParseExpression(tokens, s, p) == ParseTails(tokens, Past(s, Print(e)), p, e)
    decreases e, 1
  {
    hide LookupTailRule, HeadRule, ParseHead, ParseExpression, ParseList, ParseStatement, ParseBlock, Spelled,
         EndsInOnlyEndOfFile, ShiftAhead, BinaryToken;
    var op, left, right := e.op, e.left, e.right;
    Split(Print(left), PrintOperator(op) + Print(right), tokens, s);
    var t := Past(s, Print(left));
    Split(PrintOperator(op), Print(right), tokens, t);
    OperatorComplete(tokens, t, op, right);
    SpineComplete(tokens, s, p, left);
    ExpressionComplete(tokens, Past(t, PrintOperator(op)), AssociativityPrecedence(op), right);
  }

  /** A printed operator is read as itself. */
  lemma OperatorComplete(tokens: seq<Token>, t: State, op: BinaryOperator, right: Expr)
    requires Ahead(PrintOperator(op), tokens, t) && Ahead(Print(right), tokens, Past(t, PrintOperator(op)))
    ensures Kind(tokens, t) == BinaryToken(op)
    ensures NextTailRule(tokens, t) == TailRule(AssociativityPrecedence(op), InfixTail(op))
    ensures OperatorEnd(tokens, t, op) == Past(t, PrintOperator(op))
    ensures AssociativityPrecedence(op) < PREFIX
  {
    hide LookupTailRule, BinaryToken, AssociativityPrecedence, PrintOperator, Print, Spelled, ShiftAhead, OperatorEnd,
         EndsInOnlyEndOfFile;
    BinaryTokenIsNoEnd(op);
    if op == Shr {
      ShiftIsPassed(tokens, t);
    } else {
      OperatorIsPassed(tokens, t, op, right);
    }
    OperatorReadsBack(op, ShiftAhead(tokens, t));
    TablesAgree(BinaryToken(op), ShiftAhead(tokens, t));
  }

  lemma ShiftIsPassed(tokens: seq<Token>, t: State)
    requires Ahead(PrintOperator(Shr), tokens, t)
    ensures Kind(tokens, t) == RAngle && ShiftAhead(tokens, t)
    ensures OperatorEnd(tokens, t, Shr) == Past(t, PrintOperator(Shr))
  {
    hide EndsInOnlyEndOfFile;
    assert Fits(PrintOperator(Shr)[0], tokens, t.pos + 0);
    assert Fits(PrintOperator(Shr)[1], tokens, t.pos + 1);
  }

  /** A `>` is not taken for half of a `>>`, because no expression begins with `>`. */
  lemma OperatorIsPassed(tokens: seq<Token>, t: State, op: BinaryOperator, right: Expr)
    requires op != Shr && BinaryToken(op) != EndOfFile
    requires Ahead(PrintOperator(op), tokens, t) && Ahead(Print(right), tokens, Past(t, PrintOperator(op)))
    ensures Kind(tokens, t) == BinaryToken(op) && !ShiftAhead(tokens, t)
    ensures OperatorEnd(tokens, t, op) == Past(t, PrintOperator(op))
  {
    hide BinaryToken, Print, EndsInOnlyEndOfFile, HeadRule, Spelled;
    First(Mark(BinaryToken(op)), tokens, t);
    SpelledHead(right, tokens, t.pos + 1);
    AngleIsNoHead();
  }

  lemma AngleIsNoHead()
    ensures !IsHead(RAngle)
  {
  }

  lemma BinaryTokenIsNoEnd(op: BinaryOperator)
    ensures BinaryToken(op) != EndOfFile && (op == Shr ==> BinaryToken(op) == RAngle)
  {
  }

  lemma {:induction false} ListComplete(tokens: seq<Token>, s: State, es: seq<Expr>)
    requires es != [] && ShapedList(es) && Ahead(PrintList(es), tokens, s)
    requires var next := Kind(tokens, Past(s, PrintList(es)));
             !IsTail(next) && next != Comma && CanPrecede(es[|es| - 1], next)
    ensures IsHead(Kind(tokens, s))
    ensures ParseList(tokens, s) == Done(es, Past(s, PrintList(es)))
    decreases es, 3
  {
    hide LookupTailRule, HeadRule, ParseExpression, ParseList, Spelled, EndsInOnlyEndOfFile, ShiftAhead, Shaped, Print,
         CanPrecede, Accounts;
    var e := es[0];
    var t := Past(s, Print(e));
    if |es| == 1 {
      assert es == [e];
      ElementComplete(tokens, s, e);
      ListCases(tokens, s);
    } else {
      ListSplits(tokens, s, es);
      hide PrintList;
      ElementComplete(tokens, s, e);
      ListComplete(tokens, Advance(tokens, t), es[1..]);
      assert es == [e] + es[1..];
      ListCases(tokens, s);
    }
  }

  /** A spelling of a list is one of its first expression, a comma, and one of the rest. */
  lemma ListSplits(tokens: seq<Token>, s: State, es: seq<Expr>)
    requires |es| > 1 && Ahead(PrintList(es), tokens, s)
    ensures Ahead(Print(es[0]), tokens, s)
    ensures var t := Past(s, Print(es[0]));
            && Live(tokens, t) && Kind(tokens, t) == Comma && !IsTail(Comma)
            && Ahead(PrintList(es[1..]), tokens, Advance(tokens, t))
            && Past(Advance(tokens, t), PrintList(es[1..])) == Past(s, PrintList(es))
  {
    hide LookupTailRule, Spelled, EndsInOnlyEndOfFile, Print;
    var rest := PrintList(es[1..]);
    var t := Past(s, Print(es[0]));
    Split(Print(es[0]), [Mark(Comma)] + rest, tokens, s);
    Split([Mark(Comma)], rest, tokens, t);
    First(Mark(Comma), tokens, t);
    CommaIsNoTail();
  }

  lemma {:induction false} ElementComplete(tokens: seq<Token>, s: State, e: Expr)
    requires Shaped(e) && Ahead(Print(e), tokens, s)
    requires var next := Kind(tokens, Past(s, Print(e)));
             !IsTail(next) && CanPrecede(e, next)
    ensures IsHead(Kind(tokens, s))
    ensures ParseExpression(tokens, s, STATEMENT) == Done(e, Past(s, Print(e)))
    decreases e, 4
  {
    hide LookupTailRule, HeadRule, ParseExpression, Spelled, EndsInOnlyEndOfFile, ShiftAhead, Shaped, Print, CanPrecede,
         Accounts;
    var t := Past(s, Print(e));
    SpelledHead(e, tokens, s.pos);
    TablesAgree(Kind(tokens, t), ShiftAhead(tokens, t));
    ExpressionComplete(tokens, s, STATEMENT, e);
  }

  lemma CommaIsNoTail()
    ensures !IsTail(Comma)
  {
  }

  lemma {:induction false} StatementComplete(tokens: seq<Token>, s: State, e: Expr)
    requires Shaped(e) && (StartsWithBlock(e) ==> e.Block?) && Ahead(PrintStatement(e), tokens, s)
    ensures Kind(tokens, s) != RBrace
    ensures ParseStatement(tokens, s) == Done(e, Past(s, PrintStatement(e)))
    decreases e, 6
  {
    hide HeadRule, ParseHead, ParseStatement, Spelled, EndsInOnlyEndOfFile, Shaped, Print, CanPrecede;
    ClosersAreInert();
    if e.Block? {
      SpelledHead(e, tokens, s.pos);
      BlockFollows(tokens, s, e);
      HeadComplete(tokens, s, e);
      BlockStatementIsHead(tokens, s);
    } else {
      PlainStatementComplete(tokens, s, e);
    }
  }

  lemma BlockStatementIsHead(tokens: seq<Token>, s: State)
    requires Live(tokens, s) && Kind(tokens, s) == LBrace && IsHead(LBrace)
    ensures ParseStatement(tokens, s) == ParseHead(tokens, s)
  {
    hide HeadRule, ParseHead, EndsInOnlyEndOfFile, Accounts;
  }

  lemma {:induction false} PlainStatementComplete(tokens: seq<Token>, s: State, e: Expr)
    requires Shaped(e) && !StartsWithBlock(e) && !e.Block? && Ahead(Print(e) + [Mark(Semicolon)], tokens, s)
    ensures Kind(tokens, s) != RBrace
    ensures ParseStatement(tokens, s) == Done(e, Past(s, Print(e) + [Mark(Semicolon)]))
    decreases e, 5
  {
    hide HeadRule, LookupTailRule, ParseExpression, Spelled, EndsInOnlyEndOfFile, Shaped, Print, CanPrecede, Accounts;
    ClosersAreInert();
    Split(Print(e), [Mark(Semicolon)], tokens, s);
    First(Mark(Semicolon), tokens, Past(s, Print(e)));
    ClosersCanFollow(e, Semicolon);
    SpelledHead(e, tokens, s.pos);
    ElementComplete(tokens, s, e);
  }

  lemma ClosersAreInert()
    ensures !IsHead(RBrace) && !IsHead(Semicolon) && !IsTail(Semicolon)
  {
  }

  lemma BlockFollows(tokens: seq<Token>, s: State, e: Expr)
    requires e.Block? && Ahead(Print(e), tokens, s)
    ensures Follows(tokens, e, Past(s, Print(e)))
  {
  }

  lemma {:induction false} BlockComplete(tokens: seq<Token>, s: State, statements: seq<Expr>)
    requires ShapedBlock(statements) && Ahead(PrintBlock(statements), tokens, s)
    ensures ParseBlock(tokens, s) == (statements, Past(s, PrintBlock(statements)))
    decreases statements, 4
  {
    hide ParseBlock, ParseStatement, Spelled, EndsInOnlyEndOfFile, Shaped, Print, PrintStatement, Accounts;
    if statements == [] {
      First(Mark(RBrace), tokens, s);
      BlockCloses(tokens, s);
    } else {
      var e := statements[0];
      Split(PrintStatement(e), PrintBlock(statements[1..]), tokens, s);
      StatementComplete(tokens, s, e);
      BlockComplete(tokens, Past(s, PrintStatement(e)), statements[1..]);
      BlockGoesOn(tokens, s, e, Past(s, PrintStatement(e)));
      assert statements == [e] + statements[1..];
    }
  }
}
