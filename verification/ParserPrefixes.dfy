/** Errors of the parser are found at the earliest token: nothing of the language goes on with the unexpected token. */
module ParserPrefixes {
  import opened Tokens
  import opened Ast
  import opened Grammar
  import opened ParserSpec
  import opened ParserSoundness
  import opened ParserCompleteness
  import opened ParserPrograms
  import opened ParserErrors
  import opened ParserLocality

  /** The tokens from `i` up to `k` are the beginning of a spelling of the pieces. */
  ghost predicate Begins(pieces: seq<Piece>, tokens: seq<Token>, i: nat, k: nat) {
    i <= k && k - i <= |pieces| && Spelled(pieces[..k - i], tokens, i)
  }

  // ---------------------------------------------------------------- completing a spelling

  /** No end of the file, and what adjoins another token stands behind one whose offset is free. */
  ghost predicate AreFree(pieces: seq<Piece>) {
    forall j :: 0 <= j < |pieces| ==> IsFree(pieces, j)
  }

  ghost predicate IsFree(pieces: seq<Piece>, j: nat)
    requires j < |pieces|
  {
    pieces[j].kind != EndOfFile && (pieces[j].Adjoining? ==> j > 0 && pieces[j - 1].Mark?)
  }

  lemma FreeJoin(a: seq<Piece>, b: seq<Piece>)
    requires AreFree(a) && AreFree(b)
    ensures AreFree(a + b)
  {
    forall j | 0 <= j < |a + b| ensures IsFree(a + b, j) {
      if j < |a| {
        assert IsFree(a, j);
      } else {
        assert IsFree(b, j - |a|);
      }
    }
  }

  lemma OneIsFree(piece: Piece)
    requires piece.kind != EndOfFile && !piece.Adjoining?
    ensures AreFree([piece])
  {
  }

  lemma OperatorIsFree(op: BinaryOperator)
    ensures AreFree(PrintOperator(op))
  {
    hide BinaryToken;
    BinaryTokenIsNoEnd(op);
  }

  lemma UnaryTokenIsNoEnd(op: UnaryOperator)
    ensures UnaryToken(op) != EndOfFile
  {
  }

  lemma {:induction false} PrintIsFree(e: Expr)
    ensures AreFree(Print(e))
    decreases e, 0
  {
    hide AreFree, PrintOperator, PrintList, PrintBlock, UnaryToken, LiteralToken;
    match e
    case Ident(offset, length) => OneIsFree(Text(Identifier, offset, length));
    case Literal(offset, kind, length) =>
      LiteralIsNoEnd(kind);
      OneIsFree(Text(LiteralToken(kind), offset, length));
    case Block(offset, statements) =>
      OneIsFree(MarkAt(LBrace, offset));
      BlockIsFree(statements);
      FreeJoin([MarkAt(LBrace, offset)], PrintBlock(statements));
    case Return(offset, values) =>
      OneIsFree(MarkAt(KwReturn, offset));
      ListIsFree(values);
      FreeJoin([MarkAt(KwReturn, offset)], PrintList(values));
    case Unary(offset, op, operand) =>
      UnaryTokenIsNoEnd(op);
      OneIsFree(MarkAt(UnaryToken(op), offset));
      OneIsFree(Mark(UnaryToken(op)));
      PrintIsFree(operand);
      FreeJoin([MarkAt(UnaryToken(op), offset)], Print(operand));
      FreeJoin(Print(operand), [Mark(UnaryToken(op))]);
    case Binary(_, op, left, right) =>
      PrintIsFree(left);
      OperatorIsFree(op);
      PrintIsFree(right);
      FreeJoin(PrintOperator(op), Print(right));
      FreeJoin(Print(left), PrintOperator(op) + Print(right));
    case Call(_, callee, args) =>
      PrintIsFree(callee);
      ListIsFree(args);
      OneIsFree(Mark(LParen));
      OneIsFree(Mark(RParen));
      FreeJoin(PrintList(args), [Mark(RParen)]);
      FreeJoin([Mark(LParen)], PrintList(args) + [Mark(RParen)]);
      FreeJoin(Print(callee), [Mark(LParen)] + (PrintList(args) + [Mark(RParen)]));
  }

  lemma {:induction false} ListIsFree(es: seq<Expr>)
    ensures AreFree(PrintList(es))
    decreases es
  {
    if es != [] {
      PrintIsFree(es[0]);
      if |es| > 1 {
        ListIsFree(es[1..]);
        OneIsFree(Mark(Comma));
        hide AreFree;
        FreeJoin([Mark(Comma)], PrintList(es[1..]));
        FreeJoin(Print(es[0]), [Mark(Comma)] + PrintList(es[1..]));
      }
    }
  }

  lemma {:induction false} StatementIsFree(e: Expr)
    ensures AreFree(PrintStatement(e))
    decreases e, 1
  {
    hide AreFree, Print;
    PrintIsFree(e);
    OneIsFree(Mark(Semicolon));
    FreeJoin(Print(e), [Mark(Semicolon)]);
  }

  lemma {:induction false} BlockIsFree(statements: seq<Expr>)
    ensures AreFree(PrintBlock(statements))
    decreases statements
  {
    hide AreFree, PrintStatement;
    OneIsFree(Mark(RBrace));
    if statements != [] {
      StatementIsFree(statements[0]);
      BlockIsFree(statements[1..]);
      FreeJoin(PrintStatement(statements[0]), PrintBlock(statements[1..]));
    }
  }

  /** A token that fits the piece, behind one at offset `before`. */
  function TokenFor(piece: Piece, before: nat): Token
    requires before + 1 < SOURCE_SIZE_LIMIT
  {
    match piece
    case Mark(kind) => Token(kind, 0, 0)
    case MarkAt(kind, offset) => Token(kind, offset, 0)
    case Text(kind, offset, length) => Token(kind, offset, length)
    case Adjoining(kind) => Token(kind, before + 1, 0)
  }

  function TokensFor(pieces: seq<Piece>, before: nat): seq<Token>
    requires before + 1 < SOURCE_SIZE_LIMIT
  {
    seq(|pieces|, j requires 0 <= j < |pieces| => TokenFor(pieces[j], if j == 0 then before else 0))
  }

  /** The tokens up to `k`, a spelling of what is left of the pieces, and the end of the file. */
  function Completed(pieces: seq<Piece>, tokens: seq<Token>, i: nat, k: nat): seq<Token>
    requires i <= k < |tokens| && k + 1 - i <= |pieces| && tokens[k].offset + 1 < SOURCE_SIZE_LIMIT
  {
    tokens[..k + 1] + TokensFor(pieces[k + 1 - i..], tokens[k].offset) + [Token(EndOfFile, 0, 0)]
  }

  lemma {:induction false} CompletedSpells(pieces: seq<Piece>, tokens: seq<Token>, i: nat, k: nat)
    requires AreFree(pieces) && i <= k < |tokens| && Begins(pieces, tokens, i, k + 1)
             && tokens[k].offset + 1 < SOURCE_SIZE_LIMIT
    ensures var others := Completed(pieces, tokens, i, k);
            |others| == i + |pieces| + 1 && Spelled(pieces, others, i)
  {
    var others := Completed(pieces, tokens, i, k);
    var n := k + 1 - i;
    forall j | 0 <= j < |pieces| ensures Fits(pieces[j], others, i + j) {
      if j < n {
        assert Fits(pieces[..n][j], tokens, i + j);
        assert others[i + j] == tokens[i + j];
      } else {
        assert IsFree(pieces, j);
        assert others[i + j] == TokenFor(pieces[j], if j == n then tokens[k].offset else 0);
        if pieces[j].Adjoining? {
          if j == n {
            assert others[i + j - 1] == tokens[k];
          } else {
            assert others[i + j - 1] == TokenFor(pieces[j - 1], if j - 1 == n then tokens[k].offset else 0);
          }
        }
      }
    }
  }

  lemma {:induction false} CompletedShares(pieces: seq<Piece>, tokens: seq<Token>, i: nat, k: nat)
    requires AreFree(pieces) && i <= k < |tokens| && Begins(pieces, tokens, i, k + 1)
             && tokens[k].offset + 1 < SOURCE_SIZE_LIMIT
    requires EndsInOnlyEndOfFile(tokens)
    ensures Share(tokens, Completed(pieces, tokens, i, k), k)
  {
    var others := Completed(pieces, tokens, i, k);
    var n := k + 1 - i;
    assert Fits(pieces[..n][n - 1], tokens, i + (n - 1)) && IsFree(pieces, n - 1);
    forall j | 0 <= j < |others| - 1 ensures others[j].kind != EndOfFile {
      if j <= k {
        assert others[j] == tokens[j];
      } else {
        assert others[j] == TokenFor(pieces[n..][j - k - 1], if j == k + 1 then tokens[k].offset else 0);
        assert pieces[n..][j - k - 1] == pieces[j - i] && IsFree(pieces, j - i);
      }
    }
    assert forall j :: 0 <= j <= k ==> others[j] == tokens[j];
  }

  // ---------------------------------------------------------------- main results

  /** The token is the end of the file, or another could stand right behind it, as is so in every source. */
  predicate HasRoomBehind(tokens: seq<Token>, k: nat) {
    k < |tokens| && (tokens[k].kind == EndOfFile || tokens[k].offset + 1 < SOURCE_SIZE_LIMIT)
  }

  /** No spelling goes over the end of the file. */
  lemma NothingBeginsWithEnd(pieces: seq<Piece>, tokens: seq<Token>, i: nat, k: nat)
    requires AreFree(pieces) && i <= k < |tokens| && Begins(pieces, tokens, i, k + 1)
    ensures tokens[k].kind != EndOfFile
  {
    var n := k + 1 - i;
    assert Fits(pieces[..n][n - 1], tokens, i + (n - 1)) && IsFree(pieces, n - 1);
  }

  /** No statement of the language goes on with the token at which a statement fails. */
  lemma {:induction false} NoStatementGoesOn(tokens: seq<Token>, s: State, e: Expr)
    requires Live(tokens, s) && ParseStatement(tokens, s).Thrown?
    requires Shaped(e) && (StartsWithBlock(e) ==> e.Block?)
    requires HasRoomBehind(tokens, ParseStatement(tokens, s).state.pos)
    ensures !Begins(PrintStatement(e), tokens, s.pos, ParseStatement(tokens, s).state.pos + 1)
  {
    hide ParseStatement, EndsInOnlyEndOfFile, Shaped, StartsWithBlock, PrintStatement, Begins, AreFree, Share, Spelled,
         Completed;
    var k := ParseStatement(tokens, s).state.pos;
    var pieces := PrintStatement(e);
    StatementMoves(tokens, s);
    if Begins(pieces, tokens, s.pos, k + 1) {
      BeginsInside(pieces, tokens, s.pos, k + 1);
      StatementIsFree(e);
      NothingBeginsWithEnd(pieces, tokens, s.pos, k);
      CompletedSpells(pieces, tokens, s.pos, k);
      CompletedShares(pieces, tokens, s.pos, k);
      var others := Completed(pieces, tokens, s.pos, k);
      Shared(tokens, others, k, s);
      StatementComplete(others, s, e);
      StatementLocal(tokens, others, k, s);
    }
  }

  lemma BeginsInside(pieces: seq<Piece>, tokens: seq<Token>, i: nat, k: nat)
    requires Begins(pieces, tokens, i, k)
    ensures i <= k <= |tokens| && k - i <= |pieces|
  {
  }

  lemma {:induction false} ParametersAreFree(ps: seq<Parameter>)
    ensures AreFree(PrintParameters(ps))
  {
    hide AreFree, Print, PrintName;
    if ps != [] {
      PrintIsFree(ps[0].typ);
      NameIsFree(ps[0].name);
      if |ps| > 1 {
        ParametersAreFree(ps[1..]);
        OneIsFree(Mark(Comma));
        FreeJoin([Mark(Comma)], PrintParameters(ps[1..]));
        FreeJoin(PrintName(ps[0].name), [Mark(Comma)] + PrintParameters(ps[1..]));
        FreeJoin(Print(ps[0].typ), PrintName(ps[0].name) + ([Mark(Comma)] + PrintParameters(ps[1..])));
      } else {
        FreeJoin(Print(ps[0].typ), PrintName(ps[0].name));
      }
    } else {
      NothingIsFree();
    }
  }

  lemma NothingIsFree()
    ensures AreFree([])
  {
  }

  lemma NameIsFree(name: Name)
    ensures AreFree(PrintName(name))
  {
  }

  lemma {:induction false} OutputsAreFree(os: seq<Output>)
    ensures AreFree(PrintOutputs(os))
  {
    hide AreFree, Print;
    if os != [] {
      PrintIsFree(os[0].typ);
      if |os| > 1 {
        OutputsAreFree(os[1..]);
        OneIsFree(Mark(Comma));
        FreeJoin([Mark(Comma)], PrintOutputs(os[1..]));
        FreeJoin(Print(os[0].typ), [Mark(Comma)] + PrintOutputs(os[1..]));
      }
    } else {
      NothingIsFree();
    }
  }

  lemma ArrowIsFree(os: seq<Output>)
    ensures AreFree(PrintArrow(os))
  {
    hide AreFree, PrintOutputs;
    OutputsAreFree(os);
    NothingIsFree();
    OneIsFree(Mark(ThinArrow));
    FreeJoin([Mark(ThinArrow)], PrintOutputs(os));
  }

  lemma AccessIsFree(d: Definition)
    ensures AreFree(PrintAccess(d))
  {
  }

  lemma {:induction false} SignatureIsFree(ps: seq<Parameter>, os: seq<Output>)
    ensures AreFree(PrintSignature(ps, os))
  {
    hide AreFree, PrintParameters, PrintArrow;
    ParametersAreFree(ps);
    ArrowIsFree(os);
    OneIsFree(Mark(LParen));
    OneIsFree(Mark(RParen));
    OneIsFree(Mark(LBrace));
    FreeJoin(PrintArrow(os), [Mark(LBrace)]);
    FreeJoin([Mark(RParen)], PrintArrow(os) + [Mark(LBrace)]);
    FreeJoin(PrintParameters(ps), [Mark(RParen)] + (PrintArrow(os) + [Mark(LBrace)]));
    FreeJoin([Mark(LParen)], PrintParameters(ps) + ([Mark(RParen)] + (PrintArrow(os) + [Mark(LBrace)])));
  }

  lemma {:induction false} DefinitionIsFree(d: Definition)
    ensures AreFree(PrintDefinition(d))
  {
    hide AreFree, PrintDefinition, PrintAccess, PrintName, PrintSignature, PrintBlock;
    AccessIsFree(d);
    NameIsFree(d.name);
    SignatureIsFree(d.parameters, d.outputs);
    BlockIsFree(d.statements);
    DefinitionPieces(d);
    FreeJoin(PrintSignature(d.parameters, d.outputs), PrintBlock(d.statements));
    FreeJoin(PrintName(d.name), PrintSignature(d.parameters, d.outputs) + PrintBlock(d.statements));
    FreeJoin(PrintAccess(d), PrintName(d.name) + (PrintSignature(d.parameters, d.outputs) + PrintBlock(d.statements)));
  }

  lemma DefinitionMoves(tokens: seq<Token>, s: State)
    requires Live(tokens, s)
    ensures var t := ParseDefinition(tokens, s).state; Live(tokens, t) && s.pos <= t.pos
  {
    hide ParseDefinition, EndsInOnlyEndOfFile, NamesNotEmpty;
  }

  /** No definition of the language goes on with the token at which a definition fails. */
  lemma {:induction false} NoDefinitionGoesOn(tokens: seq<Token>, s: State, d: Definition)
    requires Live(tokens, s) && ParseDefinition(tokens, s).Thrown? && ShapedDefinition(d)
    requires Live(tokens, ParseDefinition(tokens, s).state)
    requires HasRoomBehind(tokens, ParseDefinition(tokens, s).state.pos)
    ensures !Begins(PrintDefinition(d), tokens, s.pos, ParseDefinition(tokens, s).state.pos + 1)
  {
    hide ParseDefinition, EndsInOnlyEndOfFile, NamesNotEmpty, ShapedDefinition, PrintDefinition, Begins, AreFree, Share,
         Spelled, Completed;
    var k := ParseDefinition(tokens, s).state.pos;
    var pieces := PrintDefinition(d);
    DefinitionMoves(tokens, s);
    if Begins(pieces, tokens, s.pos, k + 1) {
      BeginsInside(pieces, tokens, s.pos, k + 1);
      DefinitionIsFree(d);
      NothingBeginsWithEnd(pieces, tokens, s.pos, k);
      CompletedSpells(pieces, tokens, s.pos, k);
      CompletedShares(pieces, tokens, s.pos, k);
      var others := Completed(pieces, tokens, s.pos, k);
      Shared(tokens, others, k, s);
      DefinitionComplete(others, s, d);
      DefinitionLocal(tokens, others, k, s);
    }
  }

  // ---------------------------------------------------------------- messages by what is missing

  /** A statement of which only the semicolon is missing. */
  lemma {:induction false} MissingSemicolon(tokens: seq<Token>, s: State, e: Expr)
    requires Shaped(e) && !StartsWithBlock(e) && Ahead(Print(e), tokens, s)
    requires var next := Kind(tokens, Past(s, Print(e))); next != Semicolon && !IsTail(next) && CanPrecede(e, next)
    ensures ParseStatement(tokens, s) == Thrown(ReportExpected(tokens, Past(s, Print(e)), ExpectSemicolon))
  {
    hide ParseStatement, ParseExpression, EndsInOnlyEndOfFile, Print, Shaped, CanPrecede, Expect, LookupTailRule,
         Spelled, HeadRule;
    ElementComplete(tokens, s, e);
    SpelledHead(e, tokens, s.pos);
    StatementCases(tokens, s);
    ExpectFails(tokens, Past(s, Print(e)), Semicolon, ExpectSemicolon);
  }

  /** A call of which only the closing parenthesis is missing. */
  lemma {:induction false} MissingClosingParen(tokens: seq<Token>, t: State, callee: Expr, args: seq<Expr>)
    requires Live(tokens, t) && NextTailRule(tokens, t).tail == CallTail && Kind(tokens, t) == LParen
    requires args != [] && ShapedList(args) && Ahead(PrintList(args), tokens, Advance(tokens, t))
    requires var next := Kind(tokens, Past(Advance(tokens, t), PrintList(args)));
             next != RParen && next != Comma && !IsTail(next) && CanPrecede(args[|args| - 1], next)
    ensures ParseTail(tokens, t, CallTail, callee)
            == Thrown(ReportExpected(tokens, Past(Advance(tokens, t), PrintList(args)), ExpectClosingParenInCall))
  {
    hide ParseTail, ParseList, EndsInOnlyEndOfFile, PrintList, ShapedList, CanPrecede, Expect, LookupTailRule, Spelled,
         HeadRule;
    var t1 := Advance(tokens, t);
    CallCases(tokens, t, callee);
    ParenCloses();
    ListComplete(tokens, t1, args);
    ExpectFails(tokens, Past(t1, PrintList(args)), RParen, ExpectClosingParenInCall);
  }
}
