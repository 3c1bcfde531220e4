/** The cursor over a token list (cero/syntax/token_cursor.hh). */
module TokenCursors {
  import opened Tokens

  lemma CommentIsNotLast(tokens: seq<Token>, k: nat)
    requires EndsInOnlyEndOfFile(tokens) && k < |tokens| && IsComment(tokens[k].kind)
    ensures k + 1 < |tokens|
  {
  }

  class TokenCursor {
    const tokens: seq<Token>
    var pos: nat

    /** Positioned on a token of a list that ends in its only end-of-file token. */
    ghost predicate Valid()
      reads this
    {
      EndsInOnlyEndOfFile(tokens) && pos < |tokens|
    }

    constructor (tokens: seq<Token>)
      requires EndsInOnlyEndOfFile(tokens)
      ensures Valid() && this.tokens == tokens && pos == 0
    {
      this.tokens := tokens;
      pos := 0;
    }

    function Peek(): Token
      requires Valid()
      reads this
    {
      tokens[pos]
    }

    function PeekKind(): TokenKind
      requires Valid()
      reads this
    {
      tokens[pos].kind
    }

    function PeekOffset(): Offset
      requires Valid()
      reads this
    {
      tokens[pos].offset
    }

    /** Looks at the next token; at the last one, which is the end of the file, at that. */
    function PeekAhead(): (token: Token)
      requires Valid()
      reads this
      ensures token == if pos + 1 < |tokens| then tokens[pos + 1] else tokens[pos]
    {
      if tokens[pos].kind == EndOfFile then tokens[pos] else tokens[pos + 1]
    }

    method Advance()
      requires Valid()
      modifies this
      ensures Valid() && pos == if old(PeekKind()) == EndOfFile then old(pos) else old(pos) + 1
    {
      if tokens[pos].kind != EndOfFile {
        pos := pos + 1;
      }
    }

    method Next() returns (token: Token)
      requires Valid()
      modifies this
      ensures Valid() && pos == if old(PeekKind()) == EndOfFile then old(pos) else old(pos) + 1
      ensures token == old(Peek())
    {
      token := tokens[pos];
      Advance();
    }

    method Match(kind: TokenKind) returns (matched: bool)
      requires Valid()
      modifies this
      ensures Valid() && matched == (old(PeekKind()) == kind)
      ensures pos == if matched && kind != EndOfFile then old(pos) + 1 else old(pos)
    {
      matched := tokens[pos].kind == kind;
      if matched {
        Advance();
      }
    }

    /** Moves to the next token that is no comment, which there always is. */
    method SkipComments()
      requires Valid()
      modifies this
      ensures Valid() && old(pos) <= pos
      ensures !IsComment(PeekKind())
      ensures forall k :: old(pos) <= k < pos ==> IsComment(tokens[k].kind)
    {
      hide EndsInOnlyEndOfFile;
      var kind := tokens[pos].kind;
      while IsComment(kind)
        invariant Valid() && old(pos) <= pos && kind == tokens[pos].kind
        invariant forall k :: old(pos) <= k < pos ==> IsComment(tokens[k].kind)
        decreases |tokens| - pos
      {
        CommentIsNotLast(tokens, pos);
        pos := pos + 1;
        kind := tokens[pos].kind;
      }
    }
  }
}
