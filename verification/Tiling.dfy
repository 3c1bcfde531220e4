/** The token list is a faithful, ordered tiling of the source text, and is what the parser relies on. */
module Tiling {
  import opened Tokens
  import opened SourceText
  import opened Keywords
  import opened Lexical

  /** How many bytes of the text a token stands for. */
  function Span(t: Token): nat {
    if t.length > 0 then t.length else |FixedText(t.kind)|
  }

  /** `Token::get_text`. */
  function GetText(t: Token, text: Text): Text
    requires t.offset + t.length <= |text|
  {
    if t.length > 0 then text[t.offset..t.offset + t.length] else FixedText(t.kind)
  }

  predicate IsVariableLength(kind: TokenKind) {
    kind in {Identifier, LineComment, BlockComment, DecIntLiteral, HexIntLiteral, BinIntLiteral, OctIntLiteral,
             FloatLiteral, CharLiteral, StringLiteral}
  }

  /** The text of the token is the slice of the source that it stands for. */
  ghost predicate Faithful(t: Token, text: Text) {
    && t.offset + Span(t) <= |text|
    && Span(t) > 0
    && GetText(t, text) == text[t.offset..t.offset + Span(t)]
    && t.kind != EndOfFile
    && (t.kind == Identifier ==> t.length > 0)
    && (t.length > 0 ==> IsVariableLength(t.kind))
  }

  /** The tokens are faithful and lie one behind the other between two offsets. */
  ghost predicate Tiles(tokens: seq<Token>, text: Text, i: nat, j: nat) {
    if tokens == [] then i <= j
    else
      && i <= tokens[0].offset
      && Faithful(tokens[0], text)
      && Tiles(tokens[1..], text, tokens[0].offset + Span(tokens[0]), j)
  }

  ghost predicate Blank(text: Text, i: nat, j: nat) {
    forall k :: i <= k < j && k < |text| ==> IsWhitespace(text[k])
  }

  /** Between the tokens, and before the first and behind the last of them, there is only whitespace. */
  ghost predicate GapsBlank(tokens: seq<Token>, text: Text, i: nat, j: nat) {
    if tokens == [] then Blank(text, i, j)
    else
      && Blank(text, i, tokens[0].offset)
      && GapsBlank(tokens[1..], text, tokens[0].offset + Span(tokens[0]), j)
  }

  // ---------------------------------------------------------------- one token

  lemma MaskKeeps(offset: nat)
    requires offset < SOURCE_SIZE_LIMIT
    ensures Masked(offset) == offset
  {
  }

  /** A variable-length token. */
  lemma LongToken(text: Text, i: nat, j: nat, kind: TokenKind)
    requires i < j <= |text| <= SOURCE_SIZE_MAX && IsVariableLength(kind)
    ensures var t := MakeToken(kind, i, j - i);
            Faithful(t, text) && t.offset == i && Span(t) == j - i
  {
    hide FixedText, Masked;
    MaskKeeps(i);
  }

  /** A token of fixed length. */
  lemma ShortToken(text: Text, i: nat, kind: TokenKind, lexeme: string)
    requires |text| <= SOURCE_SIZE_MAX && FixedText(kind) == lexeme && lexeme != [] && kind != EndOfFile
             && kind != Identifier
    requires i + |lexeme| <= |text| && text[i..i + |lexeme|] == lexeme
    ensures var t := MakeToken(kind, i, 0);
            Faithful(t, text) && t.offset == i && Span(t) == |lexeme|
  {
    hide FixedText, Masked;
    MaskKeeps(i);
  }

  lemma OneTile(t: Token, text: Text, i: nat, end: nat, j: nat)
    requires Faithful(t, text) && t.offset == i && end == i + Span(t) <= j
    ensures Tiles([t], text, i, j)
    ensures Blank(text, end, j) ==> GapsBlank([t], text, i, j)
  {
    hide Faithful, Span;
    assert [t][1..] == [];
    assert Tiles([], text, end, j);
    if Blank(text, end, j) {
      assert GapsBlank([], text, end, j);
    }
  }

  lemma TwoTiles(t: Token, u: Token, text: Text, i: nat, j: nat)
    requires Faithful(t, text) && t.offset == i && i + Span(t) <= u.offset
    requires Faithful(u, text) && u.offset + Span(u) <= j
    ensures Tiles([t, u], text, i, j)
    ensures Blank(text, i + Span(t), u.offset) && Blank(text, u.offset + Span(u), j) ==> GapsBlank([t, u], text, i, j)
  {
    hide Faithful, Span;
    assert [t, u][1..] == [u];
    OneTile(u, text, u.offset, u.offset + Span(u), j);
    assert Tiles([u], text, i + Span(t), j);
  }

  // ---------------------------------------------------------------- one step

  lemma WordTile(text: Text, i: nat, end: nat)
    requires i < end <= |text| <= SOURCE_SIZE_MAX
    ensures var t := WordToken(text, i, end);
            Faithful(t, text) && t.offset == i && Span(t) == end - i
  {
    hide WordKind, FixedText;
    KeywordReads(text[i..end]);
    if WordKind(text[i..end]) == Identifier {
      LongToken(text, i, end, Identifier);
    } else {
      ShortToken(text, i, WordKind(text[i..end]), text[i..end]);
    }
  }

  ghost predicate StepTiles(text: Text, i: nat, scan: Scan) {
    Tiles(scan.tokens, text, i, scan.next) && i < scan.next <= |text|
  }

  /** The gaps of a step are blank unless it reported an invalid character. */
  ghost predicate StepGaps(text: Text, i: nat, scan: Scan) {
    GapsBlank(scan.tokens, text, i, scan.next) || (exists r :: r in scan.reports && r.message == InvalidCharacter)
  }

  lemma {:induction false} DigitsTile(text: Text, i: nat, hexadecimal: bool)
    requires i <= |text|
    ensures Blank(text, i, SkipWhitespace(text, i))
    ensures DigitsEnd(text, i, hexadecimal) == i
            <==> !(SkipWhitespace(text, i) < |text| && IsDigit(text[SkipWhitespace(text, i)], hexadecimal))
  {
  }

  lemma NumberTiles(text: Text, i: nat)
    requires i < |text| <= SOURCE_SIZE_MAX
    ensures StepTiles(text, i, ScanNumber(text, i)) && StepGaps(text, i, ScanNumber(text, i))
  {
    hide FixedText, Masked, Faithful, Span, Tiles, GapsBlank, DigitsEnd, SkipWhitespace;
    if text[i] == '0' && At(text, i + 1) == 'x' {
      PrefixedTiles(text, i, HexIntLiteral, true);
    } else if text[i] == '0' && At(text, i + 1) == 'b' {
      PrefixedTiles(text, i, BinIntLiteral, false);
    } else if text[i] == '0' && At(text, i + 1) == 'o' {
      PrefixedTiles(text, i, OctIntLiteral, false);
    } else {
      DecimalTiles(text, i);
    }
  }

  lemma PrefixedTiles(text: Text, i: nat, kind: TokenKind, hexadecimal: bool)
    requires i + 2 <= |text| <= SOURCE_SIZE_MAX && IsVariableLength(kind)
    ensures StepTiles(text, i, ScanPrefixed(text, i, kind, hexadecimal))
    ensures StepGaps(text, i, ScanPrefixed(text, i, kind, hexadecimal))
  {
    hide FixedText, Masked, Faithful, Span, Tiles, GapsBlank, DigitsEnd, SkipWhitespace;
    var end := DigitsEnd(text, i + 2, hexadecimal);
    LongToken(text, i, end, kind);
    DigitsTile(text, end, hexadecimal);
    OneTile(MakeToken(kind, i, end - i), text, i, end, SkipWhitespace(text, end));
  }

  lemma DecimalTiles(text: Text, i: nat)
    requires i < |text| <= SOURCE_SIZE_MAX
    ensures StepTiles(text, i, ScanDecimal(text, i)) && StepGaps(text, i, ScanDecimal(text, i))
  {
    hide FixedText, Masked, Faithful, Span, Tiles, GapsBlank, DigitsEnd, SkipWhitespace, Blank;
    var end := DigitsEnd(text, i + 1, false);
    var dot := SkipWhitespace(text, end);
    LongToken(text, i, end, DecIntLiteral);
    DigitsTile(text, end, false);
    if At(text, dot) == '.' {
      var fraction := DigitsEnd(text, dot + 1, false);
      var next := SkipWhitespace(text, fraction);
      DigitsTile(text, fraction, false);
      if fraction > dot + 1 {
        LongToken(text, i, fraction, FloatLiteral);
        OneTile(MakeToken(FloatLiteral, i, fraction - i), text, i, fraction, next);
      } else {
        DotToken(text, dot);
        TwoTiles(MakeToken(DecIntLiteral, i, end - i), MakeToken(Dot, dot, 0), text, i, next);
      }
    } else {
      OneTile(MakeToken(DecIntLiteral, i, end - i), text, i, end, dot);
    }
  }

  lemma DotToken(text: Text, i: nat)
    requires |text| <= SOURCE_SIZE_MAX && At(text, i) == '.'
    ensures var t := MakeToken(Dot, i, 0); Faithful(t, text) && t.offset == i && Span(t) == 1
  {
    assert FixedText(Dot) == ".";
    ShortToken(text, i, Dot, ".");
  }

  lemma DotTiles(text: Text, i: nat)
    requires i < |text| <= SOURCE_SIZE_MAX && text[i] == '.'
    ensures StepTiles(text, i, ScanDot(text, i)) && StepGaps(text, i, ScanDot(text, i))
  {
    hide FixedText, Masked, Faithful, Span, Tiles, GapsBlank, DigitsEnd, SkipWhitespace, Blank;
    var end := DigitsEnd(text, i + 1, false);
    var next := SkipWhitespace(text, end);
    DigitsTile(text, end, false);
    if end > i + 1 {
      LongToken(text, i, end, FloatLiteral);
      OneTile(MakeToken(FloatLiteral, i, end - i), text, i, end, next);
    } else {
      DotToken(text, i);
      OneTile(MakeToken(Dot, i, 0), text, i, i + 1, next);
    }
  }

  // ---------------------------------------------------------------- operators

  /** The operator tables hold exactly the lexemes of one, two and three characters. */
  lemma OneCharReads(a: char)
    ensures OneChar(a) != EndOfFile ==> FixedText(OneChar(a)) == [a]
    ensures OneChar(a) != Identifier
  {
    hide FixedText, SignChar, OneChar;
    SignIsNoName(a);
    if OneChar(a) != EndOfFile {
      SignMatches(a, OneChar(a));
      SignIsFixed(OneChar(a));
    }
  }

  lemma SignMatches(a: char, kind: TokenKind)
    requires OneChar(a) == kind && kind != EndOfFile
    ensures SignChar(kind) == a != '\0'
  {
    hide OneChar, SignChar;
    NulIsNoSign();
    if kind in {LParen, RParen, LBracket, RBracket, LBrace, RBrace, Comma, Semicolon, Colon, Caret} {
      PunctuationMatches(a, kind);
    } else {
      OperatorSignMatches(a, kind);
    }
  }

  lemma NulIsNoSign()
    ensures OneChar('\0') == EndOfFile
  {
  }

  lemma PunctuationMatches(a: char, kind: TokenKind)
    requires OneChar(a) == kind
    requires kind in {LParen, RParen, LBracket, RBracket, LBrace, RBrace, Comma, Semicolon, Colon, Caret}
    ensures SignChar(kind) == a
  {
  }

  lemma OperatorSignMatches(a: char, kind: TokenKind)
    requires OneChar(a) == kind && kind != EndOfFile
    requires kind !in {LParen, RParen, LBracket, RBracket, LBrace, RBrace, Comma, Semicolon, Colon, Caret}
    ensures SignChar(kind) == a
  {
  }

  lemma SignIsNoName(a: char)
    ensures OneChar(a) != Identifier
  {
  }

  lemma TwoCharsRead(a: char, b: char)
    ensures TwoChars(a, b) != EndOfFile ==> FixedText(TwoChars(a, b)) == [a, b]
    ensures TwoChars(a, b) != Identifier
  {
    hide FixedText, PairChars, TwoChars;
    PairIsNoName(a, b);
    if TwoChars(a, b) != EndOfFile {
      PairMatches(a, b, TwoChars(a, b));
      PairIsFixed(TwoChars(a, b));
    }
  }

  lemma PairMatches(a: char, b: char, kind: TokenKind)
    requires TwoChars(a, b) == kind && kind != EndOfFile
    ensures PairChars(kind) == Pair(a, b)
  {
  }

  lemma PairIsNoName(a: char, b: char)
    ensures TwoChars(a, b) != Identifier
  {
  }

  lemma ThreeCharsRead(a: char, b: char, c: char)
    ensures ThreeChars(a, b, c) != EndOfFile ==> FixedText(ThreeChars(a, b, c)) == [a, b, c]
    ensures ThreeChars(a, b, c) != Identifier
  {
    hide FixedText, TripleText, ThreeChars;
    TriplesMatch(a, b, c);
    if ThreeChars(a, b, c) != EndOfFile {
      TripleIsFixed(ThreeChars(a, b, c));
    }
  }

  lemma TriplesMatch(a: char, b: char, c: char)
    ensures ThreeChars(a, b, c) != EndOfFile ==> TripleText(ThreeChars(a, b, c)) == [a, b, c]
    ensures ThreeChars(a, b, c) != Identifier
  {
  }

  lemma OperatorTiles(text: Text, i: nat)
    requires i < |text| <= SOURCE_SIZE_MAX && IsOperatorStart(text[i])
    ensures StepTiles(text, i, ScanOperator(text, i)) && StepGaps(text, i, ScanOperator(text, i))
  {
    hide FixedText, Masked, Faithful, Span, Tiles, GapsBlank, OneChar, TwoChars, ThreeChars;
    var a, b, c := text[i], At(text, i + 1), At(text, i + 2);
    OperatorsAreShort(text, i);
    if ThreeChars(a, b, c) != EndOfFile {
      ThreeCharsRead(a, b, c);
      assert text[i..i + 3] == [a, b, c];
      ShortToken(text, i, ThreeChars(a, b, c), [a, b, c]);
      OneTile(MakeToken(ThreeChars(a, b, c), i, 0), text, i, i + 3, i + 3);
    } else if a == '>' && b == '>' {
      AngleToken(text, i);
      AngleToken(text, i + 1);
      TwoTiles(MakeToken(RAngle, i, 0), MakeToken(RAngle, i + 1, 0), text, i, i + 2);
    } else if TwoChars(a, b) != EndOfFile {
      TwoCharsRead(a, b);
      assert text[i..i + 2] == [a, b];
      ShortToken(text, i, TwoChars(a, b), [a, b]);
      OneTile(MakeToken(TwoChars(a, b), i, 0), text, i, i + 2, i + 2);
    } else {
      OneCharReads(a);
      assert text[i..i + 1] == [a];
      ShortToken(text, i, OneChar(a), [a]);
      OneTile(MakeToken(OneChar(a), i, 0), text, i, i + 1, i + 1);
    }
  }

  lemma AngleToken(text: Text, i: nat)
    requires |text| <= SOURCE_SIZE_MAX && At(text, i) == '>'
    ensures var t := MakeToken(RAngle, i, 0); Faithful(t, text) && t.offset == i && Span(t) == 1
  {
    assert FixedText(RAngle) == ">";
    ShortToken(text, i, RAngle, ">");
  }

  // ---------------------------------------------------------------- words, comments, quotes, other characters

  lemma WordTiles(text: Text, i: nat, config: Config)
    requires i < |text| <= SOURCE_SIZE_MAX
    ensures StepTiles(text, i, ScanWord(text, i, config)) && StepGaps(text, i, ScanWord(text, i, config))
  {
    hide FixedText, Masked, Faithful, Span, Tiles, GapsBlank, WordEnd, WordReports, WordToken;
    var end := WordEnd(text, i + 1, config);
    WordTile(text, i, end);
    OneTile(WordToken(text, i, end), text, i, end, end);
  }

  lemma OtherTiles(text: Text, i: nat, config: Config)
    requires i < |text| <= SOURCE_SIZE_MAX
    ensures StepTiles(text, i, ScanOther(text, i, config)) && StepGaps(text, i, ScanOther(text, i, config))
  {
    hide FixedText, Masked, Faithful, Span, GapsBlank, WordEnd, WordReports, CharIn, CharEnd;
    var start := CharEnd(text, i);
    if CharIn(text, i, config.start) {
      var end := WordEnd(text, start, config);
      LongToken(text, i, end, Identifier);
      OneTile(MakeToken(Identifier, i, end - i), text, i, end, end);
    } else {
      assert ScanOther(text, i, config).reports[0].message == InvalidCharacter;
    }
  }

  lemma CommentTiles(text: Text, i: nat, config: Config)
    requires i < |text| <= SOURCE_SIZE_MAX && StartsComment(text, i)
    ensures StepTiles(text, i, ScanComment(text, i, config))
    ensures config.emitComments ==> StepGaps(text, i, ScanComment(text, i, config))
  {
    hide FixedText, Masked, Faithful, Span, GapsBlank, LineEnd, CommentEnd;
    var line := text[i + 1] == '/';
    var closing := CommentEnd(text, i + 2, 1);
    var end := if line then LineEnd(text, i + 2) else if closing.ClosedAt? then closing.end else |text|;
    var kind := if line then LineComment else BlockComment;
    LongToken(text, i, end, kind);
    OneTile(MakeToken(kind, i, end - i), text, i, end, end);
  }

  lemma QuoteTiles(text: Text, i: nat)
    requires i < |text| <= SOURCE_SIZE_MAX
    ensures StepTiles(text, i, ScanQuote(text, i)) && StepGaps(text, i, ScanQuote(text, i))
  {
    hide FixedText, Masked, Faithful, Span, Tiles, GapsBlank, QuoteEnd, QuoteUnclosed;
    var end := QuoteEnd(text, i, i + 1);
    var kind := if text[i] == '"' then StringLiteral else CharLiteral;
    LongToken(text, i, end, kind);
    OneTile(MakeToken(kind, i, end - i), text, i, end, end);
  }

  /** Every step of the lexer tiles the part of the text that it goes over. */
  lemma {:induction false} EachStepTiles(text: Text, i: nat, config: Config)
    requires i < |text| <= SOURCE_SIZE_MAX && text[i] != '\0'
    ensures StepTiles(text, i, Step(text, i, config))
    ensures config.emitComments ==> StepGaps(text, i, Step(text, i, config))
  {
    hide StepTiles, StepGaps, ScanWord, ScanNumber, ScanDot, ScanComment, ScanQuote, ScanOperator, ScanOther,
         OneChar, FixedText;
    var c := text[i];
    if IsWhitespace(c) {
      BlankTiles(text, i);
    } else if IsWordStart(c) {
      WordTiles(text, i, config);
    } else if IsDecimalDigit(c) {
      NumberTiles(text, i);
    } else if c == '.' {
      DotTiles(text, i);
    } else if StartsComment(text, i) {
      CommentTiles(text, i, config);
    } else if c == '"' || c == '\'' {
      QuoteTiles(text, i);
    } else if IsOperatorStart(c) {
      OperatorTiles(text, i);
    } else {
      OtherTiles(text, i, config);
    }
  }

  lemma BlankTiles(text: Text, i: nat)
    requires i < |text| && IsWhitespace(text[i])
    ensures StepTiles(text, i, Scan(i + 1, [], [])) && StepGaps(text, i, Scan(i + 1, [], []))
  {
  }

  // ---------------------------------------------------------------- the whole list

  lemma {:induction false} TilesJoin(a: seq<Token>, b: seq<Token>, text: Text, i: nat, j: nat, k: nat)
    requires Tiles(a, text, i, j) && Tiles(b, text, j, k)
    ensures Tiles(a + b, text, i, k)
    decreases a
  {
    hide Faithful, Span;
    if a == [] {
      assert a + b == b;
      TilesEarlier(b, text, i, j, k);
    } else {
      assert (a + b)[1..] == a[1..] + b;
      TilesJoin(a[1..], b, text, a[0].offset + Span(a[0]), j, k);
    }
  }

  lemma {:induction false} TilesEarlier(b: seq<Token>, text: Text, i: nat, j: nat, k: nat)
    requires i <= j && Tiles(b, text, j, k)
    ensures Tiles(b, text, i, k)
    decreases b
  {
    hide Faithful;
    TilesForward(b, text, j, k);
  }

  lemma {:induction false} TilesForward(b: seq<Token>, text: Text, j: nat, k: nat)
    requires Tiles(b, text, j, k)
    ensures j <= k
    decreases b
  {
    hide Faithful, Span;
    if b != [] {
      TilesForward(b[1..], text, b[0].offset + Span(b[0]), k);
    }
  }

  lemma {:induction false} GapsJoin(a: seq<Token>, b: seq<Token>, text: Text, i: nat, j: nat, k: nat)
    requires GapsBlank(a, text, i, j) && GapsBlank(b, text, j, k) && Tiles(a, text, i, j)
    ensures GapsBlank(a + b, text, i, k)
    decreases a
  {
    hide Faithful, Span;
    if a == [] {
      assert a + b == b;
    } else {
      assert (a + b)[1..] == a[1..] + b;
      GapsJoin(a[1..], b, text, a[0].offset + Span(a[0]), j, k);
    }
  }

  function Init(tokens: seq<Token>): seq<Token>
    requires tokens != []
  {
    tokens[..|tokens| - 1]
  }

  function Last(tokens: seq<Token>): Token
    requires tokens != []
  {
    tokens[|tokens| - 1]
  }

  lemma {:induction false} LexFromTiles(text: Text, i: nat, config: Config)
    requires i <= |text| <= SOURCE_SIZE_MAX
    ensures var tokens := LexFrom(text, i, config).tokens;
            && tokens != []
            && Last(tokens).kind == EndOfFile && Last(tokens).offset <= |text|
            && Tiles(Init(tokens), text, i, Last(tokens).offset)
    decreases |text| - i
  {
    hide Step, Faithful, Span, Masked;
    if At(text, i) == '\0' {
      MaskKeeps(i);
    } else {
      StepAdvances(text, i, config);
      var scan := Step(text, i, config);
      EachStepTiles(text, i, config);
      LexFromTiles(text, scan.next, config);
      var rest := LexFrom(text, scan.next, config).tokens;
      assert Init(scan.tokens + rest) == scan.tokens + Init(rest);
      TilesJoin(scan.tokens, Init(rest), text, i, scan.next, Last(rest).offset);
    }
  }

  ghost predicate HasInvalidCharacter(reports: seq<Report>) {
    exists r :: r in reports && r.message == InvalidCharacter
  }

  lemma NulIsReported(text: Text, i: nat, config: Config)
    requires i < |text| && text[i] == '\0'
    ensures HasInvalidCharacter(LexFrom(text, i, config).reports)
  {
    hide Step, Masked;
    var reports := LexFrom(text, i, config).reports;
    assert reports[0].message == InvalidCharacter;
  }

  lemma {:induction false} LexFromGaps(text: Text, i: nat, config: Config)
    requires i <= |text| <= SOURCE_SIZE_MAX && config.emitComments
    requires !HasInvalidCharacter(LexFrom(text, i, config).reports)
    ensures var tokens := LexFrom(text, i, config).tokens;
            && tokens != [] && Last(tokens).offset == |text|
            && GapsBlank(Init(tokens), text, i, |text|)
    decreases |text| - i
  {
    hide Step, Faithful, Span, Masked;
    if At(text, i) == '\0' {
      MaskKeeps(i);
      if i < |text| {
        NulIsReported(text, i, config);
      }
    } else {
      StepAdvances(text, i, config);
      var scan := Step(text, i, config);
      EachStepTiles(text, i, config);
      var rest := LexFrom(text, scan.next, config);
      forall r | r in scan.reports || r in rest.reports ensures r in scan.reports + rest.reports {
      }
      LexFromGaps(text, scan.next, config);
      assert Init(scan.tokens + rest.tokens) == scan.tokens + Init(rest.tokens);
      GapsJoin(scan.tokens, Init(rest.tokens), text, i, scan.next, |text|);
    }
  }

  // ---------------------------------------------------------------- main results

  /** Each token ends before the next begins. */
  ghost predicate InOrder(tokens: seq<Token>) {
    forall k :: 0 <= k < |tokens| - 1 ==> tokens[k].offset + Span(tokens[k]) <= tokens[k + 1].offset
  }

  lemma {:induction false} TilesInOrder(tokens: seq<Token>, text: Text, i: nat, last: Token)
    requires Tiles(tokens, text, i, last.offset)
    ensures InOrder(tokens + [last]) && i <= (tokens + [last])[0].offset
    ensures forall k :: 0 <= k < |tokens| ==> Faithful(tokens[k], text)
    decreases tokens
  {
    hide Faithful, Span;
    if tokens != [] {
      var rest := tokens[1..];
      TilesInOrder(rest, text, tokens[0].offset + Span(tokens[0]), last);
      forall k | 0 <= k < |tokens + [last]| - 1
        ensures (tokens + [last])[k].offset + Span((tokens + [last])[k]) <= (tokens + [last])[k + 1].offset
      {
        if k > 0 {
          assert (tokens + [last])[k] == (rest + [last])[k - 1] && (tokens + [last])[k + 1] == (rest + [last])[k];
        } else {
          assert (tokens + [last])[1] == (rest + [last])[0];
        }
      }
      assert forall k :: 0 < k < |tokens| ==> tokens[k] == rest[k - 1];
    }
  }

  /** The token list of every source: it ends in its only end-of-file token, the tokens are in order and do not
      overlap, each reads like the slice of the source that it stands for, and no name is empty. */
  lemma {:induction false} TokensTileTheText(text: Text, config: Config)
    ensures var tokens := Lex(text, config).tokens;
            && EndsInOnlyEndOfFile(tokens) && NamesNotEmpty(tokens)
            && InOrder(tokens) && tokens[|tokens| - 1].offset <= |text|
            && forall k :: 0 <= k < |tokens| - 1 ==> Faithful(tokens[k], text)
  {
    hide LexFrom, Span, Masked, Faithful, InOrder;
    if |text| <= SOURCE_SIZE_MAX {
      LexFromTiles(text, 0, config);
      var tokens := LexFrom(text, 0, config).tokens;
      assert tokens == Init(tokens) + [Last(tokens)];
      TilesInOrder(Init(tokens), text, 0, Last(tokens));
      forall k | 0 <= k < |tokens| - 1
        ensures tokens[k].kind != EndOfFile && (tokens[k].kind == Identifier ==> tokens[k].length > 0)
      {
        assert Init(tokens)[k] == tokens[k];
        FaithfulKinds(tokens[k], text);
      }
    } else {
      TooLargeIsEmpty(text, config);
    }
  }

  lemma FaithfulKinds(t: Token, text: Text)
    requires Faithful(t, text)
    ensures t.kind != EndOfFile && (t.kind == Identifier ==> t.length > 0)
  {
  }

  lemma TooLargeIsEmpty(text: Text, config: Config)
    requires |text| > SOURCE_SIZE_MAX
    ensures Lex(text, config).tokens == [Token(EndOfFile, 0, 0)] && InOrder(Lex(text, config).tokens)
  {
    hide LexFrom;
    MaskKeeps(0);
  }

  lemma {:induction false} GapsInOrder(tokens: seq<Token>, text: Text, i: nat, j: nat)
    requires GapsBlank(tokens, text, i, j)
    ensures if tokens == [] then Blank(text, i, j)
            else Blank(text, i, tokens[0].offset) && Blank(text, Last(tokens).offset + Span(Last(tokens)), j)
    ensures forall k :: 0 <= k < |tokens| - 1 ==> Blank(text, tokens[k].offset + Span(tokens[k]), tokens[k + 1].offset)
    decreases tokens
  {
    hide Span, Blank;
    if tokens != [] {
      var rest := tokens[1..];
      GapsInOrder(rest, text, tokens[0].offset + Span(tokens[0]), j);
      assert forall k :: 0 < k < |tokens| - 1 ==> tokens[k] == rest[k - 1] && tokens[k + 1] == rest[k];
    }
  }

  /** With comments kept as tokens and no invalid character, nothing but whitespace is lost. */
  lemma {:induction false} OnlyWhitespaceIsDropped(text: Text, config: Config)
    requires |text| <= SOURCE_SIZE_MAX && config.emitComments && !HasInvalidCharacter(Lex(text, config).reports)
    ensures var tokens := Lex(text, config).tokens;
            && tokens != [] && tokens[|tokens| - 1].offset == |text|
            && Blank(text, 0, tokens[0].offset)
            && forall k :: 0 <= k < |tokens| - 1 ==> Blank(text, tokens[k].offset + Span(tokens[k]), tokens[k + 1].offset)
  {
    hide LexFrom, Span, Masked, Blank, HasInvalidCharacter;
    LexFromGaps(text, 0, config);
    var tokens := LexFrom(text, 0, config).tokens;
    GapsInOrder(Init(tokens), text, 0, |text|);
    forall k | 0 <= k < |tokens| - 1
      ensures Blank(text, tokens[k].offset + Span(tokens[k]), tokens[k + 1].offset)
    {
      assert Init(tokens)[k] == tokens[k];
      if k < |tokens| - 2 {
        assert Init(tokens)[k + 1] == tokens[k + 1];
      }
    }
  }

  // ---------------------------------------------------------------- numbers of tokens and reports

  lemma {:induction false} TilesBound(tokens: seq<Token>, text: Text, i: nat, j: nat)
    requires Tiles(tokens, text, i, j)
    ensures i + |tokens| <= j
    decreases tokens
  {
    hide Span;
    if tokens != [] {
      TilesBound(tokens[1..], text, tokens[0].offset + Span(tokens[0]), j);
    }
  }

  lemma {:induction false} StepReports(text: Text, i: nat, config: Config)
    requires i < |text|
    ensures |Step(text, i, config).reports| <= 1
  {
    hide WordEnd, FixedText, WordKind, DigitsEnd, SkipWhitespace, CommentEnd, QuoteEnd, QuoteUnclosed, OneChar,
         TwoChars, ThreeChars, CharIn, CharEnd;
    WordReportsAtMostOne(text, i + 1, config);
    WordReportsAtMostOne(text, CharEnd(text, i), config);
  }

  lemma {:induction false} WordReportsAtMostOne(text: Text, i: nat, config: Config)
    requires i <= |text|
    ensures |WordReports(text, i, config)| <= 1
    decreases |text| - i
  {
    hide CharIn, CharEnd, IsAscii, IsAsciiIdentifierChar;
    if i < |text| {
      WordReportsAtMostOne(text, i + 1, config);
      WordReportsAtMostOne(text, CharEnd(text, i), config);
    }
  }

  lemma {:induction false} ReportsBound(text: Text, i: nat, config: Config)
    requires i <= |text|
    ensures |LexFrom(text, i, config).reports| <= |text| - i
    decreases |text| - i
  {
    hide Step, Masked;
    if At(text, i) != '\0' {
      StepAdvances(text, i, config);
      StepReports(text, i, config);
      ReportsBound(text, Step(text, i, config).next, config);
    }
  }

  /** A source of n bytes has at most n tokens beside the end of the file, and at most n lexical errors. */
  lemma {:induction false} LexIsLinear(text: Text, config: Config)
    requires |text| <= SOURCE_SIZE_MAX
    ensures |Lex(text, config).tokens| <= |text| + 1
    ensures |Lex(text, config).reports| <= |text|
  {
    hide LexFrom, Masked;
    LexFromTiles(text, 0, config);
    var tokens := LexFrom(text, 0, config).tokens;
    TilesBound(Init(tokens), text, 0, Last(tokens).offset);
    ReportsBound(text, 0, config);
  }
}
