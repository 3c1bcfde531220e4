/** Lexing the texts of the tokens again, with ` /**/ ` between them, gives the same tokens: what a token is does not
    depend on what stands around it. */
module Relex {
  import opened Tokens
  import opened SourceText
  import opened Keywords
  import opened Unicode
  import opened Lexical
  import opened Identifiers
  import LexicalSteps
  import Tiling

  /** What is compared of a token: its kind and its text. */
  datatype Lexeme = Lexeme(kind: TokenKind, text: Text)

  const SEPARATOR: Text := " /**/ "

  function LexemeOf(t: Token, text: Text): Lexeme {
    Lexeme(t.kind, if t.offset + t.length <= |text| then Tiling.GetText(t, text) else "")
  }

  function Lexemes(tokens: seq<Token>, text: Text): seq<Lexeme> {
    if tokens == [] then [] else [LexemeOf(tokens[0], text)] + Lexemes(tokens[1..], text)
  }

  function Join(xs: seq<Lexeme>): Text {
    if xs == [] then ""
    else if |xs| == 1 then xs[0].text
    else xs[0].text + SEPARATOR + Join(xs[1..])
  }

  /** A quote literal that ends in a closing quote, and not at the end of the text. */
  predicate IsClosedQuote(s: Text) {
    |s| >= 2 && s[|s| - 1] == s[0] && Backslashes(s, 1, |s| - 1) % 2 == 0
  }

  predicate IsQuoteKind(kind: TokenKind) {
    kind == StringLiteral || kind == CharLiteral
  }

  ghost predicate QuotesClosed(xs: seq<Lexeme>) {
    forall x :: x in xs && IsQuoteKind(x.kind) ==> IsClosedQuote(x.text)
  }

  // ---------------------------------------------------------------- one token in two places

  /** The texts at two offsets agree for `n` bytes. */
  ghost predicate Agree(text: Text, i: nat, w: Text, p: nat, n: nat) {
    i + n <= |text| && p + n <= |w| && text[i..i + n] == w[p..p + n]
  }

  lemma AgreeFits(text: Text, i: nat, w: Text, p: nat, n: nat)
    requires Agree(text, i, w, p, n)
    ensures i + n <= |text| && p + n <= |w|
  {
  }

  lemma AgreeAt(text: Text, i: nat, w: Text, p: nat, n: nat, k: nat)
    requires Agree(text, i, w, p, n) && k < n
    ensures i + n <= |text| && p + n <= |w| && text[i + k] == w[p + k]
  {
    assert text[i + k] == text[i..i + n][k] == w[p..p + n][k];
  }

  lemma AgreePart(text: Text, i: nat, w: Text, p: nat, n: nat, a: nat, m: nat)
    requires Agree(text, i, w, p, n) && a + m <= n
    ensures Agree(text, i + a, w, p + a, m)
  {
    var here, there := text[i + a..i + a + m], w[p + a..p + a + m];
    forall k | 0 <= k < m ensures here[k] == there[k] {
      AgreeAt(text, i, w, p, n, a + k);
    }
  }

  /** A separator begins here. */
  ghost predicate Separated(w: Text, q: nat) {
    q + 1 < |w| <= SOURCE_SIZE_MAX && w[q] == ' ' && w[q + 1] == '/'
  }

  ghost predicate Stands(w: Text, p: nat, s: Text) {
    s != [] && p + |s| <= |w| && w[p..p + |s|] == s && Separated(w, p + |s|)
  }

  /** The step at `p` makes exactly this token, and at most goes over the blank behind it. */
  ghost predicate RelexedAs(w: Text, p: nat, x: Lexeme, config: Config)
    requires p < |w|
  {
    var scan := Step(w, p, config);
    && w[p] != '\0'
    && scan.reports == [] && |scan.tokens| == 1 && LexemeOf(scan.tokens[0], w) == x
    && p + |x.text| <= scan.next <= p + |x.text| + 1
  }

  /** Wherever the text stands before a separator, it becomes this token. */
  ghost predicate Relexes(x: Lexeme, config: Config) {
    x.text != [] && forall w: Text, p: nat :: Stands(w, p, x.text) ==> RelexedAs(w, p, x, config)
  }

  lemma TokenReads(text: Text, i: nat, n: nat, kind: TokenKind, length: nat)
    requires i + n <= |text| <= SOURCE_SIZE_MAX && n > 0
    requires length == n || (length == 0 && FixedText(kind) == text[i..i + n])
    ensures LexemeOf(MakeToken(kind, i, length), text) == Lexeme(kind, text[i..i + n])
  {
    hide FixedText, Masked;
    Tiling.MaskKeeps(i);
  }

  /** The step at `p` makes one token of the `n` bytes before a separator, and at most goes over the blank behind them. */
  ghost predicate MakesOne(w: Text, p: nat, n: nat, kind: TokenKind, length: nat, config: Config) {
    && p < |w|
    && var scan := Step(w, p, config);
       scan.tokens == [MakeToken(kind, p, length)] && scan.reports == [] && p + n <= scan.next <= p + n + 1
  }

  lemma MadeIsRelexed(text: Text, i: nat, n: nat, w: Text, p: nat, kind: TokenKind, length: nat, config: Config)
    requires n > 0 && Agree(text, i, w, p, n) && Separated(w, p + n) && text[i] != '\0'
    requires length == n || (length == 0 && FixedText(kind) == text[i..i + n])
    requires MakesOne(w, p, n, kind, length, config)
    ensures p < |w| && RelexedAs(w, p, Lexeme(kind, text[i..i + n]), config)
  {
    hide FixedText, Masked, Step, LexemeOf;
    AgreeAt(text, i, w, p, n, 0);
    TokenReads(w, p, n, kind, length);
  }

  lemma AgreeIfStands(text: Text, i: nat, w: Text, p: nat, n: nat)
    requires i + n <= |text| && Stands(w, p, text[i..i + n])
    ensures p < |w| && Agree(text, i, w, p, n) && Separated(w, p + n)
  {
  }

  /** Bytes that make the same token wherever they stand before a separator. */
  lemma MadeEverywhere(text: Text, i: nat, n: nat, kind: TokenKind, length: nat, config: Config)
    requires 0 < n && i + n <= |text| <= SOURCE_SIZE_MAX && text[i] != '\0'
    requires length == n || (length == 0 && FixedText(kind) == text[i..i + n])
    requires forall w: Text, p: nat :: Agree(text, i, w, p, n) && Separated(w, p + n) ==>
               MakesOne(w, p, n, kind, length, config)
    ensures Relexes(LexemeOf(MakeToken(kind, i, length), text), config)
  {
    hide FixedText, LexemeOf, RelexedAs, MakesOne, Agree, Separated, Stands, MakeToken;
    var s := text[i..i + n];
    TokenReads(text, i, n, kind, length);
    forall w: Text, p: nat | Stands(w, p, s) ensures p < |w| && RelexedAs(w, p, Lexeme(kind, s), config) {
      AgreeIfStands(text, i, w, p, n);
      MadeIsRelexed(text, i, n, w, p, kind, length, config);
    }
  }

  // ---------------------------------------------------------------- words

  /** A character stands where its bytes stand. */
  lemma CharacterAgrees(text: Text, i: nat, w: Text, p: nat, n: nat, c: Character)
    requires HasCharacter(text, i, c) && Agree(text, i, w, p, n) && Size(c) <= n
    ensures HasCharacter(w, p, c)
  {
    hide Encode, IsWideScalar, ByteOf, Agree;
    AgreeAt(text, i, w, p, n, 0);
    if c.Wide? {
      var bytes := Encode(c.scalar);
      forall k | 0 <= k < |bytes| ensures ByteAt(w, p + k) == bytes[k] {
        AgreeAt(text, i, w, p, n, k);
        assert ByteAt(text, i + k) == bytes[k];
      }
    }
  }

  /** A word that ends without a report ends there wherever its characters stand. */
  lemma {:induction false} WordAgrees(text: Text, i: nat, cs: seq<Character>, w: Text, p: nat, config: Config)
    requires i <= |text| && IsUtf8(text, i, cs) && WordReports(text, i, config) == []
    requires Agree(text, i, w, p, WordEnd(text, i, config) - i) && Separated(w, p + WordEnd(text, i, config) - i)
    ensures WordEnd(w, p, config) == p + WordEnd(text, i, config) - i
    ensures WordReports(w, p, config) == []
    decreases cs
  {
    hide WordEnd, WordReports, HasCharacter, IsUtf8, Agree, Continues, Encode, IsWideScalar;
    var n := WordEnd(text, i, config) - i;
    AgreeFits(text, i, w, p, n);
    if n == 0 {
      WordStops(w, p, config);
    } else {
      Utf8Head(text, i, cs);
      var c := cs[0];
      Identifiers.WordStep(text, i, c, config);
      CharacterAgrees(text, i, w, p, n, c);
      Identifiers.WordStep(w, p, c, config);
      AgreePart(text, i, w, p, n, Size(c), n - Size(c));
      WordAgrees(text, i + Size(c), cs[1..], w, p + Size(c), config);
    }
  }

  lemma WordStops(w: Text, p: nat, config: Config)
    requires Separated(w, p)
    ensures WordEnd(w, p, config) == p && WordReports(w, p, config) == []
  {
  }

  lemma WordStartsText(text: Text, i: nat)
    requires i < |text| && IsWordStart(text[i])
    ensures text[i] != '\0'
  {
  }

  /** A keyword has no length of its own. */
  function WordLength(s: Text): nat {
    if WordKind(s) == Identifier then |s| else 0
  }

  lemma {:induction false} WordStandsAlone(text: Text, i: nat, cs: seq<Character>, n: nat, w: Text, p: nat,
                                           config: Config)
    requires i < |text| && IsWordStart(text[i]) && IsUtf8(text, i + 1, cs) && WordReports(text, i + 1, config) == []
    requires i + n == WordEnd(text, i + 1, config) && Agree(text, i, w, p, n) && Separated(w, p + n)
    ensures MakesOne(w, p, n, WordKind(text[i..i + n]), WordLength(text[i..i + n]), config)
  {
    hide WordEnd, WordReports, FixedText, WordKind, Masked, IsUtf8, Separated, MakeToken, Step;
    AgreeAt(text, i, w, p, n, 0);
    AgreePart(text, i, w, p, n, 1, n - 1);
    assert w[p..p + n] == text[i..i + n];
    hide Agree;
    WordAgrees(text, i + 1, cs, w, p + 1, config);
    LexicalSteps.WordStep(w, p, config);
  }

  lemma {:induction false} WordRelexes(text: Text, i: nat, cs: seq<Character>, config: Config)
    requires i < |text| <= SOURCE_SIZE_MAX && IsWordStart(text[i])
    requires IsUtf8(text, i + 1, cs) && WordReports(text, i + 1, config) == []
    ensures Relexes(LexemeOf(WordToken(text, i, WordEnd(text, i + 1, config)), text), config)
  {
    hide WordEnd, WordReports, FixedText, WordKind, LexemeOf, IsUtf8, Relexes, Agree, MakesOne, Separated, IsWordStart,
         MakeToken;
    var n := WordEnd(text, i + 1, config) - i;
    var s := text[i..i + n];
    WordStartsText(text, i);
    KeywordReads(s);
    forall w: Text, p: nat | Agree(text, i, w, p, n) && Separated(w, p + n)
      ensures MakesOne(w, p, n, WordKind(s), WordLength(s), config) {
      WordStandsAlone(text, i, cs, n, w, p, config);
    }
    MadeEverywhere(text, i, n, WordKind(s), WordLength(s), config);
  }

  lemma NulIsAscii()
    ensures IsAscii('\0')
  {
  }

  lemma {:induction false} NameStandsAlone(text: Text, i: nat, cs: seq<Character>, n: nat, w: Text, p: nat,
                                           config: Config)
    requires i < |text| && IsUtf8(text, i, cs) && !IsAscii(text[i])
    requires CharIn(text, i, config.start) && WordReports(text, CharEnd(text, i), config) == []
    requires i + n == WordEnd(text, CharEnd(text, i), config) && Agree(text, i, w, p, n) && Separated(w, p + n)
    ensures MakesOne(w, p, n, Identifier, n, config)
  {
    hide WordEnd, WordReports, Masked, IsUtf8, Separated, MakeToken, CharIn, CharEnd, HasCharacter, IsAscii, Agree,
         Encode, Step, IsWideScalar, InTable;
    Utf8Head(text, i, cs);
    var c := cs[0];
    WideHead(text, i, c);
    Identifiers.WideCharacterReads(text, i, c.scalar, config.start);
    CharacterAgrees(text, i, w, p, n, c);
    AgreeFits(text, i, w, p, n);
    Identifiers.WideCharacterReads(w, p, c.scalar, config.start);
    AgreePart(text, i, w, p, n, Size(c), n - Size(c));
    WordAgrees(text, i + Size(c), cs[1..], w, p + Size(c), config);
    Identifiers.WideIsOther(w, p, config);
  }

  /** An identifier that begins outside ASCII. */
  lemma {:induction false} NameRelexes(text: Text, i: nat, cs: seq<Character>, config: Config)
    requires i < |text| <= SOURCE_SIZE_MAX && IsUtf8(text, i, cs) && !IsAscii(text[i])
    requires ScanOther(text, i, config).reports == []
    ensures ScanOther(text, i, config).tokens != []
    ensures Relexes(LexemeOf(ScanOther(text, i, config).tokens[0], text), config)
    ensures |ScanOther(text, i, config).tokens| == 1
  {
    hide WordEnd, WordReports, FixedText, LexemeOf, IsUtf8, Relexes, Agree, MakesOne, Separated, MakeToken, CharIn,
         CharEnd, IsAscii;
    var n := WordEnd(text, CharEnd(text, i), config) - i;
    NulIsAscii();
    forall w: Text, p: nat | Agree(text, i, w, p, n) && Separated(w, p + n)
      ensures MakesOne(w, p, n, Identifier, n, config) {
      NameStandsAlone(text, i, cs, n, w, p, config);
    }
    MadeEverywhere(text, i, n, Identifier, n, config);
  }

  lemma WideHead(text: Text, i: nat, c: Character)
    requires i < |text| && HasCharacter(text, i, c)
    ensures c.Wide? <==> !IsAscii(text[i])
  {
    hide HasBytes, Encode, IsWideScalar, IsAscii;
    if c.Wide? {
      Identifiers.WideCharacterReads(text, i, c.scalar, []);
    } else {
      Identifiers.AsciiByte(c);
    }
  }

  // ---------------------------------------------------------------- numbers

  /** No digit comes next, even behind whitespace. */
  predicate NoDigitNext(w: Text, q: nat, hexadecimal: bool)
    requires q <= |w|
  {
    var k := SkipWhitespace(w, q);
    k < |w| ==> !IsDigit(w[k], hexadecimal)
  }

  lemma SeparatedSkips(w: Text, q: nat)
    requires Separated(w, q)
    ensures SkipWhitespace(w, q) == q + 1
    ensures NoDigitNext(w, q, false) && NoDigitNext(w, q, true)
  {
    assert SkipWhitespace(w, q + 1) == q + 1;
  }

  /** The whitespace before a byte is the same where the byte and the whitespace are. */
  lemma {:induction false} SkipAgrees(text: Text, i: nat, w: Text, p: nat, n: nat)
    requires i <= |text| && Agree(text, i, w, p, n) && SkipWhitespace(text, i) < i + n
    ensures SkipWhitespace(w, p) == p + SkipWhitespace(text, i) - i
    decreases |text| - i
  {
    AgreeAt(text, i, w, p, n, 0);
    if IsWhitespace(text[i]) {
      AgreePart(text, i, w, p, n, 1, n - 1);
      SkipAgrees(text, i + 1, w, p + 1, n - 1);
    }
  }

  lemma {:induction false} DigitsAgree(text: Text, i: nat, w: Text, p: nat, hexadecimal: bool)
    requires i <= |text| && Agree(text, i, w, p, DigitsEnd(text, i, hexadecimal) - i)
    requires NoDigitNext(w, p + DigitsEnd(text, i, hexadecimal) - i, hexadecimal)
    ensures DigitsEnd(w, p, hexadecimal) == p + DigitsEnd(text, i, hexadecimal) - i
    decreases |text| - i
  {
    hide IsDigit, Agree, NoDigitNext, DigitsEnd, SkipWhitespace;
    var n := DigitsEnd(text, i, hexadecimal) - i;
    if NoDigitNext(text, i, hexadecimal) {
      NoDigits(text, i, hexadecimal);
      AgreeFits(text, i, w, p, n);
      NoDigits(w, p, hexadecimal);
    } else {
      NextDigit(text, i, hexadecimal);
      var d := SkipWhitespace(text, i) + 1 - i;
      SkipAgrees(text, i, w, p, n);
      AgreeAt(text, i, w, p, n, d - 1);
      AgreePart(text, i, w, p, n, d, n - d);
      DigitsAgree(text, i + d, w, p + d, hexadecimal);
      IsNextDigit(w, p, hexadecimal);
      NextDigit(w, p, hexadecimal);
    }
  }

  lemma NextDigit(w: Text, q: nat, hexadecimal: bool)
    requires q <= |w| && !NoDigitNext(w, q, hexadecimal)
    ensures SkipWhitespace(w, q) < |w| && IsDigit(w[SkipWhitespace(w, q)], hexadecimal)
    ensures DigitsEnd(w, q, hexadecimal) == DigitsEnd(w, SkipWhitespace(w, q) + 1, hexadecimal)
  {
    hide IsDigit, SkipWhitespace;
  }

  lemma IsNextDigit(w: Text, q: nat, hexadecimal: bool)
    requires q <= |w| && SkipWhitespace(w, q) < |w| && IsDigit(w[SkipWhitespace(w, q)], hexadecimal)
    ensures !NoDigitNext(w, q, hexadecimal)
  {
  }

  lemma NoDigits(w: Text, q: nat, hexadecimal: bool)
    requires q <= |w| && NoDigitNext(w, q, hexadecimal)
    ensures DigitsEnd(w, q, hexadecimal) == q
  {
  }

  predicate IsPrefix(a: char, b: char, kind: TokenKind, hexadecimal: bool) {
    && a == '0'
    && ((b == 'x' && kind == HexIntLiteral && hexadecimal)
        || (b == 'b' && kind == BinIntLiteral && !hexadecimal)
        || (b == 'o' && kind == OctIntLiteral && !hexadecimal))
  }

  lemma PrefixedStep(w: Text, p: nat, kind: TokenKind, hexadecimal: bool, config: Config)
    requires p + 2 <= |w| && IsPrefix(w[p], w[p + 1], kind, hexadecimal)
    ensures Step(w, p, config) == ScanPrefixed(w, p, kind, hexadecimal)
  {
    hide ScanPrefixed, ScanDecimal;
  }

  lemma PrefixedStandsAlone(text: Text, i: nat, n: nat, kind: TokenKind, hexadecimal: bool, w: Text, p: nat,
                            config: Config)
    requires i + 2 <= |text| && IsPrefix(text[i], text[i + 1], kind, hexadecimal)
    requires i + n == DigitsEnd(text, i + 2, hexadecimal) && Agree(text, i, w, p, n) && Separated(w, p + n)
    ensures MakesOne(w, p, n, kind, n, config)
  {
    hide Masked, Agree, DigitsEnd, SkipWhitespace, NoDigitNext, Separated, Step, IsPrefix;
    SeparatedSkips(w, p + n);
    AgreeAt(text, i, w, p, n, 0);
    AgreeAt(text, i, w, p, n, 1);
    AgreePart(text, i, w, p, n, 2, n - 2);
    DigitsAgree(text, i + 2, w, p + 2, hexadecimal);
    PrefixedStep(w, p, kind, hexadecimal, config);
  }

  lemma {:induction false} PrefixedRelexes(text: Text, i: nat, kind: TokenKind, hexadecimal: bool, config: Config)
    requires i + 2 <= |text| <= SOURCE_SIZE_MAX && IsPrefix(text[i], text[i + 1], kind, hexadecimal)
    ensures Relexes(LexemeOf(MakeToken(kind, i, DigitsEnd(text, i + 2, hexadecimal) - i), text), config)
  {
    hide FixedText, LexemeOf, Relexes, Agree, DigitsEnd, Separated, MakesOne, MakeToken;
    var n := DigitsEnd(text, i + 2, hexadecimal) - i;
    forall w: Text, p: nat | Agree(text, i, w, p, n) && Separated(w, p + n)
      ensures MakesOne(w, p, n, kind, n, config) {
      PrefixedStandsAlone(text, i, n, kind, hexadecimal, w, p, config);
    }
    MadeEverywhere(text, i, n, kind, n, config);
  }

  /** A number that does not begin with a prefix. */
  predicate IsPlain(text: Text, i: nat)
    requires i < |text|
  {
    IsDecimalDigit(text[i]) && !(text[i] == '0' && At(text, i + 1) in ['x', 'b', 'o'])
  }

  lemma PlainAgrees(text: Text, i: nat, w: Text, p: nat, n: nat, config: Config)
    requires i < |text| && IsPlain(text, i) && n > 0 && Agree(text, i, w, p, n) && Separated(w, p + n)
    ensures Step(w, p, config) == ScanDecimal(w, p)
  {
    hide ScanDecimal, ScanPrefixed;
    AgreeAt(text, i, w, p, n, 0);
    if n > 1 {
      AgreeAt(text, i, w, p, n, 1);
    }
  }

  lemma DigitsStartText(c: char)
    requires IsDecimalDigit(c)
    ensures c != '\0'
  {
  }

  lemma {:induction false} IntegerStandsAlone(text: Text, i: nat, n: nat, w: Text, p: nat, config: Config)
    requires i < |text| && IsPlain(text, i)
    requires i + n == DigitsEnd(text, i + 1, false) && Agree(text, i, w, p, n) && Separated(w, p + n)
    ensures MakesOne(w, p, n, DecIntLiteral, n, config)
  {
    hide Masked, Agree, DigitsEnd, SkipWhitespace, NoDigitNext, Step, IsPlain;
    SeparatedSkips(w, p + n);
    AgreePart(text, i, w, p, n, 1, n - 1);
    DigitsAgree(text, i + 1, w, p + 1, false);
    PlainAgrees(text, i, w, p, n, config);
  }

  lemma {:induction false} IntegerRelexes(text: Text, i: nat, config: Config)
    requires i < |text| <= SOURCE_SIZE_MAX && IsPlain(text, i)
    ensures Relexes(LexemeOf(MakeToken(DecIntLiteral, i, DigitsEnd(text, i + 1, false) - i), text), config)
  {
    hide FixedText, LexemeOf, Relexes, Agree, DigitsEnd, Separated, MakesOne, MakeToken;
    var n := DigitsEnd(text, i + 1, false) - i;
    DigitsStartText(text[i]);
    forall w: Text, p: nat | Agree(text, i, w, p, n) && Separated(w, p + n)
      ensures MakesOne(w, p, n, DecIntLiteral, n, config) {
      IntegerStandsAlone(text, i, n, w, p, config);
    }
    MadeEverywhere(text, i, n, DecIntLiteral, n, config);
  }

  /** The integer part of a float and the dot behind it are read as where they stood. */
  lemma {:induction false} DotAgrees(text: Text, i: nat, w: Text, p: nat, n: nat)
    requires i < |text|
    requires At(text, SkipWhitespace(text, DigitsEnd(text, i + 1, false))) == '.'
    requires SkipWhitespace(text, DigitsEnd(text, i + 1, false)) < i + n && Agree(text, i, w, p, n)
    ensures p + 1 <= |w|
    ensures SkipWhitespace(w, DigitsEnd(w, p + 1, false)) == p + SkipWhitespace(text, DigitsEnd(text, i + 1, false)) - i
    ensures At(w, SkipWhitespace(w, DigitsEnd(w, p + 1, false))) == '.'
  {
    hide Agree, DigitsEnd, SkipWhitespace, NoDigitNext;
    var digits := DigitsEnd(text, i + 1, false) - i;
    var dot := SkipWhitespace(text, i + digits) - i;
    AgreePart(text, i, w, p, n, digits, n - digits);
    SkipAgrees(text, i + digits, w, p + digits, n - digits);
    AgreeAt(text, i, w, p, n, dot);
    DotIsNoDigit(w, p + digits);
    AgreePart(text, i, w, p, n, 1, digits - 1);
    DigitsAgree(text, i + 1, w, p + 1, false);
  }

  lemma {:induction false} FloatAgrees(text: Text, i: nat, w: Text, p: nat)
    requires i < |text|
    requires At(text, SkipWhitespace(text, DigitsEnd(text, i + 1, false))) == '.'
    requires var dot := SkipWhitespace(text, DigitsEnd(text, i + 1, false));
             var n := DigitsEnd(text, dot + 1, false) - i;
             && i + n > dot + 1
             && Agree(text, i, w, p, n) && Separated(w, p + n)
    ensures var n := DigitsEnd(text, SkipWhitespace(text, DigitsEnd(text, i + 1, false)) + 1, false) - i;
            ScanDecimal(w, p) == Scan(p + n + 1, [MakeToken(FloatLiteral, p, n)], [])
  {
    hide MakeToken, FixedText, Agree, DigitsEnd, SkipWhitespace, NoDigitNext, Separated;
    var dot := SkipWhitespace(text, DigitsEnd(text, i + 1, false)) - i;
    var n := DigitsEnd(text, i + dot + 1, false) - i;
    DotAgrees(text, i, w, p, n);
    SeparatedSkips(w, p + n);
    AgreePart(text, i, w, p, n, dot + 1, n - (dot + 1));
    DigitsAgree(text, i + dot + 1, w, p + dot + 1, false);
  }

  lemma DotIsNoDigit(w: Text, q: nat)
    requires q <= |w| && At(w, SkipWhitespace(w, q)) == '.'
    ensures NoDigitNext(w, q, false)
  {
  }

  lemma {:induction false} FloatRelexes(text: Text, i: nat, config: Config)
    requires i < |text| <= SOURCE_SIZE_MAX && IsPlain(text, i)
    requires var dot := SkipWhitespace(text, DigitsEnd(text, i + 1, false));
             At(text, dot) == '.' && DigitsEnd(text, dot + 1, false) > dot + 1
    ensures var dot := SkipWhitespace(text, DigitsEnd(text, i + 1, false));
            Relexes(LexemeOf(MakeToken(FloatLiteral, i, DigitsEnd(text, dot + 1, false) - i), text), config)
  {
    hide FixedText, LexemeOf, Relexes, Agree, DigitsEnd, SkipWhitespace, Separated, MakeToken, Step, ScanDecimal;
    var dot := SkipWhitespace(text, DigitsEnd(text, i + 1, false));
    var n := DigitsEnd(text, dot + 1, false) - i;
    DigitsStartText(text[i]);
    forall w: Text, p: nat | Agree(text, i, w, p, n) && Separated(w, p + n)
      ensures MakesOne(w, p, n, FloatLiteral, n, config) {
      AgreeFits(text, i, w, p, n);
      FloatAgrees(text, i, w, p);
      PlainAgrees(text, i, w, p, n, config);
    }
    hide MakesOne;
    MadeEverywhere(text, i, n, FloatLiteral, n, config);
  }

  lemma DotStandsAlone(text: Text, i: nat, w: Text, p: nat, config: Config)
    requires i < |text| && text[i] == '.' && Agree(text, i, w, p, 1) && Separated(w, p + 1)
    ensures MakesOne(w, p, 1, Dot, 0, config)
  {
    hide Masked, Agree, DigitsEnd, SkipWhitespace, NoDigitNext, Step;
    SeparatedSkips(w, p + 1);
    AgreeAt(text, i, w, p, 1, 0);
    NoDigits(w, p + 1, false);
    LexicalSteps.DotStep(w, p, config);
  }

  lemma {:induction false} DotRelexes(text: Text, i: nat, config: Config)
    requires i < |text| <= SOURCE_SIZE_MAX && text[i] == '.'
    ensures Relexes(LexemeOf(MakeToken(Dot, i, 0), text), config)
  {
    hide LexemeOf, Relexes, Agree, Separated, MakesOne, MakeToken;
    assert FixedText(Dot) == ".";
    hide FixedText;
    forall w: Text, p: nat | Agree(text, i, w, p, 1) && Separated(w, p + 1)
      ensures MakesOne(w, p, 1, Dot, 0, config) {
      DotStandsAlone(text, i, w, p, config);
    }
    MadeEverywhere(text, i, 1, Dot, 0, config);
  }

  lemma {:induction false} FractionStandsAlone(text: Text, i: nat, n: nat, w: Text, p: nat, config: Config)
    requires i < |text| && text[i] == '.' && i + n == DigitsEnd(text, i + 1, false) && n > 1
    requires Agree(text, i, w, p, n) && Separated(w, p + n)
    ensures MakesOne(w, p, n, FloatLiteral, n, config)
  {
    hide Masked, Agree, DigitsEnd, SkipWhitespace, NoDigitNext, Step;
    SeparatedSkips(w, p + n);
    AgreeAt(text, i, w, p, n, 0);
    AgreePart(text, i, w, p, n, 1, n - 1);
    DigitsAgree(text, i + 1, w, p + 1, false);
    LexicalSteps.DotStep(w, p, config);
  }

  lemma {:induction false} FractionRelexes(text: Text, i: nat, config: Config)
    requires i < |text| <= SOURCE_SIZE_MAX && text[i] == '.' && DigitsEnd(text, i + 1, false) > i + 1
    ensures Relexes(LexemeOf(MakeToken(FloatLiteral, i, DigitsEnd(text, i + 1, false) - i), text), config)
  {
    hide FixedText, LexemeOf, Relexes, Agree, DigitsEnd, Separated, MakesOne, MakeToken;
    var n := DigitsEnd(text, i + 1, false) - i;
    forall w: Text, p: nat | Agree(text, i, w, p, n) && Separated(w, p + n)
      ensures MakesOne(w, p, n, FloatLiteral, n, config) {
      FractionStandsAlone(text, i, n, w, p, config);
    }
    MadeEverywhere(text, i, n, FloatLiteral, n, config);
  }

  // ---------------------------------------------------------------- quotes

  lemma {:induction false} BackslashesAgree(text: Text, i: nat, w: Text, p: nat, n: nat, k: nat)
    requires Agree(text, i, w, p, n) && 0 < k <= n
    ensures Backslashes(w, p + 1, p + k) == Backslashes(text, i + 1, i + k)
    decreases k
  {
    AgreeAt(text, i, w, p, n, k - 1);
    if k > 1 {
      BackslashesAgree(text, i, w, p, n, k - 1);
    }
  }

  /** A literal that ends behind its last quote ends there wherever it stands. */
  lemma {:induction false} QuoteAgrees(text: Text, i: nat, w: Text, p: nat, n: nat, k: nat)
    requires Agree(text, i, w, p, n) && 0 < k < n && QuoteEnd(text, i, i + k) == i + n
    requires text[i + n - 1] == text[i] && Backslashes(text, i + 1, i + n - 1) % 2 == 0
    requires text[i] == '"' || text[i] == '\''
    ensures QuoteEnd(w, p, p + k) == p + n && !QuoteUnclosed(w, p, p + k)
    decreases n - k
  {
    hide Agree;
    AgreeAt(text, i, w, p, n, 0);
    AgreeAt(text, i, w, p, n, k);
    BackslashesAgree(text, i, w, p, n, k);
    if k < n - 1 {
      QuoteAgrees(text, i, w, p, n, k + 1);
    }
  }

  lemma {:induction false} QuoteStandsAlone(text: Text, i: nat, n: nat, kind: TokenKind, w: Text, p: nat,
                                            config: Config)
    requires i < |text| && (text[i] == '"' || text[i] == '\'') && n > 1
    requires kind == if text[i] == '"' then StringLiteral else CharLiteral
    requires i + n == QuoteEnd(text, i, i + 1) && text[i + n - 1] == text[i]
    requires Backslashes(text, i + 1, i + n - 1) % 2 == 0
    requires Agree(text, i, w, p, n) && Separated(w, p + n)
    ensures MakesOne(w, p, n, kind, n, config)
  {
    hide Masked, Agree, QuoteEnd, QuoteUnclosed, Backslashes, Step, Separated;
    AgreeAt(text, i, w, p, n, 0);
    QuoteAgrees(text, i, w, p, n, 1);
    LexicalSteps.QuoteStep(w, p, config);
  }

  lemma {:induction false} ClosedQuoteEnds(text: Text, i: nat, n: nat)
    requires i + n <= |text| && IsClosedQuote(text[i..i + n])
    ensures n > 1 && text[i + n - 1] == text[i] && Backslashes(text, i + 1, i + n - 1) % 2 == 0
  {
    hide Agree, Backslashes;
    SliceAgrees(text, i, n);
    BackslashesAgree(text[i..i + n], 0, text, i, n, n - 1);
  }

  lemma {:induction false} QuoteRelexes(text: Text, i: nat, kind: TokenKind, config: Config)
    requires i < |text| <= SOURCE_SIZE_MAX && (text[i] == '"' || text[i] == '\'')
    requires kind == if text[i] == '"' then StringLiteral else CharLiteral
    requires IsClosedQuote(text[i..QuoteEnd(text, i, i + 1)])
    ensures Relexes(LexemeOf(MakeToken(kind, i, QuoteEnd(text, i, i + 1) - i), text), config)
  {
    hide FixedText, LexemeOf, Relexes, Agree, QuoteEnd, Separated, MakesOne, MakeToken, IsClosedQuote, Backslashes;
    var n := QuoteEnd(text, i, i + 1) - i;
    ClosedQuoteEnds(text, i, n);
    forall w: Text, p: nat | Agree(text, i, w, p, n) && Separated(w, p + n)
      ensures MakesOne(w, p, n, kind, n, config) {
      QuoteStandsAlone(text, i, n, kind, w, p, config);
    }
    MadeEverywhere(text, i, n, kind, n, config);
  }

  lemma SliceAgrees(text: Text, i: nat, n: nat)
    requires i + n <= |text|
    ensures Agree(text[i..i + n], 0, text, i, n)
  {
  }

  // ---------------------------------------------------------------- operators

  /** The operator of `n` characters that begins with `a`, `b` and `c`, where no longer one is read. */
  predicate IsOperator(a: char, b: char, c: char, kind: TokenKind, n: nat) {
    && OneChar(a) != EndOfFile
    && kind != EndOfFile
    && if n == 3 then kind == ThreeChars(a, b, c)
       else if n == 2 then kind == TwoChars(a, b)
       else n == 1 && kind == OneChar(a)
  }

  /** Before a blank no longer operator can be read, and no comment starts. */
  lemma BlankEndsOperator(a: char, b: char, c: char)
    requires OneChar(a) != EndOfFile
    ensures ThreeChars(a, b, ' ') == TwoChars(a, ' ') == ThreeChars(a, ' ', c) == EndOfFile
    ensures TwoChars(a, b) != EndOfFile ==> !(a == '>' && b == '>') && !(a == '/' && (b == '/' || b == '*'))
    ensures ThreeChars(a, b, c) != EndOfFile ==> a != '/'
  {
    hide OneChar;
    BlankIsNoOperator();
  }

  lemma BlankIsNoOperator()
    ensures OneChar(' ') == EndOfFile
  {
  }

  lemma OperatorsStartNothingElse(c: char)
    requires OneChar(c) != EndOfFile
    ensures c != '\0' && c != '.' && c != '"' && c != '\'' && !IsWhitespace(c) && !IsWordStart(c) && !IsDecimalDigit(c)
  {
  }

  lemma {:induction false} OperatorStep(w: Text, p: nat, kind: TokenKind, n: nat, config: Config)
    requires p < |w| && IsOperator(w[p], At(w, p + 1), At(w, p + 2), kind, n) && Separated(w, p + n)
    ensures Step(w, p, config) == Scan(p + n, [MakeToken(kind, p, 0)], [])
  {
    hide OneChar, TwoChars, ThreeChars, Masked, ScanWord, ScanNumber, ScanDot, ScanComment, ScanQuote, ScanOther;
    OperatorsStartNothingElse(w[p]);
    BlankEndsOperator(w[p], At(w, p + 1), At(w, p + 2));
  }

  lemma {:induction false} OperatorStandsAlone(text: Text, i: nat, n: nat, kind: TokenKind, w: Text, p: nat,
                                               config: Config)
    requires i + n <= |text| && n > 0 && IsOperator(text[i], At(text, i + 1), At(text, i + 2), kind, n)
    requires Agree(text, i, w, p, n) && Separated(w, p + n)
    ensures MakesOne(w, p, n, kind, 0, config)
  {
    hide Masked, Agree, OneChar, TwoChars, ThreeChars, Step;
    AgreeAt(text, i, w, p, n, 0);
    if n > 1 {
      AgreeAt(text, i, w, p, n, 1);
    }
    if n > 2 {
      AgreeAt(text, i, w, p, n, 2);
    }
    OperatorStep(w, p, kind, n, config);
  }

  lemma {:induction false} OperatorRelexes(text: Text, i: nat, kind: TokenKind, n: nat, config: Config)
    requires i + n <= |text| <= SOURCE_SIZE_MAX && n > 0
    requires IsOperator(text[i], At(text, i + 1), At(text, i + 2), kind, n) && FixedText(kind) == text[i..i + n]
    ensures Relexes(LexemeOf(MakeToken(kind, i, 0), text), config)
  {
    hide FixedText, LexemeOf, Relexes, Agree, Separated, MakesOne, MakeToken, OneChar, TwoChars, ThreeChars;
    OperatorsStartNothingElse(text[i]);
    forall w: Text, p: nat | Agree(text, i, w, p, n) && Separated(w, p + n)
      ensures MakesOne(w, p, n, kind, 0, config) {
      OperatorStandsAlone(text, i, n, kind, w, p, config);
    }
    MadeEverywhere(text, i, n, kind, 0, config);
  }

  // ---------------------------------------------------------------- the tokens of a step

  ghost predicate AllRelex(xs: seq<Lexeme>, config: Config) {
    forall k :: 0 <= k < |xs| ==> Relexes(xs[k], config)
  }

  lemma OneLexeme(t: Token, text: Text)
    ensures Lexemes([t], text) == [LexemeOf(t, text)]
  {
    assert [t][1..] == [];
  }

  lemma TwoLexemes(t: Token, u: Token, text: Text)
    ensures Lexemes([t, u], text) == [LexemeOf(t, text), LexemeOf(u, text)]
  {
    assert [t, u][1..] == [u];
    OneLexeme(u, text);
  }

  lemma {:induction false} NumberTokensRelex(text: Text, i: nat, config: Config)
    requires i < |text| <= SOURCE_SIZE_MAX && IsDecimalDigit(text[i])
    ensures AllRelex(Lexemes(ScanNumber(text, i).tokens, text), config)
  {
    hide Lexemes, AllRelex, ScanPrefixed, ScanDecimal;
    if text[i] == '0' && At(text, i + 1) == 'x' {
      PrefixedTokensRelex(text, i, HexIntLiteral, true, config);
    } else if text[i] == '0' && At(text, i + 1) == 'b' {
      PrefixedTokensRelex(text, i, BinIntLiteral, false, config);
    } else if text[i] == '0' && At(text, i + 1) == 'o' {
      PrefixedTokensRelex(text, i, OctIntLiteral, false, config);
    } else {
      DecimalTokensRelex(text, i, config);
    }
  }

  lemma {:induction false} PrefixedTokensRelex(text: Text, i: nat, kind: TokenKind, hexadecimal: bool, config: Config)
    requires i + 2 <= |text| <= SOURCE_SIZE_MAX && IsPrefix(text[i], text[i + 1], kind, hexadecimal)
    ensures AllRelex(Lexemes(ScanPrefixed(text, i, kind, hexadecimal).tokens, text), config)
  {
    hide LexemeOf, Relexes, MakeToken, DigitsEnd, SkipWhitespace, IsPrefix, Lexemes, AllRelex;
    PrefixedRelexes(text, i, kind, hexadecimal, config);
    OneRelexes(MakeToken(kind, i, DigitsEnd(text, i + 2, hexadecimal) - i), text, config);
  }

  lemma {:induction false} DecimalTokensRelex(text: Text, i: nat, config: Config)
    requires i < |text| <= SOURCE_SIZE_MAX && IsPlain(text, i)
    ensures AllRelex(Lexemes(ScanDecimal(text, i).tokens, text), config)
  {
    hide LexemeOf, Relexes, MakeToken, DigitsEnd, SkipWhitespace, IsPlain;
    var tokens := ScanDecimal(text, i).tokens;
    var dot := SkipWhitespace(text, DigitsEnd(text, i + 1, false));
    OneLexeme(tokens[0], text);
    if At(text, dot) == '.' && DigitsEnd(text, dot + 1, false) > dot + 1 {
      FloatRelexes(text, i, config);
    } else {
      IntegerRelexes(text, i, config);
      if At(text, dot) == '.' {
        DotRelexes(text, dot, config);
        TwoLexemes(tokens[0], tokens[1], text);
      }
    }
  }

  lemma {:induction false} DotTokensRelex(text: Text, i: nat, config: Config)
    requires i < |text| <= SOURCE_SIZE_MAX && text[i] == '.'
    ensures AllRelex(Lexemes(ScanDot(text, i).tokens, text), config)
  {
    hide LexemeOf, Relexes, MakeToken, DigitsEnd, SkipWhitespace;
    OneLexeme(ScanDot(text, i).tokens[0], text);
    if DigitsEnd(text, i + 1, false) > i + 1 {
      FractionRelexes(text, i, config);
    } else {
      DotRelexes(text, i, config);
    }
  }

  lemma {:induction false} OperatorTokensRelex(text: Text, i: nat, config: Config)
    requires i < |text| <= SOURCE_SIZE_MAX && OneChar(text[i]) != EndOfFile
    ensures AllRelex(Lexemes(OperatorTokens(text, i), text), config)
  {
    hide LexemeOf, Relexes, MakeToken, OneChar, TwoChars, ThreeChars, FixedText;
    var tokens := OperatorTokens(text, i);
    var a, b, c := text[i], At(text, i + 1), At(text, i + 2);
    OperatorsAreShort(text, i);
    OneLexeme(tokens[0], text);
    if ThreeChars(a, b, c) != EndOfFile {
      Tiling.ThreeCharsRead(a, b, c);
      OperatorRelexes(text, i, ThreeChars(a, b, c), 3, config);
    } else if a == '>' && b == '>' {
      AngleRelexes(text, i, config);
      AngleRelexes(text, i + 1, config);
      TwoLexemes(tokens[0], tokens[1], text);
    } else if TwoChars(a, b) != EndOfFile {
      Tiling.TwoCharsRead(a, b);
      OperatorRelexes(text, i, TwoChars(a, b), 2, config);
    } else {
      Tiling.OneCharReads(a);
      OperatorRelexes(text, i, OneChar(a), 1, config);
    }
  }

  lemma {:induction false} AngleRelexes(text: Text, i: nat, config: Config)
    requires i < |text| <= SOURCE_SIZE_MAX && text[i] == '>'
    ensures Relexes(LexemeOf(MakeToken(RAngle, i, 0), text), config)
  {
    assert OneChar('>') == RAngle && FixedText(RAngle) == ">";
    hide LexemeOf, Relexes, MakeToken, OneChar, TwoChars, ThreeChars, FixedText;
    OperatorRelexes(text, i, RAngle, 1, config);
  }

  lemma {:induction false} QuoteTokensRelex(text: Text, i: nat, config: Config)
    requires i < |text| <= SOURCE_SIZE_MAX && (text[i] == '"' || text[i] == '\'')
    requires QuotesClosed(Lexemes(ScanQuote(text, i).tokens, text))
    ensures AllRelex(Lexemes(ScanQuote(text, i).tokens, text), config)
  {
    hide LexemeOf, Relexes, MakeToken, QuoteEnd, QuoteUnclosed, IsClosedQuote;
    var kind := if text[i] == '"' then StringLiteral else CharLiteral;
    var n := QuoteEnd(text, i, i + 1) - i;
    TokenReads(text, i, n, kind, n);
    OneLexeme(MakeToken(kind, i, n), text);
    QuoteRelexes(text, i, kind, config);
  }

  lemma AsciiIsNotWide(text: Text, i: nat, config: Config)
    requires i < |text| && IsAscii(text[i])
    ensures ScanOther(text, i, config).reports != []
  {
    hide InTable, WordEnd, WordReports, ScalarOf, LeadingOnes;
    if LeadingOnes(ByteOf(text[i])) >= 1 {
      Identifiers.WideIsNotAscii(text[i]);
    }
  }

  lemma AsciiTail(text: Text, i: nat, cs: seq<Character>)
    requires i < |text| && IsUtf8(text, i, cs) && IsWordStart(text[i])
    ensures cs != [] && IsUtf8(text, i + 1, cs[1..])
  {
    hide HasCharacter, IsUtf8;
    Utf8Head(text, i, cs);
    WideHead(text, i, cs[0]);
  }

  /** Every token of a step is the same token wherever its text stands alone. */
  lemma {:induction false} StepTokensRelex(text: Text, i: nat, config: Config)
    requires i < |text| <= SOURCE_SIZE_MAX && text[i] != '\0' && Boundary(text, i) && !config.emitComments
    requires Step(text, i, config).reports == [] && QuotesClosed(Lexemes(Step(text, i, config).tokens, text))
    ensures AllRelex(Lexemes(Step(text, i, config).tokens, text), config)
  {
    hide AllRelex, QuotesClosed, Lexemes, ScanNumber, ScanDot, ScanQuote, OperatorTokens, ScanOther, OneChar,
         WordEnd, WordReports, WordToken, CommentEnd, LineEnd, LexemeOf, Relexes, IsUtf8, HasCharacter, IsAscii;
    var c := text[i];
    var cs: seq<Character> :| IsUtf8(text, i, cs);
    if IsWhitespace(c) {
      NoneRelex(text, config);
    } else if IsWordStart(c) {
      AsciiTail(text, i, cs);
      WordRelexes(text, i, cs[1..], config);
      OneRelexes(WordToken(text, i, WordEnd(text, i + 1, config)), text, config);
    } else if IsDecimalDigit(c) {
      NumberTokensRelex(text, i, config);
    } else if c == '.' {
      DotTokensRelex(text, i, config);
    } else if StartsComment(text, i) {
      NoneRelex(text, config);
    } else if c == '"' || c == '\'' {
      QuoteTokensRelex(text, i, config);
    } else if IsOperatorStart(c) {
      OperatorTokensRelex(text, i, config);
    } else if IsAscii(c) {
      AsciiIsNotWide(text, i, config);
    } else {
      NameRelexes(text, i, cs, config);
      OneRelexes(ScanOther(text, i, config).tokens[0], text, config);
      assert ScanOther(text, i, config).tokens == [ScanOther(text, i, config).tokens[0]];
    }
  }

  lemma NoneRelex(text: Text, config: Config)
    ensures AllRelex(Lexemes([], text), config)
  {
  }

  lemma OneRelexes(t: Token, text: Text, config: Config)
    requires Relexes(LexemeOf(t, text), config)
    ensures AllRelex(Lexemes([t], text), config)
  {
    hide LexemeOf, Relexes;
    OneLexeme(t, text);
  }

  // ---------------------------------------------------------------- the whole text

  lemma {:induction false} LexemesConcat(a: seq<Token>, b: seq<Token>, text: Text)
    ensures Lexemes(a + b, text) == Lexemes(a, text) + Lexemes(b, text)
  {
    hide LexemeOf;
    if a == [] {
      assert a + b == b;
    } else {
      assert (a + b)[1..] == a[1..] + b;
      LexemesConcat(a[1..], b, text);
    }
  }

  const END := Lexeme(EndOfFile, "")

  lemma {:induction false} LexFromRelexes(text: Text, i: nat, config: Config) returns (xs: seq<Lexeme>)
    requires i <= |text| <= SOURCE_SIZE_MAX && Boundary(text, i) && !config.emitComments
    requires LexFrom(text, i, config).reports == []
    requires QuotesClosed(Lexemes(LexFrom(text, i, config).tokens, text))
    ensures Lexemes(LexFrom(text, i, config).tokens, text) == xs + [END] && AllRelex(xs, config)
    decreases |text| - i
  {
    hide Step, LexemeOf, Relexes, IsClosedQuote, Boundary;
    if At(text, i) == '\0' {
      xs := [];
      EndReads(text, i);
      OneLexeme(MakeToken(EndOfFile, i, 0), text);
    } else {
      StepAdvances(text, i, config);
      Identifiers.StepBoundary(text, i, config);
      var scan := Step(text, i, config);
      var rest := LexFrom(text, scan.next, config);
      LexemesConcat(scan.tokens, rest.tokens, text);
      var ys := Lexemes(scan.tokens, text);
      assert forall y :: y in ys ==> y in ys + Lexemes(rest.tokens, text);
      assert forall y :: y in Lexemes(rest.tokens, text) ==> y in ys + Lexemes(rest.tokens, text);
      StepTokensRelex(text, i, config);
      var zs := LexFromRelexes(text, scan.next, config);
      xs := ys + zs;
      assert ys + (zs + [END]) == xs + [END];
    }
  }

  lemma EndReads(text: Text, i: nat)
    requires i <= |text| <= SOURCE_SIZE_MAX
    ensures LexemeOf(MakeToken(EndOfFile, i, 0), text) == END
  {
    assert FixedText(EndOfFile) == "";
    hide FixedText, Masked;
    Tiling.MaskKeeps(i);
  }

  lemma {:induction false} EmptyStep(w: Text, q: nat, next: nat, config: Config)
    requires q < |w| && w[q] != '\0' && Step(w, q, config) == Scan(next, [], []) && next <= |w|
    ensures LexFrom(w, q, config) == LexFrom(w, next, config)
  {
    hide Step;
    assert [] + LexFrom(w, next, config).tokens == LexFrom(w, next, config).tokens;
    assert [] + LexFrom(w, next, config).reports == LexFrom(w, next, config).reports;
  }

  lemma EmptyCommentStep(w: Text, q: nat, config: Config)
    requires q + 4 <= |w| && w[q] == '/' && w[q + 1] == '*' && w[q + 2] == '*' && w[q + 3] == '/'
             && !config.emitComments
    ensures Step(w, q, config) == Scan(q + 4, [], [])
  {
    hide ScanWord, ScanNumber, ScanDot, ScanQuote, ScanOperator, ScanOther, OneChar, LineEnd;
  }

  /** A separator makes no tokens. */
  lemma {:induction false} SeparatorIsDropped(w: Text, q: nat, from: nat, config: Config)
    requires q + |SEPARATOR| <= |w| && w[q..q + |SEPARATOR|] == SEPARATOR && !config.emitComments
    requires from == q || from == q + 1
    ensures LexFrom(w, from, config) == LexFrom(w, q + |SEPARATOR|, config)
  {
    assert forall k :: 0 <= k < |SEPARATOR| ==> w[q..q + |SEPARATOR|][k] == SEPARATOR[k];
    assert w[q] == w[q + 5] == ' ' && w[q + 1] == w[q + 4] == '/' && w[q + 2] == w[q + 3] == '*';
    assert Step(w, q, config) == Scan(q + 1, [], []) && Step(w, q + 5, config) == Scan(q + 6, [], []);
    EmptyCommentStep(w, q + 1, config);
    hide Step, LexFrom;
    EmptyStep(w, q, q + 1, config);
    EmptyStep(w, q + 1, q + 5, config);
    EmptyStep(w, q + 5, q + 6, config);
  }

  lemma RestRelexes(xs: seq<Lexeme>, config: Config)
    requires xs != [] && AllRelex(xs, config)
    ensures Relexes(xs[0], config) && AllRelex(xs[1..], config)
  {
    hide Relexes;
  }

  lemma {:induction false} NothingRelexes(w: Text, p: nat, config: Config)
    requires p <= |w| <= SOURCE_SIZE_MAX && w[p..] == Join([END])
    ensures LexFrom(w, p, config).reports == [] && Lexemes(LexFrom(w, p, config).tokens, w) == [END]
  {
    hide Step, LexemeOf, Lexemes;
    assert Join([END]) == "";
    assert p == |w|;
    EndReads(w, p);
    OneLexeme(MakeToken(EndOfFile, p, 0), w);
  }

  /** Texts that relex alone, joined by separators, become the same tokens in the same order. */
  lemma {:induction false} JoinedRelexes(w: Text, p: nat, xs: seq<Lexeme>, config: Config)
    requires p <= |w| <= SOURCE_SIZE_MAX && !config.emitComments && AllRelex(xs, config)
    requires w[p..] == Join(xs + [END])
    ensures LexFrom(w, p, config).reports == []
    ensures Lexemes(LexFrom(w, p, config).tokens, w) == xs + [END]
    decreases xs
  {
    hide LexFrom, Relexes, AllRelex, Lexemes;
    if xs == [] {
      assert xs + [END] == [END];
      NothingRelexes(w, p, config);
    } else {
      var x, rest := xs[0], xs[1..];
      var q := p + |x.text|;
      assert (xs + [END])[1..] == rest + [END];
      JoinSplits(w, p, x.text, Join(rest + [END]));
      RestRelexes(xs, config);
      RelexStep(w, p, x, config);
      JoinedRelexes(w, q + |SEPARATOR|, rest, config);
      assert [x] + (rest + [END]) == xs + [END];
    }
  }

  lemma JoinSplits(w: Text, p: nat, s: Text, rest: Text)
    requires p <= |w| && w[p..] == s + SEPARATOR + rest
    ensures var q := p + |s|;
            && q + |SEPARATOR| <= |w|
            && w[p..q] == s && w[q..q + |SEPARATOR|] == SEPARATOR && w[q + |SEPARATOR|..] == rest
  {
    var q := p + |s|;
    assert w[p..q] == w[p..][..|s|];
    assert w[q..q + |SEPARATOR|] == w[p..][|s|..|s| + |SEPARATOR|];
    assert w[q + |SEPARATOR|..] == w[p..][|s| + |SEPARATOR|..];
  }

  /** Lexing one text and the separator behind it. */
  lemma {:induction false} RelexStep(w: Text, p: nat, x: Lexeme, config: Config)
    requires p + |x.text| + |SEPARATOR| <= |w| <= SOURCE_SIZE_MAX && !config.emitComments && Relexes(x, config)
    requires w[p..p + |x.text|] == x.text
    requires w[p + |x.text|..p + |x.text| + |SEPARATOR|] == SEPARATOR
    ensures var behind := LexFrom(w, p + |x.text| + |SEPARATOR|, config);
            && LexFrom(w, p, config).reports == behind.reports
            && Lexemes(LexFrom(w, p, config).tokens, w) == [x] + Lexemes(behind.tokens, w)
  {
    hide Step, LexemeOf, Masked;
    var q := p + |x.text|;
    assert w[q] == w[q..q + |SEPARATOR|][0] && w[q + 1] == w[q..q + |SEPARATOR|][1];
    assert Stands(w, p, x.text);
    var scan := Step(w, p, config);
    var behind := LexFrom(w, q + |SEPARATOR|, config);
    SeparatorIsDropped(w, q, scan.next, config);
    LexemesConcat(scan.tokens, behind.tokens, w);
    OneLexeme(scan.tokens[0], w);
    assert scan.tokens == [scan.tokens[0]];
  }

  // ---------------------------------------------------------------- main result

  /** For a well-formed source that is lexed without comments and without reports, and in which all quotes are closed:
      joining the texts of its tokens with separators and lexing again gives the same kinds and texts in the same order,
      exactly if the joined text is not larger than a source may be. */
  lemma {:induction false} RelexingKeepsTokens(text: Text, cs: seq<Character>, config: Config)
    requires IsUtf8(text, 0, cs) && !config.emitComments && Lex(text, config).reports == []
    requires QuotesClosed(Lexemes(Lex(text, config).tokens, text))
    ensures var xs := Lexemes(Lex(text, config).tokens, text);
            var again := Lex(Join(xs), config);
            && (|Join(xs)| <= SOURCE_SIZE_MAX <==> again.reports == [] && Lexemes(again.tokens, Join(xs)) == xs)
            && (|Join(xs)| > SOURCE_SIZE_MAX ==> again.reports == [Report(SourceFileTooLarge, 0)])
  {
    hide LexFrom, LexemeOf, Join, IsUtf8, QuotesClosed;
    var xs := LexFromRelexes(text, 0, config);
    var w := Join(xs + [END]);
    if |w| <= SOURCE_SIZE_MAX {
      assert w[0..] == w;
      JoinedRelexes(w, 0, xs, config);
    }
  }

  /** Every ASCII source is well-formed. */
  lemma {:induction false} AsciiIsUtf8(text: Text, i: nat) returns (cs: seq<Character>)
    requires i <= |text| && forall k :: i <= k < |text| ==> IsAscii(text[k])
    ensures IsUtf8(text, i, cs)
    decreases |text| - i
  {
    hide IsAscii, Encode, IsWideScalar, HasBytes;
    if i == |text| {
      cs := [];
    } else {
      var rest := AsciiIsUtf8(text, i + 1);
      cs := [Identifiers.Ascii(text[i])] + rest;
      assert cs[1..] == rest;
    }
  }
}
