/** The keyword table, and how a word is looked up in it (cero/syntax/keywords.hh, Token::get_text in token.cc). */
module Keywords {
  import opened Tokens
  import opened SourceText

  /** The text of the tokens of fixed length; see `Token::get_text`. */
  function FixedText(kind: TokenKind): string {
    match kind
    case KwBreak | KwCatch | KwConst | KwContinue | KwDo | KwElse | KwEnum | KwFor | KwIf | KwIn | KwInterface =>
      KeywordText(kind)
    case KwLet | KwMut | KwPrivate | KwPublic | KwRaise | KwReturn | KwStatic | KwStruct | KwSwitch | KwTry =>
      KeywordText(kind)
    case KwUnchecked | KwWhile => KeywordText(kind)
    case Dot | Comma | Colon | Semicolon | LBrace | RBrace | LParen | RParen | LBracket | RBracket | LAngle | RAngle =>
      SignText(kind)
    case Eq | Plus | Minus | Star | Slash | Percent | Ampersand | Pipe | Tilde | Caret | Bang => SignText(kind)
    case ThinArrow | ThickArrow | ColonColon | PlusPlus | MinusMinus | LAngleAngle | AndAnd | PipePipe => PairText(kind)
    case EqEq | BangEq | LAngleEq | RAngleEq | PlusEq | MinusEq | StarEq | SlashEq => PairText(kind)
    case PercentEq | AmpersandEq | PipeEq | TildeEq => PairText(kind)
    case LAngleAngleEq | RAngleAngleEq | AndAndEq | PipePipeEq => TripleText(kind)
    case _ => ""
  }

  function KeywordText(kind: TokenKind): string {
    match kind
    case KwBreak => "break" case KwCatch => "catch" case KwConst => "const" case KwContinue => "continue"
    case KwDo => "do" case KwElse => "else" case KwEnum => "enum" case KwFor => "for" case KwIf => "if"
    case KwIn => "in" case KwInterface => "interface" case KwLet => "let" case KwMut => "mut"
    case KwPrivate => "private" case KwPublic => "public" case KwRaise => "raise" case KwReturn => "return"
    case KwStatic => "static" case KwStruct => "struct" case KwSwitch => "switch" case KwTry => "try"
    case KwUnchecked => "unchecked" case KwWhile => "while"
    case _ => ""
  }

  /** The operators of one character; NUL stands for none. */
  function SignChar(kind: TokenKind): char {
    match kind
    case Dot => '.' case Comma => ',' case Colon => ':' case Semicolon => ';'
    case LBrace => '{' case RBrace => '}' case LParen => '(' case RParen => ')' case LBracket => '[' case RBracket => ']'
    case LAngle => '<' case RAngle => '>' case Eq => '=' case Plus => '+' case Minus => '-' case Star => '*'
    case Slash => '/' case Percent => '%' case Ampersand => '&' case Pipe => '|' case Tilde => '~' case Caret => '^'
    case Bang => '!'
    case _ => '\0'
  }

  function SignText(kind: TokenKind): string {
    if SignChar(kind) == '\0' then "" else [SignChar(kind)]
  }

  datatype Pair = NoPair | Pair(first: char, second: char)

  function PairChars(kind: TokenKind): Pair {
    match kind
    case ThinArrow => Pair('-', '>') case ThickArrow => Pair('=', '>') case ColonColon => Pair(':', ':')
    case PlusPlus => Pair('+', '+') case MinusMinus => Pair('-', '-') case LAngleAngle => Pair('<', '<')
    case AndAnd => Pair('&', '&') case PipePipe => Pair('|', '|') case EqEq => Pair('=', '=')
    case BangEq => Pair('!', '=') case LAngleEq => Pair('<', '=') case RAngleEq => Pair('>', '=')
    case PlusEq => Pair('+', '=') case MinusEq => Pair('-', '=') case StarEq => Pair('*', '=')
    case SlashEq => Pair('/', '=') case PercentEq => Pair('%', '=') case AmpersandEq => Pair('&', '=')
    case PipeEq => Pair('|', '=') case TildeEq => Pair('~', '=')
    case _ => NoPair
  }

  function PairText(kind: TokenKind): string {
    if PairChars(kind) == NoPair then "" else [PairChars(kind).first, PairChars(kind).second]
  }

  function TripleText(kind: TokenKind): string {
    match kind
    case LAngleAngleEq => "<<=" case RAngleAngleEq => ">>=" case AndAndEq => "&&=" case PipePipeEq => "||="
    case _ => ""
  }

  lemma SignIsFixed(kind: TokenKind)
    requires SignText(kind) != ""
    ensures FixedText(kind) == SignText(kind)
  {
    hide KeywordText, PairText, TripleText;
  }

  lemma PairIsFixed(kind: TokenKind)
    requires PairText(kind) != ""
    ensures FixedText(kind) == PairText(kind)
  {
    hide KeywordText, SignText, TripleText;
  }

  lemma TripleIsFixed(kind: TokenKind)
    requires TripleText(kind) != ""
    ensures FixedText(kind) == TripleText(kind)
  {
    hide KeywordText, SignText, PairText;
  }

  lemma KeywordIsFixed(kind: TokenKind)
    requires KeywordText(kind) != ""
    ensures FixedText(kind) == KeywordText(kind)
  {
    hide SignText, PairText, TripleText;
  }

  lemma TextSizes(kind: TokenKind)
    ensures |SignText(kind)| <= 1
    ensures |PairText(kind)| == 0 || |PairText(kind)| == 2
    ensures |TripleText(kind)| == 0 || |TripleText(kind)| == 3
  {
    hide SignChar, PairChars;
  }

  /** What is no keyword is an operator of one, two or three characters, or has no fixed text. */
  lemma FixedCases(kind: TokenKind)
    requires !IsKeyword(kind) && FixedText(kind) != ""
    ensures FixedText(kind) == SignText(kind) || FixedText(kind) == PairText(kind) || FixedText(kind) == TripleText(kind)
    ensures kind != EndOfFile
  {
    hide KeywordText, SignText, PairText, TripleText;
  }

  predicate IsKeyword(kind: TokenKind) {
    match kind
    case KwBreak | KwCatch | KwConst | KwContinue | KwDo | KwElse | KwEnum | KwFor | KwIf | KwIn | KwInterface => true
    case KwLet | KwMut | KwPrivate | KwPublic | KwRaise | KwReturn | KwStatic | KwStruct | KwSwitch | KwTry => true
    case KwUnchecked | KwWhile => true
    case _ => false
  }

  datatype Keyword = Keyword(lexeme: string, kind: TokenKind)

  const KEYWORDS: seq<Keyword> := [
    Keyword("break", KwBreak),
    Keyword("catch", KwCatch),
    Keyword("const", KwConst),
    Keyword("continue", KwContinue),
    Keyword("do", KwDo),
    Keyword("else", KwElse),
    Keyword("enum", KwEnum),
    Keyword("for", KwFor),
    Keyword("if", KwIf),
    Keyword("in", KwIn),
    Keyword("interface", KwInterface),
    Keyword("let", KwLet),
    Keyword("mut", KwMut),
    Keyword("private", KwPrivate),
    Keyword("public", KwPublic),
    Keyword("raise", KwRaise),
    Keyword("return", KwReturn),
    Keyword("static", KwStatic),
    Keyword("struct", KwStruct),
    Keyword("switch", KwSwitch),
    Keyword("try", KwTry),
    Keyword("unchecked", KwUnchecked),
    Keyword("while", KwWhile)
  ]

  /** The kind of the first keyword from entry `k` on that reads like the word. */
  function FirstMatch(word: Text, k: nat): TokenKind
    requires k <= |KEYWORDS|
    decreases |KEYWORDS| - k
  {
    if k == |KEYWORDS| then Identifier
    else if KEYWORDS[k].lexeme == word then KEYWORDS[k].kind
    else FirstMatch(word, k + 1)
  }

  /** A word is a keyword exactly if it reads like one. */
  function WordKind(word: Text): TokenKind {
    FirstMatch(word, 0)
  }

  /** What the lookup relies on: the lexemes have two to nine small letters and are the texts of their kinds. */
  ghost predicate GoodKeyword(keyword: Keyword) {
    && 2 <= |keyword.lexeme| <= 9
    && (forall i :: 0 <= i < |keyword.lexeme| ==> 'a' <= keyword.lexeme[i] <= 'z')
    && FixedText(keyword.kind) == keyword.lexeme
    && IsKeyword(keyword.kind)
  }

  lemma KeywordsAreGood(k: nat)
    requires k < |KEYWORDS|
    ensures GoodKeyword(KEYWORDS[k])
  {
    hide FixedText, IsKeyword;
    EntryMatchesKind(k);
    KeywordIsShort(KEYWORDS[k].kind);
  }

  lemma EntryMatchesKind(k: nat)
    requires k < |KEYWORDS|
    ensures FixedText(KEYWORDS[k].kind) == KEYWORDS[k].lexeme && IsKeyword(KEYWORDS[k].kind)
  {
    hide FixedText, IsKeyword;
    if k < 8 {
      EntriesTo8(k);
    } else if k < 16 {
      EntriesTo16(k);
    } else {
      EntriesFrom16(k);
    }
  }

  lemma EntriesTo8(k: nat)
    requires k < 8
    ensures FixedText(KEYWORDS[k].kind) == KEYWORDS[k].lexeme && IsKeyword(KEYWORDS[k].kind)
  {
    hide FixedText;
    KeywordIsFixed(KEYWORDS[k].kind);
  }

  lemma EntriesTo16(k: nat)
    requires 8 <= k < 16
    ensures FixedText(KEYWORDS[k].kind) == KEYWORDS[k].lexeme && IsKeyword(KEYWORDS[k].kind)
  {
    hide FixedText;
    KeywordIsFixed(KEYWORDS[k].kind);
  }

  lemma EntriesFrom16(k: nat)
    requires 16 <= k < |KEYWORDS|
    ensures FixedText(KEYWORDS[k].kind) == KEYWORDS[k].lexeme && IsKeyword(KEYWORDS[k].kind)
  {
    hide FixedText;
    KeywordIsFixed(KEYWORDS[k].kind);
  }

  lemma KeywordIsShort(kind: TokenKind)
    requires IsKeyword(kind)
    ensures 2 <= |FixedText(kind)| <= 9
    ensures forall i :: 0 <= i < |FixedText(kind)| ==> 'a' <= FixedText(kind)[i] <= 'z'
  {
    hide FixedText;
    KeywordTextIsShort(kind);
    KeywordIsFixed(kind);
  }

  lemma KeywordTextIsShort(kind: TokenKind)
    requires IsKeyword(kind)
    ensures 2 <= |KeywordText(kind)| <= 9
    ensures forall i :: 0 <= i < |KeywordText(kind)| ==> 'a' <= KeywordText(kind)[i] <= 'z'
  {
  }

  /** A keyword token reads like the word it was made from. */
  lemma {:induction false} MatchReads(word: Text, k: nat)
    requires k <= |KEYWORDS|
    ensures FirstMatch(word, k) != Identifier <==> exists j :: k <= j < |KEYWORDS| && KEYWORDS[j].lexeme == word
    ensures FirstMatch(word, k) != Identifier ==> FixedText(FirstMatch(word, k)) == word && IsKeyword(FirstMatch(word, k))
    decreases |KEYWORDS| - k
  {
    hide FixedText, IsKeyword, KEYWORDS;
    if k < |KEYWORDS| {
      KeywordsAreGood(k);
      KeywordIsNoName(KEYWORDS[k].kind);
      MatchReads(word, k + 1);
    }
  }

  lemma {:induction false} KeywordReads(word: Text)
    ensures WordKind(word) != Identifier <==> exists j :: 0 <= j < |KEYWORDS| && KEYWORDS[j].lexeme == word
    ensures WordKind(word) != Identifier ==> FixedText(WordKind(word)) == word
    ensures WordKind(word) != EndOfFile
  {
    hide FixedText, KEYWORDS;
    MatchReads(word, 0);
  }

  /** Where the table holds a keyword. */
  function EntryOf(kind: TokenKind): nat {
    match kind
    case KwBreak => 0 case KwCatch => 1 case KwConst => 2 case KwContinue => 3 case KwDo => 4 case KwElse => 5
    case KwEnum => 6 case KwFor => 7 case KwIf => 8 case KwIn => 9 case KwInterface => 10 case KwLet => 11
    case KwMut => 12 case KwPrivate => 13 case KwPublic => 14 case KwRaise => 15 case KwReturn => 16
    case KwStatic => 17 case KwStruct => 18 case KwSwitch => 19 case KwTry => 20 case KwUnchecked => 21
    case _ => 22
  }

  lemma EntryHolds(kind: TokenKind, k: nat)
    requires IsKeyword(kind) && EntryOf(kind) == k
    ensures k < |KEYWORDS| && KEYWORDS[k].kind == kind
  {
    hide KEYWORDS, EntryOf, IsKeyword;
    if k < 12 {
      FirstEntriesHold(kind, k);
    } else {
      LastEntriesHold(kind, k);
    }
  }

  lemma FirstEntriesHold(kind: TokenKind, k: nat)
    requires IsKeyword(kind) && EntryOf(kind) == k < 12
    ensures k < |KEYWORDS| && KEYWORDS[k].kind == kind
  {
  }

  lemma LastEntriesHold(kind: TokenKind, k: nat)
    requires IsKeyword(kind) && EntryOf(kind) == k >= 12
    ensures k < |KEYWORDS| && KEYWORDS[k].kind == kind
  {
  }

  /** The only keyword that a word can be, by its length and a letter or two. */
  function KeywordByShape(word: string): TokenKind {
    if |word| == 2 then if word[1] == 'o' then KwDo else if word[1] == 'f' then KwIf else KwIn
    else if |word| == 3 then
      if word[0] == 'f' then KwFor else if word[0] == 'l' then KwLet else if word[0] == 'm' then KwMut else KwTry
    else if |word| == 4 then if word[1] == 'l' then KwElse else KwEnum
    else if |word| == 5 then
      if word[0] == 'b' then KwBreak else if word[0] == 'r' then KwRaise else if word[0] == 'w' then KwWhile
      else if word[1] == 'a' then KwCatch else KwConst
    else if |word| == 6 then
      if word[0] == 'p' then KwPublic else if word[0] == 'r' then KwReturn else if word[1] == 'w' then KwSwitch
      else if word[2] == 'a' then KwStatic else KwStruct
    else if |word| == 7 then KwPrivate
    else if |word| == 8 then KwContinue
    else if |word| == 9 && word[0] == 'i' then KwInterface
    else KwUnchecked
  }

  lemma KeywordHasShape(kind: TokenKind)
    requires IsKeyword(kind)
    ensures KeywordText(kind) != "" && KeywordByShape(KeywordText(kind)) == kind
  {
  }

  lemma KeywordTextsDiffer(kind: TokenKind, other: TokenKind)
    requires IsKeyword(kind) && IsKeyword(other) && FixedText(kind) == FixedText(other)
    ensures kind == other
  {
    hide FixedText, KeywordText, KeywordByShape, IsKeyword;
    KeywordHasShape(kind);
    KeywordHasShape(other);
    KeywordIsFixed(kind);
    KeywordIsFixed(other);
  }

  /** Every keyword is found by its text, and by nothing else. */
  lemma {:induction false} KeywordsAreFound(kind: TokenKind, word: Text)
    requires IsKeyword(kind)
    ensures WordKind(word) == kind <==> word == FixedText(kind)
  {
    hide FixedText, IsKeyword, KEYWORDS, EntryOf, FirstMatch;
    MatchReads(word, 0);
    KeywordIsNoName(kind);
    if word == FixedText(kind) {
      EntryHolds(kind, EntryOf(kind));
      KeywordsAreGood(EntryOf(kind));
      assert KEYWORDS[EntryOf(kind)].lexeme == word;
      KeywordTextsDiffer(kind, WordKind(word));
    }
  }

  lemma KeywordIsNoName(kind: TokenKind)
    requires IsKeyword(kind)
    ensures kind != Identifier && kind != EndOfFile
  {
  }

  // ---------------------------------------------------------------- lookup by 64-bit words

  /** The bytes copied into an integer, first byte lowest, and zero behind them. */
  function EncodeTail(bytes: Text): nat {
    if bytes == [] then 0 else bytes[0] as int + 256 * EncodeTail(bytes[1..])
  }

  ghost predicate IsBytes(text: Text) {
    forall k :: 0 <= k < |text| ==> text[k] as int < 256
  }

  /** Eight bytes fill a 64-bit integer and no more. */
  lemma EncodeFits(bytes: Text)
    requires IsBytes(bytes) && |bytes| <= 8
    ensures EncodeTail(bytes) < 0x1_0000_0000_0000_0000
  {
    EncodeBound(bytes);
    assert Power256(8) == 0x1_0000_0000_0000_0000;
    PowersGrow(|bytes|, 8);
  }

  function Power256(n: nat): nat {
    if n == 0 then 1 else 256 * Power256(n - 1)
  }

  lemma {:induction false} PowersGrow(m: nat, n: nat)
    requires m <= n
    ensures Power256(m) <= Power256(n)
  {
    if m < n {
      PowersGrow(m, n - 1);
    }
  }

  lemma {:induction false} EncodeBound(bytes: Text)
    requires IsBytes(bytes)
    ensures EncodeTail(bytes) < Power256(|bytes|)
  {
    if bytes != [] {
      EncodeBound(bytes[1..]);
    }
  }

  ghost predicate AllNul(bytes: Text) {
    forall k :: 0 <= k < |bytes| ==> bytes[k] == '\0'
  }

  /** Bytes that encode like a text without NULs are that text, with nothing but NULs behind it. */
  lemma {:induction false} EncodingIsUnambiguous(bytes: Text, tail: Text)
    requires IsBytes(bytes) && IsBytes(tail) && EncodeTail(bytes) == EncodeTail(tail)
    requires forall k :: 0 <= k < |tail| ==> tail[k] != '\0'
    ensures |tail| <= |bytes| && bytes[..|tail|] == tail && AllNul(bytes[|tail|..])
    decreases bytes
  {
    if bytes == [] {
    } else if tail == [] {
      assert bytes[0] as int == 0 && EncodeTail(bytes[1..]) == 0;
      EncodingIsUnambiguous(bytes[1..], []);
      assert AllNul(bytes) by {
        assert forall k :: 0 < k < |bytes| ==> bytes[k] == bytes[1..][k - 1];
      }
    } else {
      SameLowByte(bytes[0] as int, EncodeTail(bytes[1..]), tail[0] as int, EncodeTail(tail[1..]));
      assert bytes[0] as int == tail[0] as int;
      EncodingIsUnambiguous(bytes[1..], tail[1..]);
      assert bytes[..|tail|] == [bytes[0]] + bytes[1..][..|tail| - 1];
      assert bytes[|tail|..] == bytes[1..][|tail| - 1..];
    }
  }

  lemma SameLowByte(a: nat, m: nat, b: nat, n: nat)
    requires a < 256 && b < 256 && a + 256 * m == b + 256 * n
    ensures a == b && m == n
  {
  }

  /** In the bytes of a word a NUL only occurs inside a multi-byte character, so behind a byte that is not ASCII. */
  ghost predicate NulsAreInside(word: Text) {
    forall k :: 0 <= k < |word| && word[k] == '\0' ==> exists j :: 0 <= j < k && !IsAscii(word[j])
  }

  lemma NoNulBehindAscii(word: Text, n: nat)
    requires NulsAreInside(word) && forall j :: 0 <= j < n && j < |word| ==> IsAscii(word[j])
    ensures n < |word| ==> word[n] != '\0'
  {
  }

  lemma NulsBehind(word: Text, n: nat)
    requires 0 < n <= |word| && AllNul(word[1..][n - 1..])
    ensures forall k :: n <= k < |word| ==> word[k] == '\0'
  {
    var rest := word[1..][n - 1..];
    assert forall k :: n <= k < |word| ==> word[k] == rest[k - n];
  }

  /** Comparing the encoded tails of a word and a keyword is comparing the words. */
  lemma {:induction false} TailsDecide(word: Text, lexeme: string)
    requires IsBytes(word) && NulsAreInside(word) && word != [] && lexeme != [] && word[0] == lexeme[0]
    requires forall k :: 0 <= k < |lexeme| ==> 'a' <= lexeme[k] <= 'z'
    ensures EncodeTail(word[1..]) == EncodeTail(lexeme[1..]) <==> word == lexeme
  {
    hide EncodeTail, AllNul, NulsAreInside, IsAscii;
    if EncodeTail(word[1..]) == EncodeTail(lexeme[1..]) {
      var n := |lexeme|;
      SmallBytes(lexeme);
      EncodingIsUnambiguous(word[1..], lexeme[1..]);
      TailsJoin(word, lexeme);
      NulsBehind(word, n);
      NoNulBehindAscii(word, n);
      assert |word| == n;
    }
  }

  lemma SmallBytes(lexeme: string)
    requires lexeme != [] && forall k :: 0 <= k < |lexeme| ==> 'a' <= lexeme[k] <= 'z'
    ensures IsBytes(lexeme[1..]) && forall k :: 0 <= k < |lexeme| ==> lexeme[k] != '\0' && IsAscii(lexeme[k])
  {
  }

  lemma TailsJoin(word: Text, lexeme: string)
    requires word != [] && lexeme != [] && word[0] == lexeme[0] && |lexeme| <= |word|
    requires word[1..][..|lexeme| - 1] == lexeme[1..]
    ensures word[..|lexeme|] == lexeme
  {
    var n := |lexeme|;
    assert forall k :: 0 < k < n ==> word[k] == word[1..][..n - 1][k - 1] == lexeme[k];
  }

  /** A keyword without its first character. */
  datatype KeywordTail = KeywordTail(tail: nat, kind: TokenKind)

  /** The tails of the keywords from entry `k` on that begin with `first`. */
  function TailsFrom(first: char, k: nat): seq<KeywordTail>
    requires k <= |KEYWORDS|
    decreases |KEYWORDS| - k
  {
    if k == |KEYWORDS| then []
    else
      var keyword := KEYWORDS[k];
      if keyword.lexeme != [] && keyword.lexeme[0] == first then
        [KeywordTail(EncodeTail(keyword.lexeme[1..]), keyword.kind)] + TailsFrom(first, k + 1)
      else TailsFrom(first, k + 1)
  }

  lemma TailsStep(first: char, k: nat, tails: seq<KeywordTail>)
    requires k < |KEYWORDS|
    ensures var keyword := KEYWORDS[k];
            tails + TailsFrom(first, k)
            == (if keyword.lexeme != [] && keyword.lexeme[0] == first
                then tails + [KeywordTail(EncodeTail(keyword.lexeme[1..]), keyword.kind)]
                else tails) + TailsFrom(first, k + 1)
  {
    hide KEYWORDS, EncodeTail;
    var keyword := KEYWORDS[k];
    if keyword.lexeme != [] && keyword.lexeme[0] == first {
      var tail := KeywordTail(EncodeTail(keyword.lexeme[1..]), keyword.kind);
      assert tails + ([tail] + TailsFrom(first, k + 1)) == tails + [tail] + TailsFrom(first, k + 1);
    }
  }

  lemma NoTailsBehind(first: char)
    ensures TailsFrom(first, |KEYWORDS|) == []
  {
    hide KEYWORDS;
  }

  /** The compile-time loop that collects the tails. */
  method GetKeywordTails(first: char) returns (tails: seq<KeywordTail>)
    ensures tails == TailsFrom(first, 0)
  {
    hide KEYWORDS, EncodeTail, TailsFrom;
    tails := [];
    for k := 0 to |KEYWORDS|
      invariant tails + TailsFrom(first, k) == TailsFrom(first, 0)
    {
      TailsStep(first, k, tails);
      var keyword := KEYWORDS[k];
      if keyword.lexeme != [] && keyword.lexeme[0] == first {
        tails := tails + [KeywordTail(EncodeTail(keyword.lexeme[1..]), keyword.kind)];
      }
    }
    NoTailsBehind(first);
  }

  function LookupTail(tails: seq<KeywordTail>, encoded: nat): TokenKind {
    if tails == [] then Identifier
    else if tails[0].tail == encoded then tails[0].kind
    else LookupTail(tails[1..], encoded)
  }

  /** Looking a word up by its first letter and its encoded tail is looking it up in the table. */
  lemma {:induction false} LookupIsExact(word: Text, k: nat)
    requires k <= |KEYWORDS| && word != [] && IsBytes(word) && NulsAreInside(word)
    ensures LookupTail(TailsFrom(word[0], k), EncodeTail(word[1..])) == FirstMatch(word, k)
    decreases |KEYWORDS| - k
  {
    hide KEYWORDS, EncodeTail, FixedText, IsKeyword, NulsAreInside;
    if k < |KEYWORDS| {
      KeywordsAreGood(k);
      var lexeme := KEYWORDS[k].lexeme;
      LookupIsExact(word, k + 1);
      if lexeme[0] == word[0] {
        TailsDecide(word, lexeme);
        var rest := TailsFrom(word[0], k + 1);
        var tail := KeywordTail(EncodeTail(lexeme[1..]), KEYWORDS[k].kind);
        assert ([tail] + rest)[1..] == rest;
      }
    }
  }

  /** No keyword is longer than nine bytes. */
  lemma {:induction false} LongWordsAreNames(word: Text)
    requires |word| > 9
    ensures WordKind(word) == Identifier
  {
    hide KEYWORDS, FixedText, IsKeyword;
    MatchReads(word, 0);
    forall j | 0 <= j < |KEYWORDS| ensures KEYWORDS[j].lexeme != word {
      KeywordsAreGood(j);
    }
  }

  /** Every keyword begins with a small letter. */
  lemma {:induction false} KeywordsAreSmall(word: Text)
    requires word != [] && !('a' <= word[0] <= 'z')
    ensures WordKind(word) == Identifier
  {
    hide KEYWORDS, FixedText, IsKeyword;
    MatchReads(word, 0);
    forall j | 0 <= j < |KEYWORDS| ensures KEYWORDS[j].lexeme != word {
      KeywordsAreGood(j);
    }
  }
}
