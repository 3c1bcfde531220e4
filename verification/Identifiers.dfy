/** Identifiers in well-formed UTF-8: what they are made of, and that lexing never loses the character boundaries. */
module Identifiers {
  import opened Tokens
  import opened SourceText
  import opened Unicode
  import opened Keywords
  import opened Lexical
  import LexicalLaws
  import LexicalReports
  import LexicalSteps
  import Tiling

  // ---------------------------------------------------------------- characters

  /** A character of well-formed UTF-8: an ASCII byte, or a scalar value outside ASCII. */
  datatype Character = Ascii(byte: char) | Wide(scalar: bv32)

  predicate IsCharacter(c: Character) {
    if c.Ascii? then IsAscii(c.byte) else IsWideScalar(c.scalar)
  }

  function Size(c: Character): (size: nat)
    requires IsCharacter(c)
    ensures size > 0
  {
    if c.Ascii? then 1 else |Encode(c.scalar)|
  }

  /** The bytes of the text at `i` are those of the character. */
  ghost predicate HasCharacter(text: Text, i: nat, c: Character) {
    && IsCharacter(c)
    && i + Size(c) <= |text|
    && if c.Ascii? then text[i] == c.byte else HasBytes(text, i, Encode(c.scalar))
  }

  ghost predicate HasBytes(text: Text, i: nat, bytes: seq<bv32>) {
    forall k :: 0 <= k < |bytes| ==> ByteAt(text, i + k) == bytes[k]
  }

  /** The text from `i` on is the UTF-8 form of the characters. */
  ghost predicate IsUtf8(text: Text, i: nat, cs: seq<Character>)
    decreases cs
  {
    if cs == [] then i == |text|
    else HasCharacter(text, i, cs[0]) && IsUtf8(text, i + Size(cs[0]), cs[1..])
  }

  lemma WideIsNotAscii(c: char)
    requires LeadingOnes(ByteOf(c)) >= 1
    ensures !IsAscii(c)
  {
  }

  /** The bytes of one wide character are read back as its scalar value. */
  lemma {:induction false} WideCharacterReads(text: Text, i: nat, s: bv32, table: seq<Range>)
    requires i < |text| && HasCharacter(text, i, Wide(s))
    ensures CharEnd(text, i) == i + |Encode(s)|
    ensures CharIn(text, i, table) <==> InTable(table, s as nat)
    ensures !IsAscii(text[i])
  {
    hide LeadingOnes, ScalarOf, Pack2, Pack3, Pack4, IsWideScalar, ByteAt, InTable, IsAscii, Encode;
    var bytes := Encode(s);
    DecodeEncode(s);
    assert ByteAt(text, i + 0) == bytes[0] && ByteAt(text, i + 1) == bytes[1];
    if |bytes| > 2 {
      assert ByteAt(text, i + 2) == bytes[2];
    }
    if |bytes| > 3 {
      assert ByteAt(text, i + 3) == bytes[3];
    }
    assert Packed(text, i) == PackAll(bytes);
    FirstByte(text, i);
    WideIsNotAscii(text[i]);
  }

  lemma FirstByte(text: Text, i: nat)
    requires i < |text|
    ensures ByteAt(text, i) == ByteOf(text[i])
  {
  }

  /** The characters that may follow the first of an identifier, as in section 2 of Unicode Standard Annex #31. */
  predicate Continues(c: Character, config: Config)
    requires IsCharacter(c)
  {
    if c.Ascii? then IsAsciiIdentifierChar(c.byte) else InTable(config.continuation, c.scalar as nat)
  }

  predicate Starts(c: Character, config: Config)
    requires IsCharacter(c)
  {
    if c.Ascii? then IsWordStart(c.byte) else InTable(config.start, c.scalar as nat)
  }

  /** All of the word continue an identifier, and the character behind it, if there is one, does not. */
  ghost predicate IsLongest(word: seq<Character>, rest: seq<Character>, config: Config) {
    && (forall k :: 0 <= k < |word| ==> IsCharacter(word[k]) && Continues(word[k], config))
    && (rest != [] ==> IsCharacter(rest[0]) && !Continues(rest[0], config))
  }

  predicate AllCharacters(cs: seq<Character>) {
    forall k :: 0 <= k < |cs| ==> IsCharacter(cs[k])
  }

  function Sizes(cs: seq<Character>): nat
    requires AllCharacters(cs)
  {
    if cs == [] then 0 else Size(cs[0]) + Sizes(cs[1..])
  }

  /** In well-formed UTF-8 the rest of a word is the longest run of characters that continue an identifier. A wide
      character that ends it is reported, and is taken into the word. */
  lemma {:induction false} WordIsLongest(text: Text, i: nat, word: seq<Character>, rest: seq<Character>, config: Config)
    requires i <= |text| && IsUtf8(text, i, word + rest) && IsLongest(word, rest, config)
    ensures var end := i + Sizes(word);
            if rest != [] && rest[0].Wide? then
              && WordEnd(text, i, config) == end + Size(rest[0])
              && WordReports(text, i, config) == [Report(InvalidCharacter, end)]
            else
              && WordEnd(text, i, config) == end
              && WordReports(text, i, config) == []
    decreases word
  {
    hide Size, HasBytes, InTable, IsAscii, CharEnd, CharIn, IsCharacter, Encode;
    if word == [] {
      assert word + rest == rest;
      if rest != [] {
        WordStep(text, i, rest[0], config);
      }
    } else {
      WordStep(text, i, word[0], config);
      assert (word + rest)[1..] == word[1..] + rest;
      WordIsLongest(text, i + Size(word[0]), word[1..], rest, config);
    }
  }

  lemma {:induction false} WordStep(text: Text, i: nat, c: Character, config: Config)
    requires HasCharacter(text, i, c) && i < |text|
    ensures if Continues(c, config) then
              && WordEnd(text, i, config) == WordEnd(text, i + Size(c), config)
              && WordReports(text, i, config) == WordReports(text, i + Size(c), config)
            else if c.Ascii? then
              WordEnd(text, i, config) == i && WordReports(text, i, config) == []
            else
              && WordEnd(text, i, config) == i + Size(c)
              && WordReports(text, i, config) == [Report(InvalidCharacter, i)]
  {
    hide HasBytes, InTable, CharEnd, CharIn, Encode, IsWideScalar;
    if c.Wide? {
      WideCharacterReads(text, i, c.scalar, config.continuation);
    }
  }

  /** A character that starts an identifier is the first of a word. */
  lemma {:induction false} StartBeginsWord(text: Text, i: nat, first: Character, config: Config)
    requires i < |text| && HasCharacter(text, i, first) && Starts(first, config)
    ensures var scan, start := Step(text, i, config), i + Size(first);
            && start <= |text|
            && scan.next == WordEnd(text, start, config) && scan.reports == WordReports(text, start, config)
            && |scan.tokens| == 1 && scan.tokens[0].offset == Masked(i)
            && (scan.tokens[0].kind == Identifier ==> scan.tokens[0].length == scan.next - i)
  {
    hide HasBytes, InTable, CharEnd, CharIn, Encode, IsWideScalar, WordEnd, WordReports, Masked, WordKind, IsAscii,
         Step, IsWordStart;
    if first.Wide? {
      WideCharacterReads(text, i, first.scalar, config.start);
      WideIsOther(text, i, config);
    } else {
      LexicalSteps.WordStep(text, i, config);
    }
  }

  /** A character that starts an identifier becomes one token: it and the longest run of characters behind it that
      continue an identifier. A wide character directly behind them is reported and taken into the token. */
  lemma {:induction false} IdentifierIsLongest(text: Text, i: nat, first: Character, word: seq<Character>,
                                               rest: seq<Character>, config: Config)
    requires i < |text| && IsUtf8(text, i, [first] + (word + rest)) && IsCharacter(first) && Starts(first, config)
    requires IsLongest(word, rest, config)
    ensures var scan := Step(text, i, config);
            var end := i + Size(first) + Sizes(word);
            var reported := rest != [] && rest[0].Wide?;
            && scan.next == (if reported then end + Size(rest[0]) else end)
            && scan.reports == (if reported then [Report(InvalidCharacter, end)] else [])
            && |scan.tokens| == 1 && scan.tokens[0].offset == Masked(i)
            && (scan.tokens[0].kind == Identifier ==> scan.tokens[0].length == scan.next - i)
  {
    hide HasCharacter, Encode, IsWideScalar, Sizes, Step, WordEnd, WordReports, Masked, IsUtf8, IsLongest, Starts;
    assert ([first] + (word + rest))[1..] == word + rest;
    Utf8Head(text, i, [first] + (word + rest));
    StartBeginsWord(text, i, first, config);
    WordIsLongest(text, i + Size(first), word, rest, config);
  }

  lemma Utf8Head(text: Text, i: nat, cs: seq<Character>)
    requires IsUtf8(text, i, cs) && (cs != [] || i < |text|)
    ensures cs != [] && HasCharacter(text, i, cs[0]) && IsCharacter(cs[0]) && IsUtf8(text, i + Size(cs[0]), cs[1..])
  {
  }

  lemma WideIsOther(text: Text, i: nat, config: Config)
    requires i < |text| && !IsAscii(text[i])
    ensures Step(text, i, config) == ScanOther(text, i, config)
  {
    hide OneChar, ScanWord, ScanNumber, ScanDot, ScanComment, ScanQuote, ScanOperator, ScanOther;
    OperatorsAreAscii(text[i]);
  }

  lemma OperatorsAreAscii(c: char)
    requires !IsAscii(c)
    ensures OneChar(c) == EndOfFile
  {
  }

  /** A character that starts no identifier gives no identifier token. */
  lemma {:induction false} NoStartNoIdentifier(text: Text, i: nat, c: Character, config: Config)
    requires i < |text| && HasCharacter(text, i, c) && !Starts(c, config)
    ensures forall t :: t in Step(text, i, config).tokens ==> t.kind != Identifier
  {
    hide HasBytes, InTable, CharEnd, CharIn, Encode, IsWideScalar, WordEnd, WordReports, Masked, OneChar,
         OperatorTokens, OperatorEnd, DigitsEnd, SkipWhitespace, CommentEnd, LineEnd, QuoteEnd, QuoteUnclosed, IsAscii;
    if c.Wide? {
      WideCharacterReads(text, i, c.scalar, config.start);
      WideIsOther(text, i, config);
    } else {
      AsciiIsOneByte(text, i, config.start);
      if IsOperatorStart(text[i]) {
        OperatorsAreNoNames(text, i);
      }
    }
  }

  lemma OperatorsAreNoNames(text: Text, i: nat)
    requires i < |text|
    ensures forall t :: t in OperatorTokens(text, i) ==> t.kind != Identifier
  {
    hide OneChar, TwoChars, ThreeChars, Masked;
    Tiling.SignIsNoName(text[i]);
    Tiling.PairIsNoName(text[i], At(text, i + 1));
    Tiling.TriplesMatch(text[i], At(text, i + 1), At(text, i + 2));
  }

  /** A byte of ASCII is a character of its own, and no wide one. */
  lemma AsciiIsOneByte(text: Text, i: nat, table: seq<Range>)
    requires i < |text| && IsAscii(text[i])
    ensures CharEnd(text, i) == i + 1 && !CharIn(text, i, table)
  {
    hide InTable, ScalarOf, LeadingOnes, IsAscii;
    if LeadingOnes(ByteOf(text[i])) >= 1 {
      WideIsNotAscii(text[i]);
    }
  }

  // ---------------------------------------------------------------- boundaries

  /** The text from `i` on is well-formed UTF-8. */
  ghost predicate Boundary(text: Text, i: nat) {
    exists cs :: IsUtf8(text, i, cs)
  }

  lemma EndIsBoundary(text: Text)
    ensures Boundary(text, |text|)
  {
    assert IsUtf8(text, |text|, []);
  }

  /** No byte of a wide character is ASCII. */
  lemma {:induction false} WideBytesAreNotAscii(text: Text, i: nat, s: bv32, k: nat)
    requires HasCharacter(text, i, Wide(s)) && k < |Encode(s)|
    ensures i + k < |text| && !IsAscii(text[i + k])
  {
    hide LeadingOnes, IsAscii, Encode, ByteAt, ByteOf;
    EncodedBytesAreHigh(s, k);
    assert ByteAt(text, i + k) == Encode(s)[k];
    FirstByte(text, i + k);
    HighIsNotAscii(text[i + k]);
  }

  lemma EncodedBytesAreHigh(s: bv32, k: nat)
    requires IsWideScalar(s) && k < |Encode(s)|
    ensures Encode(s)[k] & 0x80 != 0
  {
  }

  lemma HighIsNotAscii(c: char)
    requires ByteOf(c) & 0x80 != 0
    ensures !IsAscii(c)
  {
  }

  /** Where the character at a boundary ends there is a boundary, for an ASCII byte one byte further. */
  lemma {:induction false} NextBoundary(text: Text, i: nat)
    requires i < |text| && Boundary(text, i)
    ensures Boundary(text, CharEnd(text, i))
    ensures IsAscii(text[i]) ==> Boundary(text, i + 1)
  {
    hide HasBytes, CharEnd, Encode, IsWideScalar, IsAscii;
    var cs: seq<Character> :| IsUtf8(text, i, cs);
    Utf8Head(text, i, cs);
    if cs[0].Wide? {
      WideCharacterReads(text, i, cs[0].scalar, []);
    } else {
      AsciiByte(cs[0]);
      AsciiIsOneByte(text, i, []);
    }
  }

  lemma AsciiByte(c: Character)
    requires IsCharacter(c) && c.Ascii?
    ensures IsAscii(c.byte)
  {
  }

  /** Before an ASCII byte behind a boundary there is a boundary. */
  lemma {:induction false} BoundaryBefore(text: Text, i: nat, k: nat, cs: seq<Character>)
    requires IsUtf8(text, i, cs) && i <= k < |text| && IsAscii(text[k])
    ensures Boundary(text, k)
    decreases cs
  {
    hide HasBytes, IsAscii, Encode, IsWideScalar;
    if i < k {
      Utf8Head(text, i, cs);
      if k < i + Size(cs[0]) {
        WideBytesAreNotAscii(text, i, cs[0].scalar, k - i);
      } else {
        BoundaryBefore(text, i + Size(cs[0]), k, cs[1..]);
      }
    }
  }

  /** A place behind a boundary is one if it is the end of the text or before an ASCII byte. */
  lemma BoundaryAt(text: Text, i: nat, k: nat)
    requires Boundary(text, i) && i <= k <= |text| && (k < |text| ==> IsAscii(text[k]))
    ensures Boundary(text, k)
  {
    hide IsUtf8, IsAscii;
    if k == |text| {
      EndIsBoundary(text);
    } else {
      var cs: seq<Character> :| IsUtf8(text, i, cs);
      BoundaryBefore(text, i, k, cs);
    }
  }

  /** A place behind an ASCII byte that is behind a boundary is one. */
  lemma BoundaryBehind(text: Text, i: nat, k: nat)
    requires Boundary(text, i) && i < k <= |text| && IsAscii(text[k - 1])
    ensures Boundary(text, k)
  {
    hide Boundary, IsAscii, CharEnd;
    BoundaryAt(text, i, k - 1);
    NextBoundary(text, k - 1);
  }

  // ---------------------------------------------------------------- steps end at boundaries

  lemma {:induction false} WordBoundary(text: Text, i: nat, config: Config)
    requires i <= |text| && Boundary(text, i)
    ensures Boundary(text, WordEnd(text, i, config))
    decreases |text| - i
  {
    hide Boundary, CharIn, CharEnd;
    if At(text, i) != '\0' {
      NextBoundary(text, i);
      if IsAsciiIdentifierChar(text[i]) {
        WordBoundary(text, i + 1, config);
      } else if !IsAscii(text[i]) {
        WordBoundary(text, CharEnd(text, i), config);
      }
    }
  }

  lemma {:induction false} DigitsEndInAscii(text: Text, i: nat, hexadecimal: bool)
    requires i <= |text|
    ensures var end := DigitsEnd(text, i, hexadecimal);
            end > i ==> IsAscii(text[end - 1])
    decreases |text| - i
  {
    var k := SkipWhitespace(text, i);
    if k < |text| && IsDigit(text[k], hexadecimal) {
      DigitsEndInAscii(text, k + 1, hexadecimal);
    }
  }

  lemma DigitsBoundary(text: Text, i: nat, j: nat, hexadecimal: bool)
    requires i < j <= |text| && Boundary(text, i) && IsAscii(text[j - 1])
    ensures Boundary(text, SkipWhitespace(text, DigitsEnd(text, j, hexadecimal)))
  {
    hide Boundary, DigitsEnd, IsWhitespace, IsAscii;
    DigitsEndInAscii(text, j, hexadecimal);
    var end := DigitsEnd(text, j, hexadecimal);
    var next := SkipWhitespace(text, end);
    if next > end {
      WhitespaceIsAscii(text[next - 1]);
    }
    hide SkipWhitespace;
    BoundaryBehind(text, i, next);
  }

  lemma WhitespaceIsAscii(c: char)
    requires IsWhitespace(c)
    ensures IsAscii(c)
  {
  }

  lemma PrefixedBoundary(text: Text, i: nat, kind: TokenKind, hexadecimal: bool)
    requires i + 1 < |text| && Boundary(text, i) && IsAscii(text[i + 1])
    ensures Boundary(text, ScanPrefixed(text, i, kind, hexadecimal).next)
  {
    hide Boundary, DigitsEnd, SkipWhitespace, IsAscii;
    DigitsBoundary(text, i, i + 2, hexadecimal);
  }

  lemma DecimalBoundary(text: Text, i: nat)
    requires i < |text| && Boundary(text, i) && IsAscii(text[i])
    ensures Boundary(text, ScanDecimal(text, i).next)
  {
    hide Boundary, DigitsEnd, SkipWhitespace, IsAscii;
    DigitsBoundary(text, i, i + 1, false);
    var dot := SkipWhitespace(text, DigitsEnd(text, i + 1, false));
    if At(text, dot) == '.' {
      SignsAreAscii('.');
      DigitsBoundary(text, i, dot + 1, false);
    }
  }

  /** What stands in front of the digits of a number is ASCII. */
  lemma SignsAreAscii(c: char)
    requires c in {'x', 'b', 'o', '.'} || IsDecimalDigit(c)
    ensures IsAscii(c)
  {
  }

  lemma NumberBoundary(text: Text, i: nat)
    requires i < |text| && Boundary(text, i) && IsDecimalDigit(text[i])
    ensures Boundary(text, ScanNumber(text, i).next)
  {
    hide Boundary, ScanPrefixed, ScanDecimal, IsAscii;
    if text[i] == '0' && At(text, i + 1) == 'x' {
      SignsAreAscii('x');
      PrefixedBoundary(text, i, HexIntLiteral, true);
    } else if text[i] == '0' && At(text, i + 1) == 'b' {
      SignsAreAscii('b');
      PrefixedBoundary(text, i, BinIntLiteral, false);
    } else if text[i] == '0' && At(text, i + 1) == 'o' {
      SignsAreAscii('o');
      PrefixedBoundary(text, i, OctIntLiteral, false);
    } else {
      SignsAreAscii(text[i]);
      DecimalBoundary(text, i);
    }
  }

  lemma OperatorBoundary(text: Text, i: nat)
    requires i < |text| && Boundary(text, i) && OneChar(text[i]) != EndOfFile
    ensures OperatorEnd(text, i) <= |text| && Boundary(text, OperatorEnd(text, i))
  {
    hide Boundary, OneChar, TwoChars, ThreeChars;
    var a, b, c := text[i], At(text, i + 1), At(text, i + 2);
    OperatorsAreShort(text, i);
    if !IsAscii(a) {
      OperatorsAreAscii(a);
    }
    SecondIsAscii(a, b);
    ThirdIsAscii(a, b, c);
    BoundaryBehind(text, i, OperatorEnd(text, i));
  }

  lemma SecondIsAscii(a: char, b: char)
    ensures TwoChars(a, b) != EndOfFile ==> IsAscii(b)
  {
  }

  lemma ThirdIsAscii(a: char, b: char, c: char)
    ensures ThreeChars(a, b, c) != EndOfFile ==> IsAscii(c)
  {
  }

  lemma {:induction false} CommentEndsInSlash(text: Text, i: nat, depth: nat)
    requires i <= |text| && depth > 0
    ensures var closing := CommentEnd(text, i, depth);
            closing.ClosedAt? ==> i < closing.end <= |text| && text[closing.end - 1] == '/'
    decreases |text| - i
  {
    if i >= |text| {
    } else if text[i] == '*' && At(text, i + 1) == '/' {
      if depth > 1 {
        CommentEndsInSlash(text, i + 2, depth - 1);
      }
    } else if text[i] == '/' && At(text, i + 1) == '*' {
      CommentEndsInSlash(text, i + 2, depth + 1);
    } else {
      CommentEndsInSlash(text, i + 1, depth);
    }
  }

  lemma CommentBoundary(text: Text, i: nat, config: Config)
    requires i < |text| && Boundary(text, i) && StartsComment(text, i)
    ensures Boundary(text, ScanComment(text, i, config).next)
  {
    hide Boundary, LineEnd, CommentEnd, Masked;
    CommentEndsInSlash(text, i + 2, 1);
    LexicalLaws.LineEndsFirst(text, i + 2);
    EndIsBoundary(text);
    var closing := CommentEnd(text, i + 2, 1);
    if text[i + 1] == '/' {
      BoundaryAt(text, i, LineEnd(text, i + 2));
    } else if closing.ClosedAt? {
      BoundaryBehind(text, i, closing.end);
    }
  }

  lemma QuoteBoundary(text: Text, i: nat)
    requires i < |text| && Boundary(text, i) && IsAscii(text[i])
    ensures Boundary(text, ScanQuote(text, i).next)
  {
    hide Boundary, QuoteEnd, QuoteUnclosed, Masked, Backslashes;
    var k := LexicalLaws.QuoteEndsFirst(text, i, i + 1);
    if LexicalLaws.StopsLine(text, k) {
      BoundaryAt(text, i, k);
    } else {
      BoundaryBehind(text, i, k + 1);
    }
  }

  /** Every step from a character boundary ends at one. */
  lemma {:induction false} StepBoundary(text: Text, i: nat, config: Config)
    requires i < |text| && Boundary(text, i)
    ensures Boundary(text, Step(text, i, config).next)
  {
    hide Boundary, ScanNumber, ScanComment, ScanQuote, OneChar, OperatorEnd, OperatorTokens, WordEnd, WordReports,
         CharEnd, CharIn, DigitsEnd, SkipWhitespace, Masked, WordToken;
    NextBoundary(text, i);
    var c := text[i];
    if IsWhitespace(c) {
    } else if IsWordStart(c) {
      WordBoundary(text, i + 1, config);
    } else if IsDecimalDigit(c) {
      NumberBoundary(text, i);
    } else if c == '.' {
      DigitsBoundary(text, i, i + 1, false);
    } else if StartsComment(text, i) {
      CommentBoundary(text, i, config);
    } else if c == '"' || c == '\'' {
      QuoteBoundary(text, i);
    } else if IsOperatorStart(c) {
      OperatorBoundary(text, i);
    } else {
      WordBoundary(text, CharEnd(text, i), config);
    }
  }

  // ---------------------------------------------------------------- the whole source

  /** The report is that of an invalid character behind the first byte of the token. */
  predicate IsInvalidInside(r: Report, t: Token) {
    r.message == InvalidCharacter && t.offset < r.offset < t.offset + t.length
  }

  ghost predicate NoneInvalidInside(t: Token, reports: seq<Report>) {
    forall r :: r in reports ==> !IsInvalidInside(r, t)
  }

  /** The token is the UTF-8 form of a character that starts an identifier and of the longest run of characters behind
      it that continue one. If a wide character is directly behind them, it is reported and in the token too, and
      otherwise no character in the token is reported. */
  ghost predicate IsIdentifier(t: Token, text: Text, config: Config, reports: seq<Report>,
                               first: Character, word: seq<Character>, rest: seq<Character>) {
    && IsUtf8(text, t.offset, [first] + (word + rest)) && IsCharacter(first) && Starts(first, config)
    && IsLongest(word, rest, config)
    && var size := Size(first) + Sizes(word);
       if rest != [] && rest[0].Wide? then
         && t.length == size + Size(rest[0])
         && Report(InvalidCharacter, t.offset + size) in reports
         && IsInvalidInside(Report(InvalidCharacter, t.offset + size), t)
       else t.length == size && NoneInvalidInside(t, reports)
  }

  ghost predicate ReadsIdentifier(t: Token, text: Text, config: Config, reports: seq<Report>) {
    exists first, word, rest :: IsIdentifier(t, text, config, reports, first, word, rest)
  }

  /** How many of the characters continue an identifier. */
  lemma {:induction false} LongestWord(text: Text, i: nat, cs: seq<Character>, config: Config) returns (n: nat)
    requires IsUtf8(text, i, cs)
    ensures n <= |cs| && IsLongest(cs[..n], cs[n..], config)
    decreases cs
  {
    hide HasBytes, InTable, Encode, IsWideScalar, IsAscii, Size;
    n := 0;
    if cs != [] {
      if Continues(cs[0], config) {
        var m := LongestWord(text, i + Size(cs[0]), cs[1..], config);
        n := m + 1;
        assert forall k :: 0 < k < n ==> cs[..n][k] == cs[1..][..m][k - 1];
        assert cs[n..] == cs[1..][m..];
      }
    }
  }

  lemma {:induction false} StepIdentifiers(text: Text, i: nat, cs: seq<Character>, config: Config)
    requires i < |text| <= SOURCE_SIZE_MAX && IsUtf8(text, i, cs)
    ensures var scan := Step(text, i, config);
            forall t :: t in scan.tokens && t.kind == Identifier ==>
              t.offset + t.length <= scan.next && ReadsIdentifier(t, text, config, scan.reports)
  {
    hide Encode, IsWideScalar, Size, Step, Sizes, IsLongest, Starts, Masked, IsUtf8, HasCharacter, IsInvalidInside,
         NoneInvalidInside, IsIdentifier;
    Utf8Head(text, i, cs);
    var first := cs[0];
    if Starts(first, config) {
      var n := LongestWord(text, i + Size(first), cs[1..], config);
      var word, rest := cs[1..][..n], cs[1..][n..];
      assert cs == [first] + (word + rest);
      IdentifierIsLongest(text, i, first, word, rest, config);
      Tiling.MaskKeeps(i);
      var scan := Step(text, i, config);
      forall t | t in scan.tokens && t.kind == Identifier
        ensures t.offset + t.length <= scan.next && ReadsIdentifier(t, text, config, scan.reports)
      {
        OneIsIdentifier(t, text, config, scan.reports, first, word, rest, i, scan.next);
      }
    } else {
      NoStartNoIdentifier(text, i, first, config);
    }
  }

  lemma OneIsIdentifier(t: Token, text: Text, config: Config, reports: seq<Report>,
                        first: Character, word: seq<Character>, rest: seq<Character>, i: nat, next: nat)
    requires t.offset == i && t.length == next - i
    requires IsUtf8(text, i, [first] + (word + rest)) && IsCharacter(first) && Starts(first, config)
    requires IsLongest(word, rest, config)
    requires var end := i + Size(first) + Sizes(word);
             var reported := rest != [] && rest[0].Wide?;
             && next == (if reported then end + Size(rest[0]) else end)
             && reports == (if reported then [Report(InvalidCharacter, end)] else [])
    ensures IsIdentifier(t, text, config, reports, first, word, rest)
  {
    hide IsUtf8, IsLongest, Starts, IsCharacter;
  }

  lemma MoreReports(t: Token, text: Text, config: Config, some: seq<Report>, all: seq<Report>)
    requires ReadsIdentifier(t, text, config, some)
    requires forall r :: r in some ==> r in all
    requires forall r :: r in all ==> r in some || !IsInvalidInside(r, t)
    ensures ReadsIdentifier(t, text, config, all)
  {
    hide IsUtf8, IsLongest, Starts, Sizes, Size, IsInvalidInside;
    var first, word, rest :| IsIdentifier(t, text, config, some, first, word, rest);
    assert IsIdentifier(t, text, config, all, first, word, rest);
  }

  // ---------------------------------------------------------------- where reports and tokens are

  /** Invalid characters are between two offsets. */
  ghost predicate InvalidBetween(reports: seq<Report>, i: nat, j: nat) {
    forall r :: r in reports && r.message == InvalidCharacter ==> i <= r.offset < j
  }

  lemma {:induction false} StepReportsInside(text: Text, i: nat, config: Config)
    requires i < |text| && text[i] != '\0'
    ensures InvalidBetween(Step(text, i, config).reports, i, Step(text, i, config).next)
  {
    hide WordEnd, WordReports, WordToken, CharIn, CharEnd, ScanNumber, ScanDot, OperatorTokens, OperatorEnd, OneChar,
         CommentEnd, LineEnd, QuoteEnd, QuoteUnclosed, Masked;
    LexicalSteps.NumberReports(text, i);
    LexicalReports.WordReportsPlace(text, i + 1, config);
    LexicalReports.WordReportsPlace(text, CharEnd(text, i), config);
  }

  ghost predicate TokensFrom(tokens: seq<Token>, i: nat) {
    forall t :: t in tokens ==> t.offset >= i
  }

  lemma {:induction false} TilesFrom(tokens: seq<Token>, text: Text, i: nat, j: nat)
    requires Tiling.Tiles(tokens, text, i, j)
    ensures TokensFrom(tokens, i)
    decreases tokens
  {
    hide Tiling.Faithful, Tiling.Span;
    if tokens != [] {
      TilesFrom(tokens[1..], text, tokens[0].offset + Tiling.Span(tokens[0]), j);
      assert tokens == [tokens[0]] + tokens[1..];
    }
  }

  /** What is lexed from an offset on is not before it. */
  lemma {:induction false} LexFromIsBehind(text: Text, i: nat, config: Config)
    requires i <= |text| <= SOURCE_SIZE_MAX
    ensures TokensFrom(LexFrom(text, i, config).tokens, i)
    ensures forall r :: r in LexFrom(text, i, config).reports && r.message == InvalidCharacter ==> r.offset >= i
    decreases |text| - i
  {
    hide Step, Masked, Tiling.Tiles;
    if At(text, i) == '\0' {
      Tiling.MaskKeeps(i);
    } else {
      StepAdvances(text, i, config);
      var scan := Step(text, i, config);
      Tiling.EachStepTiles(text, i, config);
      TilesFrom(scan.tokens, text, i, scan.next);
      StepReportsInside(text, i, config);
      LexFromIsBehind(text, scan.next, config);
    }
  }

  lemma {:induction false} LexFromIdentifiers(text: Text, i: nat, config: Config)
    requires i <= |text| <= SOURCE_SIZE_MAX && Boundary(text, i)
    ensures var lexed := LexFrom(text, i, config);
            forall t :: t in lexed.tokens && t.kind == Identifier ==> ReadsIdentifier(t, text, config, lexed.reports)
    decreases |text| - i
  {
    hide Step, IsUtf8, Masked, ReadsIdentifier;
    if At(text, i) != '\0' {
      StepAdvances(text, i, config);
      StepBoundary(text, i, config);
      var scan := Step(text, i, config);
      var rest := LexFrom(text, scan.next, config);
      LexFromIdentifiers(text, scan.next, config);
      LexFromIsBehind(text, scan.next, config);
      StepReportsInside(text, i, config);
      var cs: seq<Character> :| IsUtf8(text, i, cs);
      StepIdentifiers(text, i, cs, config);
      var lexed := LexFrom(text, i, config);
      forall t | t in lexed.tokens && t.kind == Identifier ensures ReadsIdentifier(t, text, config, lexed.reports) {
        if t in scan.tokens {
          MoreReports(t, text, config, scan.reports, lexed.reports);
        } else {
          MoreReports(t, text, config, rest.reports, lexed.reports);
        }
      }
    }
  }

  /** In every well-formed source each identifier is a character that starts one and the longest run of characters
      behind it that continue it; a character in it is reported exactly if a wide one ends the run. */
  lemma {:induction false} IdentifiersOfWellFormedSources(text: Text, cs: seq<Character>, config: Config)
    requires IsUtf8(text, 0, cs)
    ensures var lexed := Lex(text, config);
            forall t :: t in lexed.tokens && t.kind == Identifier ==> ReadsIdentifier(t, text, config, lexed.reports)
  {
    hide LexFrom, ReadsIdentifier, IsUtf8;
    if |text| <= SOURCE_SIZE_MAX {
      LexFromIdentifiers(text, 0, config);
    }
  }
}
