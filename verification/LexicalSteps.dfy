/** What one step of the lexer makes of the text, said by the bytes that stand there. */
module LexicalSteps {
  import opened Tokens
  import opened SourceText
  import opened Unicode
  import opened Keywords
  import opened Lexical
  import opened LexicalLaws
  import Tiling

  // ---------------------------------------------------------------- character classes

  /** The classes of characters, listed. */
  lemma CharacterClasses(c: char)
    ensures IsWhitespace(c) <==> c in " \t\n\U{b}\U{c}\r"
    ensures IsDecimalDigit(c) <==> c in "0123456789"
    ensures IsHexadecimalDigit(c) <==> c in "0123456789abcdefABCDEF"
  {
  }

  lemma IdentifierCharacters(c: char)
    ensures IsWordStart(c) <==> 'a' <= c <= 'z' || 'A' <= c <= 'Z' || c == '_'
    ensures IsAsciiIdentifierChar(c) <==> 'a' <= c <= 'z' || 'A' <= c <= 'Z' || c == '_' || c in "0123456789"
  {
  }

  lemma WhitespaceIsPassed(text: Text, i: nat, config: Config)
    requires i < |text| && text[i] in " \t\n\U{b}\U{c}\r"
    ensures Step(text, i, config) == Scan(i + 1, [], [])
  {
    hide ScanWord, ScanNumber, ScanDot, ScanComment, ScanQuote, ScanOperator, ScanOther;
  }

  // ---------------------------------------------------------------- keywords

  /** A byte of ASCII that is in no identifier. */
  predicate EndsWord(c: char) {
    c < '\U{80}' && !('a' <= c <= 'z' || 'A' <= c <= 'Z' || '0' <= c <= '9' || c == '_')
  }

  lemma {:induction false} LettersAreWord(text: Text, i: nat, n: nat, config: Config)
    requires i + n <= |text| && (forall k :: i <= k < i + n ==> 'a' <= text[k] <= 'z') && EndsWord(At(text, i + n))
    ensures WordEnd(text, i, config) == i + n && WordReports(text, i, config) == []
    decreases n
  {
    hide CharIn, CharEnd;
    if n > 0 {
      LettersAreWord(text, i + 1, n - 1, config);
    }
  }

  lemma WordStep(text: Text, i: nat, config: Config)
    requires i < |text| && IsWordStart(text[i])
    ensures Step(text, i, config) == ScanWord(text, i, config)
  {
    hide ScanWord;
  }

  lemma SmallLetters(text: Text, i: nat, lexeme: string)
    requires HasPrefix(text, i, lexeme) && forall k :: 0 <= k < |lexeme| ==> 'a' <= lexeme[k] <= 'z'
    ensures forall k :: i <= k < i + |lexeme| ==> 'a' <= text[k] <= 'z'
  {
    assert forall k :: i <= k < i + |lexeme| ==> text[k] == text[i..i + |lexeme|][k - i];
  }

  /** A keyword of the language that stands alone becomes one token, which is that keyword. */
  lemma {:induction false} KeywordsAreRead(text: Text, i: nat, kind: TokenKind, config: Config)
    requires IsKeyword(kind) && HasPrefix(text, i, FixedText(kind)) && EndsWord(At(text, i + |FixedText(kind)|))
    ensures i < |text|
    ensures Step(text, i, config) == Scan(i + |FixedText(kind)|, [MakeToken(kind, i, 0)], [])
  {
    hide IsKeyword, FixedText, EndsWord, WordEnd, WordReports, WordKind, MakeToken, Step;
    var n := |FixedText(kind)|;
    KeywordIsShort(kind);
    SmallLetters(text, i, FixedText(kind));
    LettersAreWord(text, i + 1, n - 1, config);
    WordStep(text, i, config);
    KeywordsAreFound(kind, text[i..i + n]);
    KeywordIsNoName(kind);
  }

  // ---------------------------------------------------------------- numbers

  /** Numbers by their prefixes; nothing is ever reported about them. */
  lemma {:induction false} NumbersAreRead(text: Text, i: nat, config: Config)
    requires i < |text| && text[i] in "0123456789"
    ensures var scan, b := Step(text, i, config), At(text, i + 1);
            scan.reports == [] &&
            if text[i] == '0' && b == 'x' then
              scan.tokens == [MakeToken(HexIntLiteral, i, DigitsEnd(text, i + 2, true) - i)]
            else if text[i] == '0' && b == 'b' then
              scan.tokens == [MakeToken(BinIntLiteral, i, DigitsEnd(text, i + 2, false) - i)]
            else if text[i] == '0' && b == 'o' then
              scan.tokens == [MakeToken(OctIntLiteral, i, DigitsEnd(text, i + 2, false) - i)]
            else scan == ScanDecimal(text, i)
  {
    hide DigitsEnd, SkipWhitespace, MakeToken, ScanDecimal;
    DigitStep(text, i, config);
    DecimalReports(text, i);
  }

  lemma NumberReports(text: Text, i: nat)
    requires i < |text|
    ensures ScanNumber(text, i).reports == [] && ScanDot(text, i).reports == []
  {
    hide DigitsEnd, SkipWhitespace, MakeToken;
  }

  lemma DecimalReports(text: Text, i: nat)
    requires i < |text|
    ensures ScanDecimal(text, i).reports == []
  {
    hide DigitsEnd, SkipWhitespace, MakeToken;
  }

  lemma DigitStep(text: Text, i: nat, config: Config)
    requires i < |text| && text[i] in "0123456789"
    ensures Step(text, i, config) == ScanNumber(text, i)
  {
    hide ScanNumber;
  }

  /** A decimal literal that no dot follows, even behind whitespace. */
  lemma IntegersAreDecimal(text: Text, i: nat)
    requires i < |text| && At(text, SkipWhitespace(text, DigitsEnd(text, i + 1, false))) != '.'
    ensures ScanDecimal(text, i).tokens == [MakeToken(DecIntLiteral, i, DigitsEnd(text, i + 1, false) - i)]
  {
    hide DigitsEnd, SkipWhitespace, MakeToken;
  }

  /** A dot is the beginning of a float exactly if a digit follows, even behind whitespace. */
  lemma {:induction false} DotsAreRead(text: Text, i: nat, config: Config)
    requires i < |text| && text[i] == '.'
    ensures var scan, k := Step(text, i, config), SkipWhitespace(text, i + 1);
            && scan.reports == []
            && scan.tokens == if !IsDecimalDigit(At(text, k)) then [MakeToken(Dot, i, 0)]
                              else [MakeToken(FloatLiteral, i, DigitsEnd(text, k + 1, false) - i)]
  {
    hide DigitsEnd, SkipWhitespace, MakeToken, IsDecimalDigit;
    DotStep(text, i, config);
    DigitsBehind(text, i + 1);
  }

  lemma DotStep(text: Text, i: nat, config: Config)
    requires i < |text| && text[i] == '.'
    ensures Step(text, i, config) == ScanDot(text, i)
  {
    hide ScanDot;
  }

  // ---------------------------------------------------------------- comments and quotes

  lemma CommentStep(text: Text, i: nat, config: Config)
    requires i < |text| && StartsComment(text, i)
    ensures Step(text, i, config) == ScanComment(text, i, config)
  {
    hide OneChar, ScanWord, ScanNumber, ScanDot, ScanQuote, ScanOperator, ScanOther, ScanComment;
  }

  /** A line comment becomes a token if comments are kept, and nothing is reported. */
  lemma {:induction false} LineCommentsAreRead(text: Text, i: nat, config: Config)
    requires i + 1 < |text| && text[i] == '/' && text[i + 1] == '/'
    ensures var end := LineEnd(text, i + 2);
            Step(text, i, config) == Scan(end, if config.emitComments then [MakeToken(LineComment, i, end - i)] else [], [])
  {
    hide LineEnd, MakeToken, Step;
    CommentStep(text, i, config);
  }

  /** A block comment is reported exactly if no markers close it, at its beginning; then it goes to the end. */
  lemma {:induction false} BlockCommentsAreRead(text: Text, i: nat, config: Config) returns (n: nat)
    requires i + 1 < |text| && text[i] == '/' && text[i + 1] == '*'
    ensures var closed := ClosesWith(Markers(text, i + 2), 1, n);
            var end := if closed then Markers(text, i + 2)[n - 1].end else |text|;
            && i <= end
            && Step(text, i, config) == Scan(end, if config.emitComments then [MakeToken(BlockComment, i, end - i)] else [],
                                             if closed then [] else [Report(UnterminatedBlockComment, i)])
            && (!closed ==> NeverCloses(Markers(text, i + 2), 1))
  {
    hide CommentEnd, MakeToken, Step, Markers, ClosesWith;
    CommentStep(text, i, config);
    n := CommentEndsAtDepthZero(text, i + 2, 1);
  }

  lemma QuoteStep(text: Text, i: nat, config: Config)
    requires i < |text| && (text[i] == '"' || text[i] == '\'')
    ensures Step(text, i, config) == ScanQuote(text, i)
  {
    hide ScanQuote;
  }

  /** A literal is one token up to the first place that stops or closes it. A missing quote is reported there, exactly
      if that is a newline. */
  lemma {:induction false} QuotesAreRead(text: Text, i: nat, config: Config) returns (k: nat)
    requires i < |text| && (text[i] == '"' || text[i] == '\'')
    ensures FirstQuoteStop(text, i, i + 1, k)
    ensures var end := if StopsLine(text, k) then k else k + 1;
            Step(text, i, config)
            == Scan(end, [MakeToken(if text[i] == '"' then StringLiteral else CharLiteral, i, end - i)],
                    if At(text, k) == '\n' then [Report(MissingClosingQuote, k)] else [])
  {
    hide QuoteEnd, QuoteUnclosed, MakeToken, Step, ClosesQuote;
    QuoteStep(text, i, config);
    k := QuoteEndsFirst(text, i, i + 1);
  }

  // ---------------------------------------------------------------- operators

  /** No other operator of the language that stands at `i` is longer. */
  ghost predicate IsLongestLexeme(text: Text, i: nat, kind: TokenKind) {
    && !IsKeyword(kind) && FixedText(kind) != "" && HasPrefix(text, i, FixedText(kind))
    && forall other :: !IsKeyword(other) && HasPrefix(text, i, FixedText(other)) ==> |FixedText(other)| <= |FixedText(kind)|
  }

  lemma OperatorsAreNoKeywords(a: char, b: char, c: char)
    ensures !IsKeyword(TwoChars(a, b)) && !IsKeyword(ThreeChars(a, b, c))
  {
  }

  lemma PrefixAt(text: Text, i: nat, lexeme: string, k: nat)
    requires HasPrefix(text, i, lexeme) && k < |lexeme|
    ensures At(text, i + k) == lexeme[k]
  {
    assert text[i..i + |lexeme|][k] == lexeme[k];
  }

  lemma PrefixOf2(text: Text, i: nat, a: char, b: char)
    requires i + 2 <= |text| && text[i] == a && text[i + 1] == b
    ensures HasPrefix(text, i, [a, b])
  {
  }

  lemma PrefixOf3(text: Text, i: nat, a: char, b: char, c: char)
    requires i + 3 <= |text| && text[i] == a && text[i + 1] == b && text[i + 2] == c
    ensures HasPrefix(text, i, [a, b, c])
  {
  }

  /** Where the longest lexeme is short, no longer operator is found. */
  lemma NothingLonger(text: Text, i: nat, kind: TokenKind)
    requires i < |text| && IsLongestLexeme(text, i, kind)
    ensures |FixedText(kind)| < 3 ==> ThreeChars(text[i], At(text, i + 1), At(text, i + 2)) == EndOfFile
    ensures |FixedText(kind)| < 2 ==> TwoChars(text[i], At(text, i + 1)) == EndOfFile
  {
    hide IsKeyword, FixedText, OneChar, TwoChars, ThreeChars, HasPrefix;
    var a, b, c := text[i], At(text, i + 1), At(text, i + 2);
    OperatorsAreShort(text, i);
    OperatorsAreNoKeywords(a, b, c);
    Tiling.TwoCharsRead(a, b);
    Tiling.ThreeCharsRead(a, b, c);
    if ThreeChars(a, b, c) != EndOfFile {
      PrefixOf3(text, i, a, b, c);
      assert HasPrefix(text, i, FixedText(ThreeChars(a, b, c)));
    }
    if TwoChars(a, b) != EndOfFile {
      PrefixOf2(text, i, a, b);
      assert HasPrefix(text, i, FixedText(TwoChars(a, b)));
    }
  }

  /** What the operator functions make of the longest lexeme. */
  lemma {:induction false} LexemeIsFound(text: Text, i: nat, kind: TokenKind)
    requires i < |text| && IsLongestLexeme(text, i, kind) && kind != Dot
    ensures var n := |FixedText(kind)|;
            && (n == 1 || n == 2 || n == 3) && OneChar(text[i]) != EndOfFile
            && (n == 3 ==> ThreeChars(text[i], At(text, i + 1), At(text, i + 2)) == kind)
            && (n == 2 ==> TwoChars(text[i], At(text, i + 1)) == kind)
            && (n == 1 ==> OneChar(text[i]) == kind)
            && kind != EndOfFile && text[i] == FixedText(kind)[0]
  {
    hide IsKeyword, FixedText, OneChar, TwoChars, ThreeChars, HasPrefix, SignChar, PairText, TripleText;
    var lexeme := FixedText(kind);
    FixedTextsAreShort(kind);
    PrefixAt(text, i, lexeme, 0);
    if |lexeme| == 1 {
      OneCharFinds(kind);
    } else {
      PrefixAt(text, i, lexeme, 1);
      if |lexeme| == 2 {
        TwoCharsFind(kind);
      } else {
        PrefixAt(text, i, lexeme, 2);
        ThreeCharsFind(kind);
      }
    }
    FirstSigns(text[i], At(text, i + 1), At(text, i + 2));
  }

  /** Longer operators begin with operators. */
  lemma FirstSigns(a: char, b: char, c: char)
    ensures TwoChars(a, b) != EndOfFile || ThreeChars(a, b, c) != EndOfFile ==> OneChar(a) != EndOfFile
  {
  }

  lemma SignStep(text: Text, i: nat, config: Config)
    requires i < |text| && OneChar(text[i]) != EndOfFile && !StartsComment(text, i)
    ensures Step(text, i, config) == ScanOperator(text, i)
  {
    hide OneChar, ScanWord, ScanNumber, ScanDot, ScanComment, ScanQuote, ScanOperator, ScanOther;
    SignsAreSigns(text[i]);
  }

  lemma SignsAreSigns(c: char)
    requires OneChar(c) != EndOfFile
    ensures c != '.' && c != '"' && c != '\'' && !IsWhitespace(c) && !IsWordStart(c) && !IsDecimalDigit(c)
  {
  }

  /** The longest lexeme of the language that stands somewhere is the operator that is read there, except that `>>` is
      read as two tokens, and that a dot and the beginning of a comment have their own rules. */
  lemma {:induction false} LexemesAreRead(text: Text, i: nat, kind: TokenKind, config: Config)
    requires i < |text| && IsLongestLexeme(text, i, kind) && kind != Dot
    requires !(text[i] == '/' && At(text, i + 1) in "/*")
    ensures var shift := kind == RAngle && At(text, i + 1) == '>';
            Step(text, i, config)
            == if shift then Scan(i + 2, [MakeToken(RAngle, i, 0), MakeToken(RAngle, i + 1, 0)], [])
               else Scan(i + |FixedText(kind)|, [MakeToken(kind, i, 0)], [])
  {
    hide IsKeyword, FixedText, OneChar, TwoChars, ThreeChars, HasPrefix, MakeToken, Step, IsLongestLexeme;
    LexemeIsFound(text, i, kind);
    NothingLonger(text, i, kind);
    SignStep(text, i, config);
    AngleIsRead();
    AnglesAreNoOperator();
  }

  lemma AngleIsRead()
    ensures OneChar('>') == RAngle && FixedText(RAngle) == ">"
  {
  }

  lemma AnglesAreNoOperator()
    ensures TwoChars('>', '>') == EndOfFile
    ensures forall a, b :: TwoChars(a, b) != RAngle
  {
  }

  // ---------------------------------------------------------------- what is no token

  /** Bytes that begin nothing: some of ASCII, and those outside it that begin no character of UTF-8. */
  predicate IsStray(c: char) {
    || c in "#$?@\\`" || ('\U{1}' <= c <= '\U{8}') || ('\U{e}' <= c <= '\U{1f}') || c == '\U{7f}'
    || ('\U{80}' <= c <= '\U{bf}') || ('\U{f8}' <= c <= '\U{ff}')
  }

  lemma StrayIsNothing(c: char)
    requires IsStray(c)
    ensures c != '.' && c != '"' && c != '\'' && c != '/' && c != '\0'
    ensures !IsWhitespace(c) && !IsWordStart(c) && !IsDecimalDigit(c) && OneChar(c) == EndOfFile
  {
  }

  lemma StrayLeads(c: char)
    requires IsStray(c)
    ensures !(2 <= LeadingOnes(ByteOf(c)) <= 4)
  {
    StrayByte(c as int as bv32);
  }

  lemma StrayByte(b: bv32)
    requires b < 0x80 || 0x80 <= b <= 0xbf || 0xf8 <= b <= 0xff
    ensures !(2 <= LeadingOnes(b) <= 4)
  {
  }

  lemma AsciiLeads(c: char)
    requires IsAscii(c)
    ensures !(2 <= LeadingOnes(ByteOf(c)) <= 4)
  {
    StrayByte(c as int as bv32);
  }

  lemma OtherStep(text: Text, i: nat, config: Config)
    requires i < |text| && IsStray(text[i])
    ensures Step(text, i, config) == ScanOther(text, i, config)
  {
    hide IsStray, OneChar, ScanWord, ScanNumber, ScanDot, ScanComment, ScanQuote, ScanOperator, ScanOther;
    StrayIsNothing(text[i]);
  }

  /** A stray byte is passed alone and reported. */
  lemma {:induction false} StrayBytesAreReported(text: Text, i: nat, config: Config)
    requires i < |text| && IsStray(text[i])
    ensures Step(text, i, config) == Scan(i + 1, [], [Report(InvalidCharacter, i)])
  {
    hide IsStray, Step, LeadingOnes, ScalarOf, Packed, InTable, WordEnd, WordReports;
    StrayLeads(text[i]);
    OtherStep(text, i, config);
  }

  /** How many bytes the first byte of a character announces. */
  function AnnouncedLength(c: char): nat {
    if '\U{c0}' <= c <= '\U{df}' then 2
    else if '\U{e0}' <= c <= '\U{ef}' then 3
    else if '\U{f0}' <= c <= '\U{f7}' then 4
    else 1
  }

  lemma LeadsTwo(b: bv32)
    requires 0xc0 <= b <= 0xdf
    ensures LeadingOnes(b) == 2
  {
  }

  lemma TwoAnnounced(c: char)
    requires '\U{c0}' <= c <= '\U{df}'
    ensures LeadingOnes(ByteOf(c)) == 2
  {
    hide LeadingOnes;
    LeadsTwo(c as int as bv32);
  }

  lemma LeadsThree(b: bv32)
    requires 0xe0 <= b <= 0xef
    ensures LeadingOnes(b) == 3
  {
  }

  lemma ThreeAnnounced(c: char)
    requires '\U{e0}' <= c <= '\U{ef}'
    ensures LeadingOnes(ByteOf(c)) == 3
  {
    hide LeadingOnes;
    LeadsThree(c as int as bv32);
  }

  lemma LeadsFour(b: bv32)
    requires 0xf0 <= b <= 0xf7
    ensures LeadingOnes(b) == 4
  {
  }

  lemma FourAnnounced(c: char)
    requires '\U{f0}' <= c <= '\U{f7}'
    ensures LeadingOnes(ByteOf(c)) == 4
  {
    hide LeadingOnes;
    LeadsFour(c as int as bv32);
  }

  lemma ByteLeads(c: char)
    requires c as int < 256
    ensures AnnouncedLength(c) == if 2 <= LeadingOnes(ByteOf(c)) <= 4 then LeadingOnes(ByteOf(c)) else 1
  {
    hide LeadingOnes, ByteOf;
    if '\U{c0}' <= c <= '\U{df}' {
      TwoAnnounced(c);
    } else if '\U{e0}' <= c <= '\U{ef}' {
      ThreeAnnounced(c);
    } else if '\U{f0}' <= c <= '\U{f7}' {
      FourAnnounced(c);
    } else if IsAscii(c) {
      AsciiLeads(c);
    } else {
      StrayLeads(c);
    }
  }

  lemma CharacterLength(text: Text, i: nat)
    requires i < |text| && text[i] as int < 256
    ensures var n := AnnouncedLength(text[i]); CharEnd(text, i) == if i + n <= |text| then i + n else |text|
  {
    hide LeadingOnes, AnnouncedLength, ByteOf;
    ByteLeads(text[i]);
  }

  lemma WideStep(text: Text, i: nat, config: Config)
    requires i < |text| && !IsAscii(text[i])
    ensures Step(text, i, config) == ScanOther(text, i, config)
  {
    hide OneChar, ScanWord, ScanNumber, ScanDot, ScanComment, ScanQuote, ScanOther;
    WideIsNoSign(text[i]);
  }

  lemma WideIsNoSign(c: char)
    requires !IsAscii(c)
    ensures OneChar(c) == EndOfFile
  {
  }

  /** A byte outside ASCII that begins no identifier is passed with all bytes that it announces, as far as the text
      goes, and reported. */
  lemma {:induction false} WideCharactersAreReported(text: Text, i: nat, config: Config)
    requires i < |text| && '\U{80}' <= text[i] && text[i] as int < 256 && !CharIn(text, i, config.start)
    ensures var n := AnnouncedLength(text[i]);
            Step(text, i, config) == Scan(if i + n <= |text| then i + n else |text|, [], [Report(InvalidCharacter, i)])
  {
    hide Step, CharEnd, CharIn, AnnouncedLength, WordEnd, WordReports, MakeToken;
    CharacterLength(text, i);
    WideStep(text, i, config);
  }

  // ---------------------------------------------------------------- how tokens begin

  /** How a token of variable length begins. */
  predicate BeginsAs(kind: TokenKind, text: Text, i: nat) {
    var a, b := At(text, i), At(text, i + 1);
    match kind
    case HexIntLiteral => a == '0' && b == 'x'
    case BinIntLiteral => a == '0' && b == 'b'
    case OctIntLiteral => a == '0' && b == 'o'
    case DecIntLiteral => a in "0123456789" && (a != '0' || b !in "xbo")
    case FloatLiteral => a in ".0123456789" && (a != '0' || b !in "xbo")
    case CharLiteral => a == '\''
    case StringLiteral => a == '"'
    case LineComment => a == '/' && b == '/'
    case BlockComment => a == '/' && b == '*'
    case Identifier => 'a' <= a <= 'z' || 'A' <= a <= 'Z' || a == '_' || !IsAscii(a)
    case _ => true
  }

  ghost predicate AllBegin(tokens: seq<Token>, text: Text) {
    forall k :: 0 <= k < |tokens| ==> BeginsAs(tokens[k].kind, text, tokens[k].offset)
  }

  lemma WordIsKeyword(word: Text)
    ensures WordKind(word) != Identifier ==> IsKeyword(WordKind(word))
  {
    hide FixedText, KEYWORDS, IsKeyword;
    MatchReads(word, 0);
  }

  lemma WordBegins(text: Text, i: nat, config: Config)
    requires i < |text| <= SOURCE_SIZE_MAX && IsWordStart(text[i])
    ensures AllBegin(ScanWord(text, i, config).tokens, text)
  {
    hide WordEnd, WordReports, WordKind, IsKeyword, Masked;
    var end := WordEnd(text, i + 1, config);
    Tiling.MaskKeeps(i);
    WordIsKeyword(text[i..end]);
    if WordKind(text[i..end]) != Identifier {
      KeywordsBegin(WordKind(text[i..end]), text, i);
    }
  }

  lemma KeywordsBegin(kind: TokenKind, text: Text, i: nat)
    requires IsKeyword(kind)
    ensures BeginsAs(kind, text, i)
  {
  }

  lemma DecimalBegins(text: Text, i: nat)
    requires i < |text| <= SOURCE_SIZE_MAX && text[i] in "0123456789" && (text[i] != '0' || At(text, i + 1) !in "xbo")
    ensures AllBegin(ScanDecimal(text, i).tokens, text)
  {
    hide DigitsEnd, SkipWhitespace, Masked;
    Tiling.MaskKeeps(i);
  }

  lemma NumberBegins(text: Text, i: nat)
    requires i < |text| <= SOURCE_SIZE_MAX && text[i] in "0123456789"
    ensures AllBegin(ScanNumber(text, i).tokens, text)
  {
    hide DigitsEnd, SkipWhitespace, Masked, ScanDecimal;
    Tiling.MaskKeeps(i);
    if text[i] != '0' || At(text, i + 1) !in "xbo" {
      DecimalBegins(text, i);
    }
  }

  lemma DotBegins(text: Text, i: nat)
    requires i < |text| <= SOURCE_SIZE_MAX && text[i] == '.'
    ensures AllBegin(ScanDot(text, i).tokens, text)
  {
    hide DigitsEnd, SkipWhitespace, Masked;
    Tiling.MaskKeeps(i);
  }

  lemma CommentBegins(text: Text, i: nat, config: Config)
    requires i < |text| <= SOURCE_SIZE_MAX && StartsComment(text, i)
    ensures AllBegin(ScanComment(text, i, config).tokens, text)
  {
    hide LineEnd, CommentEnd, Masked;
    Tiling.MaskKeeps(i);
  }

  lemma QuoteBegins(text: Text, i: nat)
    requires i < |text| <= SOURCE_SIZE_MAX && (text[i] == '"' || text[i] == '\'')
    ensures AllBegin(ScanQuote(text, i).tokens, text)
  {
    hide QuoteEnd, QuoteUnclosed, Masked;
    Tiling.MaskKeeps(i);
  }

  lemma SignsBegin(a: char, b: char, c: char, text: Text, i: nat)
    ensures BeginsAs(OneChar(a), text, i) && BeginsAs(TwoChars(a, b), text, i) && BeginsAs(ThreeChars(a, b, c), text, i)
  {
  }

  lemma OperatorBegins(text: Text, i: nat)
    requires i < |text|
    ensures AllBegin(ScanOperator(text, i).tokens, text)
  {
    hide OneChar, TwoChars, ThreeChars, Masked, OperatorEnd;
    SignsBegin(text[i], At(text, i + 1), At(text, i + 2), text, Masked(i));
  }

  lemma WideBegins(text: Text, i: nat, config: Config)
    requires i < |text| <= SOURCE_SIZE_MAX
    ensures IsAscii(text[i]) || AllBegin(ScanOther(text, i, config).tokens, text)
  {
    hide WordEnd, WordReports, CharEnd, CharIn, Masked;
    Tiling.MaskKeeps(i);
  }

  /** What is left of ASCII begins no token. */
  lemma NothingBegins(text: Text, i: nat, config: Config)
    requires i < |text| && IsAscii(text[i])
    ensures ScanOther(text, i, config).tokens == []
  {
    hide WordEnd, WordReports, CharEnd, ScalarOf, InTable, LeadingOnes;
    AsciiLeads(text[i]);
  }

  lemma {:induction false} StepBegins(text: Text, i: nat, config: Config)
    requires i < |text| <= SOURCE_SIZE_MAX
    ensures AllBegin(Step(text, i, config).tokens, text)
  {
    hide ScanWord, ScanNumber, ScanDot, ScanComment, ScanQuote, ScanOperator, ScanOther, BeginsAs, IsWhitespace,
         IsWordStart, IsOperatorStart, IsAscii;
    OperatorBegins(text, i);
    WideBegins(text, i, config);
    if IsWordStart(text[i]) {
      WordBegins(text, i, config);
    } else if IsDecimalDigit(text[i]) {
      NumberBegins(text, i);
    } else if text[i] == '.' {
      DotBegins(text, i);
    } else if StartsComment(text, i) {
      CommentBegins(text, i, config);
    } else if text[i] == '"' || text[i] == '\'' {
      QuoteBegins(text, i);
    } else if IsAscii(text[i]) {
      NothingBegins(text, i, config);
    }
  }

  lemma {:induction false} LexFromBegins(text: Text, i: nat, config: Config)
    requires i <= |text| <= SOURCE_SIZE_MAX
    ensures AllBegin(LexFrom(text, i, config).tokens, text)
    decreases |text| - i
  {
    hide Step, BeginsAs, Masked;
    EndBegins(text, Masked(i));
    if At(text, i) != '\0' {
      StepAdvances(text, i, config);
      StepBegins(text, i, config);
      LexFromBegins(text, Step(text, i, config).next, config);
    }
  }

  lemma EndBegins(text: Text, i: nat)
    ensures BeginsAs(EndOfFile, text, i)
  {
  }

  /** Every token of variable length begins as its kind says. */
  lemma {:induction false} TokensBeginAsTheirKinds(text: Text, config: Config)
    ensures AllBegin(Lex(text, config).tokens, text)
  {
    hide LexFrom, BeginsAs, Masked;
    EndBegins(text, Masked(0));
    if |text| <= SOURCE_SIZE_MAX {
      LexFromBegins(text, 0, config);
    }
  }
}
