/** What the lexer of cero/syntax/lexer.cc makes of a source text, said without a cursor: where words, numbers,
    operators, comments and quotes end, and which tokens they become. */
module Lexical {
  import opened Tokens
  import opened SourceText
  import opened Unicode
  import opened Keywords

  datatype Message = SourceFileTooLarge | InvalidCharacter | MissingClosingQuote | UnterminatedBlockComment

  datatype Report = Report(message: Message, offset: nat)

  /** The tables for first and further characters of identifiers, and whether comments become tokens. */
  datatype Config = Config(start: seq<Range>, continuation: seq<Range>, emitComments: bool)

  /** Where the cursor goes, and the tokens and reports that are added on the way. */
  datatype Scan = Scan(next: nat, tokens: seq<Token>, reports: seq<Report>)

  /** The lower 24 bits. */
  function Masked(offset: nat): Offset {
    offset % SOURCE_SIZE_LIMIT
  }

  function MakeToken(kind: TokenKind, offset: nat, length: nat): Token {
    Token(kind, Masked(offset), length)
  }

  // ---------------------------------------------------------------- multi-byte characters

  function ByteOf(c: char): bv32 {
    c as int as bv32
  }

  function ByteAt(text: Text, i: nat): bv32 {
    ByteOf(At(text, i))
  }

  function Min(a: nat, b: nat): nat {
    if a <= b then a else b
  }

  /** The end of a multi-byte character, and its bytes packed into a word; behind the end of the text there are NULs. */
  function CharEnd(text: Text, i: nat): (end: nat)
    requires i < |text|
    ensures i < end <= |text|
  {
    var n := LeadingOnes(ByteAt(text, i));
    if 2 <= n <= 4 then Min(i + n, |text|) else i + 1
  }

  function Packed(text: Text, i: nat): bv32 {
    var n := LeadingOnes(ByteAt(text, i));
    if n == 2 then Pack2(ByteAt(text, i), ByteAt(text, i + 1))
    else if n == 3 then Pack3(ByteAt(text, i), ByteAt(text, i + 1), ByteAt(text, i + 2))
    else if n == 4 then Pack4(ByteAt(text, i), ByteAt(text, i + 1), ByteAt(text, i + 2), ByteAt(text, i + 3))
    else ByteAt(text, i)
  }

  /** Whether the character at `i` has two to four bytes and is in the table. */
  predicate CharIn(text: Text, i: nat, table: seq<Range>) {
    2 <= LeadingOnes(ByteAt(text, i)) <= 4 && InTable(table, ScalarOf(Packed(text, i)) as nat)
  }

  // ---------------------------------------------------------------- words

  /** The end of a word: behind the last identifier character, or behind an invalid character that ends it. */
  function WordEnd(text: Text, i: nat, config: Config): (end: nat)
    requires i <= |text|
    ensures i <= end <= |text|
    decreases |text| - i
  {
    if At(text, i) == '\0' then i
    else if IsAsciiIdentifierChar(text[i]) then WordEnd(text, i + 1, config)
    else if IsAscii(text[i]) then i
    else if CharIn(text, i, config.continuation) then WordEnd(text, CharEnd(text, i), config)
    else CharEnd(text, i)
  }

  function WordReports(text: Text, i: nat, config: Config): seq<Report>
    requires i <= |text|
    decreases |text| - i
  {
    if At(text, i) == '\0' then []
    else if IsAsciiIdentifierChar(text[i]) then WordReports(text, i + 1, config)
    else if IsAscii(text[i]) then []
    else if CharIn(text, i, config.continuation) then WordReports(text, CharEnd(text, i), config)
    else [Report(InvalidCharacter, i)]
  }

  // ---------------------------------------------------------------- keywords

  function WordToken(text: Text, i: nat, end: nat): Token
    requires i <= end <= |text|
  {
    var kind := WordKind(text[i..end]);
    MakeToken(kind, i, if kind == Identifier then end - i else 0)
  }

  function ScanWord(text: Text, i: nat, config: Config): Scan
    requires i < |text|
  {
    var end := WordEnd(text, i + 1, config);
    Scan(end, [WordToken(text, i, end)], WordReports(text, i + 1, config))
  }

  /** A character outside all other classes: the first of an identifier, or invalid. */
  function ScanOther(text: Text, i: nat, config: Config): Scan
    requires i < |text|
  {
    var start := CharEnd(text, i);
    if CharIn(text, i, config.start) then
      var end := WordEnd(text, start, config);
      Scan(end, [MakeToken(Identifier, i, end - i)], WordReports(text, start, config))
    else
      Scan(start, [], [Report(InvalidCharacter, i)])
  }

  // ---------------------------------------------------------------- numbers

  predicate IsDigit(c: char, hexadecimal: bool) {
    if hexadecimal then IsHexadecimalDigit(c) else IsDecimalDigit(c)
  }

  function SkipWhitespace(text: Text, i: nat): (end: nat)
    requires i <= |text|
    ensures i <= end <= |text|
    ensures end < |text| ==> !IsWhitespace(text[end])
    ensures forall k :: i <= k < end ==> IsWhitespace(text[k])
    decreases |text| - i
  {
    if i < |text| && IsWhitespace(text[i]) then SkipWhitespace(text, i + 1) else i
  }

  /** The end of the longest run of digits with any whitespace before each digit. */
  function DigitsEnd(text: Text, i: nat, hexadecimal: bool): (end: nat)
    requires i <= |text|
    ensures i <= end <= |text|
    decreases |text| - i
  {
    var j := SkipWhitespace(text, i);
    if j < |text| && IsDigit(text[j], hexadecimal) then DigitsEnd(text, j + 1, hexadecimal) else i
  }

  function ScanPrefixed(text: Text, i: nat, kind: TokenKind, hexadecimal: bool): Scan
    requires i + 2 <= |text|
  {
    var end := DigitsEnd(text, i + 2, hexadecimal);
    Scan(SkipWhitespace(text, end), [MakeToken(kind, i, end - i)], [])
  }

  /** A decimal literal, a float literal, or a decimal literal and a dot. */
  function ScanDecimal(text: Text, i: nat): Scan
    requires i < |text|
  {
    var end := DigitsEnd(text, i + 1, false);
    var dot := SkipWhitespace(text, end);
    if At(text, dot) == '.' then
      var fraction := DigitsEnd(text, dot + 1, false);
      var next := SkipWhitespace(text, fraction);
      if fraction > dot + 1 then Scan(next, [MakeToken(FloatLiteral, i, fraction - i)], [])
      else Scan(next, [MakeToken(DecIntLiteral, i, end - i), MakeToken(Dot, dot, 0)], [])
    else
      Scan(dot, [MakeToken(DecIntLiteral, i, end - i)], [])
  }

  function ScanNumber(text: Text, i: nat): Scan
    requires i < |text|
  {
    if text[i] == '0' && At(text, i + 1) == 'x' then ScanPrefixed(text, i, HexIntLiteral, true)
    else if text[i] == '0' && At(text, i + 1) == 'b' then ScanPrefixed(text, i, BinIntLiteral, false)
    else if text[i] == '0' && At(text, i + 1) == 'o' then ScanPrefixed(text, i, OctIntLiteral, false)
    else ScanDecimal(text, i)
  }

  function ScanDot(text: Text, i: nat): Scan
    requires i < |text|
  {
    var end := DigitsEnd(text, i + 1, false);
    Scan(SkipWhitespace(text, end),
         [if end > i + 1 then MakeToken(FloatLiteral, i, end - i) else MakeToken(Dot, i, 0)], [])
  }

  // ---------------------------------------------------------------- operators

  function OneChar(a: char): TokenKind {
    if a == '(' then LParen else if a == ')' then RParen else if a == '[' then LBracket else if a == ']' then RBracket
    else if a == '{' then LBrace else if a == '}' then RBrace else if a == ',' then Comma else if a == ';' then Semicolon
    else if a == '^' then Caret else if a == '<' then LAngle else if a == '>' then RAngle else if a == ':' then Colon
    else if a == '=' then Eq else if a == '+' then Plus else if a == '-' then Minus else if a == '*' then Star
    else if a == '/' then Slash else if a == '%' then Percent else if a == '&' then Ampersand else if a == '|' then Pipe
    else if a == '~' then Tilde else if a == '!' then Bang else EndOfFile
  }

  /** `EndOfFile` stands for no operator. */
  function TwoChars(a: char, b: char): TokenKind {
    if b == '=' then
      if a == '=' then EqEq else if a == '!' then BangEq else if a == '<' then LAngleEq else if a == '>' then RAngleEq
      else if a == '+' then PlusEq else if a == '-' then MinusEq else if a == '*' then StarEq else if a == '/' then SlashEq
      else if a == '%' then PercentEq else if a == '&' then AmpersandEq else if a == '|' then PipeEq
      else if a == '~' then TildeEq else EndOfFile
    else if a == '-' && b == '>' then ThinArrow
    else if a == '=' && b == '>' then ThickArrow
    else if a != b then EndOfFile
    else if a == ':' then ColonColon else if a == '+' then PlusPlus else if a == '-' then MinusMinus
    else if a == '<' then LAngleAngle else if a == '&' then AndAnd else if a == '|' then PipePipe else EndOfFile
  }

  function ThreeChars(a: char, b: char, c: char): TokenKind {
    if a != b || c != '=' then EndOfFile
    else if a == '<' then LAngleAngleEq else if a == '>' then RAngleAngleEq
    else if a == '&' then AndAndEq else if a == '|' then PipePipeEq else EndOfFile
  }

  predicate IsOperatorStart(c: char) {
    OneChar(c) != EndOfFile
  }

  /** The longest operator at `i`; only `>>` is two tokens. */
  function OperatorTokens(text: Text, i: nat): seq<Token>
    requires i < |text|
  {
    var a, b, c := text[i], At(text, i + 1), At(text, i + 2);
    if ThreeChars(a, b, c) != EndOfFile then [MakeToken(ThreeChars(a, b, c), i, 0)]
    else if a == '>' && b == '>' then [MakeToken(RAngle, i, 0), MakeToken(RAngle, i + 1, 0)]
    else if TwoChars(a, b) != EndOfFile then [MakeToken(TwoChars(a, b), i, 0)]
    else [MakeToken(OneChar(a), i, 0)]
  }

  function OperatorEnd(text: Text, i: nat): (end: nat)
    requires i < |text|
    ensures i < end
  {
    var a, b, c := text[i], At(text, i + 1), At(text, i + 2);
    if ThreeChars(a, b, c) != EndOfFile then i + 3
    else if (a == '>' && b == '>') || TwoChars(a, b) != EndOfFile then i + 2
    else i + 1
  }

  /** No operator reaches behind the end of the text. */
  lemma OperatorsAreShort(text: Text, i: nat)
    requires i < |text|
    ensures TwoChars(text[i], At(text, i + 1)) != EndOfFile ==> i + 2 <= |text|
    ensures ThreeChars(text[i], At(text, i + 1), At(text, i + 2)) != EndOfFile ==> i + 3 <= |text|
    ensures At(text, i + 1) == '>' ==> i + 2 <= |text|
  {
  }

  function ScanOperator(text: Text, i: nat): Scan
    requires i < |text|
  {
    Scan(OperatorEnd(text, i), OperatorTokens(text, i), [])
  }

  // ---------------------------------------------------------------- comments

  function LineEnd(text: Text, i: nat): (end: nat)
    requires i <= |text|
    ensures i <= end <= |text|
    decreases |text| - i
  {
    if At(text, i) == '\0' || text[i] == '\n' then i else LineEnd(text, i + 1)
  }

  datatype Closing = Unclosed | ClosedAt(end: nat)

  /** Reads markers from left to right at nesting depth `depth`: behind the marker that brings the depth to 0. */
  function CommentEnd(text: Text, i: nat, depth: nat): (closing: Closing)
    requires i <= |text| && depth > 0
    ensures closing.ClosedAt? ==> i + 2 * depth <= closing.end <= |text|
    decreases |text| - i
  {
    if i >= |text| then Unclosed
    else if text[i] == '*' && At(text, i + 1) == '/' then
      if depth == 1 then ClosedAt(i + 2) else CommentEnd(text, i + 2, depth - 1)
    else if text[i] == '/' && At(text, i + 1) == '*' then CommentEnd(text, i + 2, depth + 1)
    else CommentEnd(text, i + 1, depth)
  }

  function CommentTokens(kind: TokenKind, i: nat, end: nat, config: Config): seq<Token>
    requires i <= end
  {
    if config.emitComments then [MakeToken(kind, i, end - i)] else []
  }

  predicate StartsComment(text: Text, i: nat) {
    At(text, i) == '/' && (At(text, i + 1) == '/' || At(text, i + 1) == '*')
  }

  function ScanComment(text: Text, i: nat, config: Config): Scan
    requires i < |text| && StartsComment(text, i)
  {
    if text[i + 1] == '/' then
      var end := LineEnd(text, i + 2);
      Scan(end, CommentTokens(LineComment, i, end, config), [])
    else
      match CommentEnd(text, i + 2, 1)
      case ClosedAt(end) => Scan(end, CommentTokens(BlockComment, i, end, config), [])
      case Unclosed =>
        Scan(|text|, CommentTokens(BlockComment, i, |text|, config), [Report(UnterminatedBlockComment, i)])
  }

  // ---------------------------------------------------------------- quotes

  /** The length of the run of backslashes that ends at `k`, inside a literal whose text begins at `from`. */
  function Backslashes(text: Text, from: nat, k: nat): nat
    requires k <= |text|
  {
    if from < k && text[k - 1] == '\\' then 1 + Backslashes(text, from, k - 1) else 0
  }

  /** The quote that opened at `i` ends before a newline, a NUL or the end of the text, or behind the first quote
      of its kind with an even run of backslashes before it. */
  function QuoteEnd(text: Text, i: nat, k: nat): (end: nat)
    requires i < k <= |text|
    ensures k <= end <= |text|
    decreases |text| - k
  {
    if At(text, k) == '\0' || text[k] == '\n' then k
    else if text[k] == text[i] && Backslashes(text, i + 1, k) % 2 == 0 then k + 1
    else QuoteEnd(text, i, k + 1)
  }

  /** Whether a newline comes before the closing quote. */
  predicate QuoteUnclosed(text: Text, i: nat, k: nat)
    requires i < k <= |text|
    decreases |text| - k
  {
    if At(text, k) == '\0' then false
    else if text[k] == '\n' then true
    else if text[k] == text[i] && Backslashes(text, i + 1, k) % 2 == 0 then false
    else QuoteUnclosed(text, i, k + 1)
  }

  function ScanQuote(text: Text, i: nat): Scan
    requires i < |text|
  {
    var end := QuoteEnd(text, i, i + 1);
    Scan(end, [MakeToken(if text[i] == '"' then StringLiteral else CharLiteral, i, end - i)],
         if QuoteUnclosed(text, i, i + 1) then [Report(MissingClosingQuote, end)] else [])
  }

  // ---------------------------------------------------------------- the whole text

  predicate IsWordStart(c: char) {
    'a' <= c <= 'z' || 'A' <= c <= 'Z' || c == '_'
  }

  /** What the lexer does at a byte that is not NUL. */
  function Step(text: Text, i: nat, config: Config): (scan: Scan)
    requires i < |text|
  {
    var c := text[i];
    if IsWhitespace(c) then Scan(i + 1, [], [])
    else if IsWordStart(c) then ScanWord(text, i, config)
    else if IsDecimalDigit(c) then ScanNumber(text, i)
    else if c == '.' then ScanDot(text, i)
    else if StartsComment(text, i) then ScanComment(text, i, config)
    else if c == '"' || c == '\'' then ScanQuote(text, i)
    else if IsOperatorStart(c) then ScanOperator(text, i)
    else ScanOther(text, i, config)
  }

  lemma NumberAdvances(text: Text, i: nat)
    requires i < |text|
    ensures i < ScanNumber(text, i).next <= |text|
  {
    hide DigitsEnd, SkipWhitespace;
  }

  lemma OperatorAdvances(text: Text, i: nat)
    requires i < |text|
    ensures i < OperatorEnd(text, i) <= |text|
  {
    hide TwoChars, ThreeChars;
    OperatorsAreShort(text, i);
  }

  lemma {:induction false} StepAdvances(text: Text, i: nat, config: Config)
    requires i < |text| && text[i] != '\0'
    ensures i < Step(text, i, config).next <= |text|
  {
    hide IsWhitespace, IsWordStart, IsDecimalDigit, IsOperatorStart, ScanNumber, OperatorEnd, OperatorTokens, WordEnd,
         WordReports, WordToken, MakeToken, DigitsEnd, SkipWhitespace, CommentEnd, LineEnd, QuoteEnd, QuoteUnclosed,
         CharEnd, CharIn;
    NumberAdvances(text, i);
    OperatorAdvances(text, i);
  }

  datatype Lexed = Lexed(tokens: seq<Token>, reports: seq<Report>)

  /** All that is lexed from an offset on. A NUL ends the text, and is reported if it is not the end. */
  function LexFrom(text: Text, i: nat, config: Config): Lexed
    requires i <= |text|
    decreases |text| - i
  {
    if At(text, i) == '\0' then
      Lexed([MakeToken(EndOfFile, i, 0)], if i < |text| then [Report(InvalidCharacter, i)] else [])
    else
      StepAdvances(text, i, config);
      var scan := Step(text, i, config);
      var rest := LexFrom(text, scan.next, config);
      Lexed(scan.tokens + rest.tokens, scan.reports + rest.reports)
  }

  function Lex(text: Text, config: Config): Lexed {
    if |text| <= SOURCE_SIZE_MAX then LexFrom(text, 0, config)
    else Lexed([MakeToken(EndOfFile, 0, 0)], [Report(SourceFileTooLarge, 0)])
  }
}
