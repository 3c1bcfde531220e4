/** Source text as a sequence of bytes, one `char` to a byte, and where an offset is in it
    (cero/syntax/source.cc, and the character classes of cero/syntax/unicode.hh). */
module SourceText {

  type Text = seq<char>

  const SOURCE_SIZE_MAX := 0xff_ffff

  predicate IsAscii(c: char) {
    c < '\U{80}'
  }

  predicate IsAsciiIdentifierChar(c: char) {
    'a' <= c <= 'z' || 'A' <= c <= 'Z' || '0' <= c <= '9' || c == '_'
  }

  predicate IsWhitespace(c: char) {
    c == ' ' || '\t' <= c <= '\r'
  }

  predicate IsDecimalDigit(c: char) {
    '0' <= c <= '9'
  }

  predicate IsHexadecimalDigit(c: char) {
    '0' <= c <= '9' || 'a' <= c <= 'f' || 'A' <= c <= 'F'
  }

  /** The byte at an offset, or NUL behind the end. */
  function At(text: Text, i: nat): char {
    if i < |text| then text[i] else '\0'
  }

  // ---------------------------------------------------------------- locations

  datatype Location = Location(line: nat, column: nat)

  function Newlines(text: Text): nat {
    if text == [] then 0 else Newlines(text[..|text| - 1]) + if text[|text| - 1] == '\n' then 1 else 0
  }

  /** The text behind the last newline. */
  function LastLine(text: Text): Text {
    if text == [] || text[|text| - 1] == '\n' then [] else LastLine(text[..|text| - 1]) + [text[|text| - 1]]
  }

  function Width(text: Text, tabSize: nat): nat {
    if text == [] then 0
    else Width(text[..|text| - 1], tabSize) + if text[|text| - 1] == '\t' then tabSize else 1
  }

  /** `substr(0, offset)`: the bytes before the offset, as far as there are any. */
  function Before(text: Text, offset: nat): Text {
    if offset <= |text| then text[..offset] else text
  }

  /** Lines and columns count from 1; a tab counts for `tabSize` columns. */
  function LocationOf(text: Text, offset: nat, tabSize: nat): Location {
    Location(1 + Newlines(Before(text, offset)), 1 + Width(LastLine(Before(text, offset)), tabSize))
  }

  /** `locate`, which counts the lines in one loop and the columns of the last line in another. */
  method Locate(text: Text, offset: nat, tabSize: nat) returns (location: Location)
    ensures location == LocationOf(text, offset, tabSize)
  {
    hide Before, Newlines, LastLine, Width;
    var range := Before(text, offset);
    var lastLine: int := -1;
    var line := 1;
    NoBytes(tabSize);
    for i := 0 to |range|
      invariant line == 1 + Newlines(range[..i])
      invariant -1 <= lastLine < i
      invariant LastLine(range[..i]) == range[lastLine + 1..i]
    {
      OneMoreByte(range, i, tabSize);
      if range[i] == '\n' {
        line := line + 1;
        lastLine := i;
      } else {
        assert range[lastLine + 1..i] + [range[i]] == range[lastLine + 1..i + 1];
      }
    }
    assert range[..|range|] == range;
    range := range[lastLine + 1..];
    var column := 1;
    for i := 0 to |range|
      invariant column == 1 + Width(range[..i], tabSize)
    {
      OneMoreByte(range, i, tabSize);
      column := column + if range[i] == '\t' then tabSize else 1;
    }
    assert range[..|range|] == range;
    location := Location(line, column);
  }

  lemma NoBytes(tabSize: nat)
    ensures Newlines([]) == 0 && LastLine([]) == [] && Width([], tabSize) == 0
  {
  }

  lemma OneMoreByte(range: Text, i: nat, tabSize: nat)
    requires i < |range|
    ensures Newlines(range[..i + 1]) == Newlines(range[..i]) + if range[i] == '\n' then 1 else 0
    ensures LastLine(range[..i + 1]) == if range[i] == '\n' then [] else LastLine(range[..i]) + [range[i]]
    ensures Width(range[..i + 1], tabSize) == Width(range[..i], tabSize) + if range[i] == '\t' then tabSize else 1
  {
    assert range[..i + 1][..i] == range[..i];
  }

  /** Where lines and columns begin, and what every byte adds: the first byte is at (1, 1), the byte behind a newline at
      the beginning of the next line, and any other byte is wide as a column, or as a tab. */
  lemma {:induction false} LocationSteps(text: Text, offset: nat, tabSize: nat)
    ensures LocationOf(text, 0, tabSize) == Location(1, 1)
    ensures offset >= |text| ==> LocationOf(text, offset, tabSize) == LocationOf(text, |text|, tabSize)
    ensures offset < |text| ==>
              var here := LocationOf(text, offset, tabSize);
              LocationOf(text, offset + 1, tabSize)
              == if text[offset] == '\n' then Location(here.line + 1, 1)
                 else Location(here.line, here.column + if text[offset] == '\t' then tabSize else 1)
  {
    hide Newlines, LastLine, Width;
    NoBytes(tabSize);
    assert text[..0] == [] && text[..|text|] == text;
    if offset < |text| {
      OneMoreByte(text, offset, tabSize);
      OneMoreColumn(LastLine(text[..offset]), text[offset], tabSize);
    }
  }

  lemma OneMoreColumn(line: Text, c: char, tabSize: nat)
    ensures Width(line + [c], tabSize) == Width(line, tabSize) + if c == '\t' then tabSize else 1
  {
    assert (line + [c])[..|line|] == line;
  }

  ghost predicate IsEarlier(a: Location, b: Location) {
    a.line < b.line || (a.line == b.line && a.column < b.column)
  }

  /** Locations are in the order of the offsets, if tabs have a width. */
  lemma {:induction false} LocationsIncrease(text: Text, i: nat, j: nat, tabSize: nat)
    requires i < j <= |text| && tabSize >= 1
    ensures IsEarlier(LocationOf(text, i, tabSize), LocationOf(text, j, tabSize))
    decreases j
  {
    assert text[..j][..j - 1] == text[..j - 1];
    var line := LastLine(text[..j - 1]);
    assert (line + [text[j - 1]])[..|line|] == line;
    if i < j - 1 {
      LocationsIncrease(text, i, j - 1, tabSize);
    }
  }

  /** With an 8-bit tab size no column exceeds 32 bits in a source of the largest size. */
  lemma {:induction false} ColumnsFit(text: Text, offset: nat, tabSize: nat)
    requires |text| <= SOURCE_SIZE_MAX && tabSize < 0x100
    ensures LocationOf(text, offset, tabSize).column < 0x1_0000_0000
    ensures LocationOf(text, offset, tabSize).line <= SOURCE_SIZE_MAX + 1
  {
    LastLineIsShorter(Before(text, offset));
    WidthBound(LastLine(Before(text, offset)), tabSize);
    NewlinesBound(Before(text, offset));
  }

  lemma {:induction false} LastLineIsShorter(text: Text)
    ensures |LastLine(text)| <= |text|
  {
    if text != [] {
      LastLineIsShorter(text[..|text| - 1]);
    }
  }

  lemma {:induction false} NewlinesBound(text: Text)
    ensures Newlines(text) <= |text|
  {
    if text != [] {
      NewlinesBound(text[..|text| - 1]);
    }
  }

  lemma {:induction false} WidthBound(text: Text, tabSize: nat)
    requires tabSize < 0x100
    ensures Width(text, tabSize) <= |text| * 0xff
  {
    if text != [] {
      WidthBound(text[..|text| - 1], tabSize);
    }
  }
}
