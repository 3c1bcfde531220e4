/** Unicode characters as the lexer assembles and looks them up (cero/syntax/unicode.cc). */
module Unicode {
  import opened SourceText

  /** `std::countl_one` of a byte. */
  function LeadingOnes(byte: bv32): nat {
    if byte & 0x80 == 0 then 0
    else if byte & 0x40 == 0 then 1
    else if byte & 0x20 == 0 then 2
    else if byte & 0x10 == 0 then 3
    else if byte & 0x08 == 0 then 4
    else if byte & 0x04 == 0 then 5
    else if byte & 0x02 == 0 then 6
    else if byte & 0x01 == 0 then 7
    else 8
  }

  // ---------------------------------------------------------------- decoding

  /** The tables of `utf8_char_to_unicode_scalar`, by the upper five bits of the first byte. */
  function DecodedLength(byte: bv32): nat {
    var upper := byte >> 3;
    if upper < 16 then 1
    else if upper < 24 then 0
    else if upper < 28 then 2
    else if upper < 30 then 3
    else if upper < 31 then 4
    else 0
  }

  function Mask(length: nat): bv32 {
    if length == 1 then 0x7f else if length == 2 then 0x1f else if length == 3 then 0x0f
    else if length == 4 then 0x07 else 0x00
  }

  /** The scalar of a character whose bytes are packed into a word, first byte lowest. */
  function ScalarOf(packed: bv32): bv32 {
    var length := DecodedLength(packed & 0xff);
    var codePoint := (((packed & 0xff) & Mask(length)) << 18)
                   | (((packed >> 8) & 0x3f) << 12)
                   | (((packed >> 16) & 0x3f) << 6)
                   | ((packed >> 24) & 0x3f);
    if length == 1 then codePoint >> 18
    else if length == 2 then codePoint >> 12
    else if length == 3 then codePoint >> 6
    else codePoint
  }

  /** `utf8_char |= c << (i * 8)`. */
  function AddByte(packed: bv32, c: bv32, i: nat): bv32
    requires 1 <= i <= 3
  {
    if i == 1 then packed | (c << 8) else if i == 2 then packed | (c << 16) else packed | (c << 24)
  }

  /** Bytes packed into a word, first byte lowest. */
  function Pack2(a: bv32, b: bv32): bv32 {
    AddByte(a, b, 1)
  }

  function Pack3(a: bv32, b: bv32, c: bv32): bv32 {
    AddByte(Pack2(a, b), c, 2)
  }

  function Pack4(a: bv32, b: bv32, c: bv32, d: bv32): bv32 {
    AddByte(Pack3(a, b, c), d, 3)
  }

  // ---------------------------------------------------------------- encoding

  /** A scalar value outside ASCII: no surrogate, and not above U+10FFFF. */
  predicate IsWideScalar(s: bv32) {
    0x80 <= s <= 0x10ffff && !(0xd800 <= s <= 0xdfff)
  }

  /** The bytes of a scalar value outside ASCII, after section 3 of RFC 3629. */
  function Encode(s: bv32): (bytes: seq<bv32>)
    requires IsWideScalar(s)
    ensures 2 <= |bytes| <= 4
  {
    if s < 0x800 then [0xc0 | (s >> 6), 0x80 | (s & 0x3f)]
    else if s < 0x10000 then [0xe0 | (s >> 12), 0x80 | ((s >> 6) & 0x3f), 0x80 | (s & 0x3f)]
    else [0xf0 | (s >> 18), 0x80 | ((s >> 12) & 0x3f), 0x80 | ((s >> 6) & 0x3f), 0x80 | (s & 0x3f)]
  }

  function PackAll(bytes: seq<bv32>): bv32
    requires 2 <= |bytes| <= 4
  {
    if |bytes| == 2 then Pack2(bytes[0], bytes[1])
    else if |bytes| == 3 then Pack3(bytes[0], bytes[1], bytes[2])
    else Pack4(bytes[0], bytes[1], bytes[2], bytes[3])
  }

  lemma TwoBytes(s: bv32)
    requires 0x80 <= s < 0x800
    ensures LeadingOnes(0xc0 | (s >> 6)) == 2
    ensures ScalarOf(Pack2(0xc0 | (s >> 6), 0x80 | (s & 0x3f))) == s
  {
  }

  lemma ThreeBytes(s: bv32)
    requires 0x800 <= s < 0x10000
    ensures LeadingOnes(0xe0 | (s >> 12)) == 3
    ensures ScalarOf(Pack3(0xe0 | (s >> 12), 0x80 | ((s >> 6) & 0x3f), 0x80 | (s & 0x3f))) == s
  {
  }

  lemma FourBytes(s: bv32)
    requires 0x10000 <= s <= 0x10ffff
    ensures LeadingOnes(0xf0 | (s >> 18)) == 4
    ensures ScalarOf(Pack4(0xf0 | (s >> 18), 0x80 | ((s >> 12) & 0x3f), 0x80 | ((s >> 6) & 0x3f), 0x80 | (s & 0x3f))) == s
  {
  }

  /** Assembling and decoding the bytes of a scalar gives the scalar back, and the first byte tells their number. */
  lemma {:induction false} DecodeEncode(s: bv32)
    requires IsWideScalar(s)
    ensures LeadingOnes(Encode(s)[0]) == |Encode(s)|
    ensures ScalarOf(PackAll(Encode(s))) == s
  {
    hide LeadingOnes, ScalarOf, Pack2, Pack3, Pack4;
    if s < 0x800 {
      TwoBytes(s);
    } else if s < 0x10000 {
      ThreeBytes(s);
    } else {
      FourBytes(s);
    }
  }

  // ---------------------------------------------------------------- tables

  datatype Range = Range(begin: nat, end: nat)

  datatype Ordering = Less | Equal | Greater

  function Compare(range: Range, scalar: nat): Ordering {
    if range.begin > scalar then Greater else if range.end < scalar then Less else Equal
  }

  /** Ranges are in order and do not overlap, as in the tables of the source. */
  ghost predicate SortedDisjoint(table: seq<Range>) {
    && (forall k :: 0 <= k < |table| ==> table[k].begin <= table[k].end)
    && (forall j, k :: 0 <= j < k < |table| ==> table[j].end < table[k].begin)
  }

  predicate InTable(table: seq<Range>, scalar: nat) {
    exists k :: 0 <= k < |table| && table[k].begin <= scalar <= table[k].end
  }

  /** A table holds its ranges with both ends, and nothing in front of, between or behind them. */
  lemma {:induction false} TableIsItsRanges(table: seq<Range>, k: nat, scalar: nat)
    requires SortedDisjoint(table) && k < |table|
    ensures InTable(table, table[k].begin) && InTable(table, table[k].end)
    ensures table[k].begin < scalar < table[k].end ==> InTable(table, scalar)
    ensures scalar < table[0].begin || table[|table| - 1].end < scalar ==> !InTable(table, scalar)
    ensures k + 1 < |table| && table[k].end < scalar < table[k + 1].begin ==> !InTable(table, scalar)
  {
    if table[k].begin < scalar < table[k].end {
      assert table[k].begin <= scalar <= table[k].end;
    }
    if j :| 0 <= j < |table| && table[j].begin <= scalar <= table[j].end {
      assert j < k || j == k || j == k + 1 || k + 1 < j;
    }
  }

  /** `std::binary_search`: halving the table finds a scalar exactly if some range holds it. */
  method BinarySearch(table: seq<Range>, scalar: nat) returns (found: bool)
    requires SortedDisjoint(table)
    ensures found == InTable(table, scalar)
  {
    var first, length := 0, |table|;
    while length > 0
      invariant 0 <= length && 0 <= first && first + length <= |table|
      invariant forall k :: 0 <= k < first ==> Compare(table[k], scalar) == Less
      invariant forall k :: first + length <= k < |table| ==> Compare(table[k], scalar) != Less
    {
      var half := length / 2;
      if Compare(table[first + half], scalar) == Less {
        first := first + half + 1;
        length := length - half - 1;
      } else {
        length := half;
      }
    }
    found := first < |table| && Compare(table[first], scalar) != Greater;
  }

  /** `search_table`: looks up a packed UTF-8 character. */
  method SearchTable(table: seq<Range>, packed: bv32) returns (found: bool)
    requires SortedDisjoint(table)
    ensures found == InTable(table, ScalarOf(packed) as nat)
  {
    found := BinarySearch(table, ScalarOf(packed) as nat);
  }
}
