/** The lexer of cero/syntax/lexer.cc: a cursor over the bytes of the source, and the tokens and reports so far.
    Every handler is proved to do what Lexical.dfy says about the place where the cursor stands. */
module Lexers {
  import opened Tokens
  import opened SourceText
  import opened Unicode
  import opened Keywords
  import opened Lexical

  /** The byte cursor (cero/syntax/source_cursor.hh). */
  class SourceCursor {
    const text: Text
    var pos: nat

    ghost predicate Valid()
      reads this
    {
      pos <= |text|
    }

    constructor (text: Text)
      ensures Valid() && this.text == text && pos == 0
    {
      this.text := text;
      pos := 0;
    }

    function Peek(): (c: char)
      requires Valid()
      reads this
      ensures c == At(text, pos)
    {
      if pos != |text| then text[pos] else '\0'
    }

    function Offset(): nat
      reads this
    {
      pos
    }

    method Next() returns (c: char)
      requires Valid()
      modifies this
      ensures Valid() && c == At(text, old(pos)) && pos == Min(old(pos) + 1, |text|)
    {
      if pos != |text| {
        c := text[pos];
        pos := pos + 1;
      } else {
        c := '\0';
      }
    }

    method Advance()
      requires Valid() && pos < |text|
      modifies this
      ensures Valid() && pos == old(pos) + 1
    {
      pos := pos + 1;
    }

    method Match(expected: char) returns (matched: bool)
      requires Valid()
      modifies this
      ensures Valid() && matched == (old(pos) < |text| && text[old(pos)] == expected)
      ensures expected != '\0' ==> matched == (At(text, old(pos)) == expected)
      ensures pos == if matched then old(pos) + 1 else old(pos)
    {
      matched := pos != |text| && text[pos] == expected;
      if matched {
        pos := pos + 1;
      }
    }
  }

  class Lexer {
    const text: Text
    const config: Config
    const cursor: SourceCursor
    var tokens: seq<Token>
    var reports: seq<Report>

    ghost predicate Valid()
      reads this, cursor
    {
      && cursor.Valid() && cursor.text == text && IsBytes(text)
      && SortedDisjoint(config.start) && SortedDisjoint(config.continuation)
    }

    /** What has been added and where the cursor is. */
    ghost function Progress(): Scan
      reads this, cursor
    {
      Scan(cursor.pos, tokens, reports)
    }

    constructor (text: Text, config: Config)
      requires IsBytes(text) && SortedDisjoint(config.start) && SortedDisjoint(config.continuation)
      ensures Valid() && fresh(cursor) && this.text == text && this.config == config
      ensures cursor.pos == 0 && tokens == [] && reports == []
    {
      this.text, this.config := text, config;
      cursor := new SourceCursor(text);
      tokens, reports := [], [];
    }

    method Put(kind: TokenKind, offset: nat, length: nat)
      modifies this`tokens
      ensures tokens == old(tokens) + [MakeToken(kind, offset, length)]
    {
      tokens := tokens + [MakeToken(kind, offset, length)];
    }

    method AddReport(message: Message, offset: nat)
      modifies this`reports
      ensures reports == old(reports) + [Report(message, offset)]
    {
      reports := reports + [Report(message, offset)];
    }

    method GetOffsetAndAdvance() returns (offset: nat)
      requires Valid() && cursor.pos < |text|
      modifies cursor
      ensures Valid() && offset == old(cursor.pos) && cursor.pos == offset + 1
    {
      offset := cursor.Offset();
      cursor.Advance();
    }

    // -------------------------------------------------------------- words

    /** Reads the rest of a multi-byte character, and looks it up. */
    method ConsumeMultibyteUtf8Char(begin: char, offset: nat, table: seq<Range>) returns (ok: bool)
      requires Valid() && offset < |text| && cursor.pos == offset + 1 && begin == text[offset] && SortedDisjoint(table)
      modifies this`reports, cursor
      ensures Valid() && cursor.pos == CharEnd(text, offset) && ok == CharIn(text, offset, table)
      ensures reports == old(reports) + if ok then [] else [Report(InvalidCharacter, offset)]
    {
      hide LeadingOnes, ScalarOf, InTable, SortedDisjoint, IsBytes, ByteOf, AddByte, PackedFirst, Packed;
      var leadingByte := ByteOf(begin);
      var leadingOnes := LeadingOnes(leadingByte);
      if leadingOnes >= 2 && leadingOnes <= 4 {
        var utf8Char := leadingByte;
        FirstByte(text, offset);
        AllBytes(text, offset);
        for i := 1 to leadingOnes
          invariant Valid() && cursor.pos == Min(offset + i, |text|) && reports == old(reports)
          invariant utf8Char == PackedFirst(text, offset, i)
        {
          var c := cursor.Next();
          utf8Char := AddByte(utf8Char, ByteOf(c), i);
          NextByte(text, offset, i);
        }
        var found := SearchTable(table, utf8Char);
        if found {
          return true;
        }
      }
      AddReport(InvalidCharacter, offset);
      return false;
    }

    method ConsumeWord()
      requires Valid()
      modifies this`reports, cursor
      ensures Valid() && cursor.pos == WordEnd(text, old(cursor.pos), config)
      ensures reports == old(reports) + WordReports(text, old(cursor.pos), config)
    {
      hide CharIn, CharEnd, SortedDisjoint, IsBytes, WordEnd, WordReports, IsAscii, IsAsciiIdentifierChar;
      var c := cursor.Peek();
      while c != '\0'
        invariant Valid() && old(cursor.pos) <= cursor.pos && c == At(text, cursor.pos)
        invariant WordEnd(text, cursor.pos, config) == WordEnd(text, old(cursor.pos), config)
        invariant WordReports(text, cursor.pos, config) == WordReports(text, old(cursor.pos), config)
        invariant reports == old(reports)
        decreases |text| - cursor.pos
      {
        WordCases(text, cursor.pos, config);
        if IsAsciiIdentifierChar(c) {
          cursor.Advance();
        } else if IsAscii(c) {
          break;
        } else {
          var offset := GetOffsetAndAdvance();
          var ok := ConsumeMultibyteUtf8Char(c, offset, config.continuation);
          if !ok {
            return;
          }
        }
        c := cursor.Peek();
      }
      WordCases(text, cursor.pos, config);
    }

    method OnAlphabetic()
      requires Valid() && cursor.pos < |text|
      modifies this, cursor
      ensures Valid() && cursor.pos == WordEnd(text, old(cursor.pos) + 1, config)
      ensures tokens == old(tokens) + [MakeToken(Identifier, old(cursor.pos), cursor.pos - old(cursor.pos))]
      ensures reports == old(reports) + WordReports(text, old(cursor.pos) + 1, config)
    {
      hide WordEnd, WordReports, Masked, IsBytes, SortedDisjoint;
      var offset := GetOffsetAndAdvance();
      ConsumeWord();
      var length := cursor.Offset() - offset;
      Put(Identifier, offset, length);
    }

    /** Compares the tail of the word, copied into a 64-bit integer, with the tails of keywords. */
    method OnAlphabeticMaybeKeyword(tails: seq<KeywordTail>)
      requires Valid() && cursor.pos < |text| && IsWordStart(text[cursor.pos])
      requires tails == TailsFrom(text[cursor.pos], 0)
      modifies this, cursor
      ensures Valid() && Progress() == After(old(Progress()), ScanWord(text, old(cursor.pos), config))
    {
      hide WordEnd, WordReports, Masked, SortedDisjoint, EncodeTail, TailsFrom, FirstMatch, NulsAreInside;
      var offset := GetOffsetAndAdvance();
      ConsumeWord();
      var length := cursor.Offset() - offset;
      ghost var word := text[offset..cursor.pos];
      WordNuls(text, offset, config);
      assert word[0] == text[offset];
      if length <= 9 {
        var tail := text[offset + 1..offset + length];
        assert tail == word[1..];
        var encoded := EncodeTail(tail);
        LookupIsExact(word, 0);
        for i := 0 to |tails|
          invariant Valid() && cursor.pos == WordEnd(text, offset + 1, config)
          invariant tokens == old(tokens) && reports == old(reports) + WordReports(text, offset + 1, config)
          invariant LookupTail(tails[i..], encoded) == WordKind(word)
        {
          if tails[i].tail == encoded {
            TailIsKeyword(text[offset], 0, i);
            Put(tails[i].kind, offset, 0);
            return;
          }
        }
      } else {
        LongWordsAreNames(word);
      }
      Put(Identifier, offset, length);
    }

    /** The handler that is chosen for the first letter of a word. */
    method OnWordStart(c: char)
      requires Valid() && cursor.pos < |text| && c == text[cursor.pos] && IsWordStart(c)
      modifies this, cursor
      ensures Valid() && Progress() == After(old(Progress()), ScanWord(text, old(cursor.pos), config))
    {
      hide WordEnd, WordReports, Masked, SortedDisjoint, TailsFrom, FirstMatch, NulsAreInside, LookupTail, IsBytes;
      ghost var word := text[cursor.pos..WordEnd(text, cursor.pos + 1, config)];
      assert word[0] == c;
      if 'a' <= c <= 'z' {
        var tails := GetKeywordTails(c);
        if |tails| == 0 {
          NoTailsNoKeyword(text, cursor.pos, config);
          OnAlphabetic();
        } else {
          OnAlphabeticMaybeKeyword(tails);
        }
      } else {
        KeywordsAreSmall(word);
        OnAlphabetic();
      }
    }

    method OnOtherChar(c: char)
      requires Valid() && cursor.pos < |text| && c == text[cursor.pos]
      modifies this, cursor
      ensures Valid() && Progress() == After(old(Progress()), ScanOther(text, old(cursor.pos), config))
    {
      hide WordEnd, WordReports, Masked, SortedDisjoint, IsBytes, CharEnd, CharIn;
      var offset := GetOffsetAndAdvance();
      var ok := ConsumeMultibyteUtf8Char(c, offset, config.start);
      if ok {
        ConsumeWord();
        var length := cursor.Offset() - offset;
        Put(Identifier, offset, length);
      }
    }

    // -------------------------------------------------------------- numbers

    /** Takes digits and the whitespace between them, and any whitespace behind them. The length counts from `offset`
        to the last digit. */
    method ConsumeDigitSequence(offset: nat, hexadecimal: bool) returns (length: nat)
      requires Valid() && offset <= cursor.pos
      modifies cursor
      ensures Valid() && length == DigitsEnd(text, old(cursor.pos), hexadecimal) - offset
      ensures cursor.pos == SkipWhitespace(text, offset + length)
    {
      hide IsBytes, SortedDisjoint, DigitsEnd, SkipWhitespace, IsDigit, IsWhitespace;
      NulIsNoDigit(hexadecimal);
      var c := cursor.Peek();
      while c != '\0'
        invariant Valid() && old(cursor.pos) <= cursor.pos && c == At(text, cursor.pos)
        invariant DigitsEnd(text, cursor.pos, hexadecimal) == DigitsEnd(text, old(cursor.pos), hexadecimal)
        decreases |text| - cursor.pos
      {
        if IsDigit(c, hexadecimal) {
          DigitHere(text, cursor.pos, hexadecimal);
          cursor.Advance();
        } else {
          if !IsWhitespace(c) {
            break;
          }
          length := cursor.Offset() - offset;
          ghost var start := cursor.pos;
          c := ConsumeWhitespace();
          DigitsAhead(text, start, hexadecimal);
          if IsDigit(c, hexadecimal) {
            cursor.Advance();
          } else {
            return length;
          }
        }
        c := cursor.Peek();
      }
      NoDigitsAhead(text, cursor.pos, hexadecimal);
      length := cursor.Offset() - offset;
    }

    /** The do-while loop over whitespace; returns the first byte behind it. */
    method ConsumeWhitespace() returns (c: char)
      requires Valid() && cursor.pos < |text| && IsWhitespace(text[cursor.pos])
      modifies cursor
      ensures Valid() && cursor.pos == SkipWhitespace(text, old(cursor.pos)) && c == At(text, cursor.pos)
      ensures old(cursor.pos) < cursor.pos
    {
      hide IsBytes, SortedDisjoint;
      cursor.Advance();
      c := cursor.Peek();
      while IsWhitespace(c)
        invariant Valid() && old(cursor.pos) < cursor.pos && c == At(text, cursor.pos)
        invariant SkipWhitespace(text, cursor.pos) == SkipWhitespace(text, old(cursor.pos))
        decreases |text| - cursor.pos
      {
        cursor.Advance();
        c := cursor.Peek();
      }
    }

    method OnZero()
      requires Valid() && cursor.pos < |text| && text[cursor.pos] == '0'
      modifies this, cursor
      ensures Valid() && Progress() == After(old(Progress()), ScanNumber(text, old(cursor.pos)))
    {
      hide IsBytes, SortedDisjoint, ScanNumber, ScanPrefixed, ScanDecimal;
      ZeroCases(text, cursor.pos);
      var offset := GetOffsetAndAdvance();
      var hexadecimal := cursor.Match('x');
      if hexadecimal {
        HandlePrefixedLiteral(HexIntLiteral, offset, true);
        return;
      }
      var binary := cursor.Match('b');
      if binary {
        HandlePrefixedLiteral(BinIntLiteral, offset, false);
        return;
      }
      var octal := cursor.Match('o');
      if octal {
        HandlePrefixedLiteral(OctIntLiteral, offset, false);
        return;
      }
      HandleDecimalLiteral(offset);
    }

    /** The digits behind a prefix; any decimal digit is taken behind `0b` and `0o`. */
    method HandlePrefixedLiteral(kind: TokenKind, offset: nat, hexadecimal: bool)
      requires Valid() && offset + 2 <= |text| && cursor.pos == offset + 2
      modifies this, cursor
      ensures Valid() && Progress() == After(old(Progress()), ScanPrefixed(text, offset, kind, hexadecimal))
    {
      hide IsBytes, SortedDisjoint, Masked, DigitsEnd, SkipWhitespace;
      var length := ConsumeDigitSequence(offset, hexadecimal);
      Put(kind, offset, length);
    }

    method OnNonzero()
      requires Valid() && cursor.pos < |text| && IsDecimalDigit(text[cursor.pos]) && text[cursor.pos] != '0'
      modifies this, cursor
      ensures Valid() && Progress() == After(old(Progress()), ScanNumber(text, old(cursor.pos)))
    {
      hide IsBytes, SortedDisjoint, Masked;
      var offset := GetOffsetAndAdvance();
      HandleDecimalLiteral(offset);
    }

    method HandleDecimalLiteral(offset: nat)
      requires Valid() && offset < |text| && cursor.pos == offset + 1
      modifies this, cursor
      ensures Valid() && Progress() == After(old(Progress()), ScanDecimal(text, offset))
    {
      hide IsBytes, SortedDisjoint, Masked, DigitsEnd, SkipWhitespace;
      var length := ConsumeDigitSequence(offset, false);
      if cursor.Peek() == '.' {
        var dotOffset := GetOffsetAndAdvance();
        var lengthAfterDot := ConsumeDigitSequence(dotOffset, false);
        if lengthAfterDot > 1 {
          length := dotOffset - offset + lengthAfterDot;
          Put(FloatLiteral, offset, length);
        } else {
          Put(DecIntLiteral, offset, length);
          Put(Dot, dotOffset, 0);
        }
      } else {
        Put(DecIntLiteral, offset, length);
      }
    }

    method OnDot()
      requires Valid() && cursor.pos < |text| && text[cursor.pos] == '.'
      modifies this, cursor
      ensures Valid() && Progress() == After(old(Progress()), ScanDot(text, old(cursor.pos)))
    {
      hide IsBytes, SortedDisjoint, Masked, DigitsEnd, SkipWhitespace;
      var offset := GetOffsetAndAdvance();
      var length := ConsumeDigitSequence(offset, false);
      if length > 1 {
        Put(FloatLiteral, offset, length);
      } else {
        Put(Dot, offset, 0);
      }
    }

    // -------------------------------------------------------------- operators

    method OnOneCharToken(kind: TokenKind)
      requires Valid() && cursor.pos < |text|
      requires text[cursor.pos] in "()[]{},;^" && kind == OneChar(text[cursor.pos])
      modifies this`tokens, cursor
      ensures Valid() && cursor.pos == OperatorEnd(text, old(cursor.pos))
      ensures tokens == old(tokens) + OperatorTokens(text, old(cursor.pos))
    {
      hide Masked, IsBytes, SortedDisjoint, OperatorTokens, OperatorEnd, OneChar;
      OneCharCases(text, cursor.pos);
      var offset := GetOffsetAndAdvance();
      Put(kind, offset, 0);
    }

    method OnLeftAngle()
      requires Valid() && cursor.pos < |text| && text[cursor.pos] == '<'
      modifies this`tokens, cursor
      ensures Valid() && cursor.pos == OperatorEnd(text, old(cursor.pos))
      ensures tokens == old(tokens) + OperatorTokens(text, old(cursor.pos))
    {
      hide Masked, IsBytes, SortedDisjoint, OperatorTokens, OperatorEnd;
      LeftAngleCases(text, cursor.pos);
      var offset := GetOffsetAndAdvance();
      var m0 := cursor.Match('<');
      if m0 {
        var e := cursor.Match('=');
        if e {
          Put(LAngleAngleEq, offset, 0);
        } else {
          Put(LAngleAngle, offset, 0);
        }
      } else {
        var m1 := cursor.Match('=');
        if m1 {
          Put(LAngleEq, offset, 0);
        } else {
          Put(LAngle, offset, 0);
        }
      }
    }

    method OnRightAngle()
      requires Valid() && cursor.pos < |text| && text[cursor.pos] == '>'
      modifies this`tokens, cursor
      ensures Valid() && cursor.pos == OperatorEnd(text, old(cursor.pos))
      ensures tokens == old(tokens) + OperatorTokens(text, old(cursor.pos))
    {
      hide Masked, IsBytes, SortedDisjoint, OperatorTokens, OperatorEnd;
      RightAngleCases(text, cursor.pos);
      var offset := GetOffsetAndAdvance();
      var m0 := cursor.Match('>');
      if m0 {
        var e := cursor.Match('=');
        if e {
          Put(RAngleAngleEq, offset, 0);
        } else {
          Put(RAngle, offset, 0);
          Put(RAngle, offset + 1, 0);
        }
      } else {
        var m1 := cursor.Match('=');
        if m1 {
          Put(RAngleEq, offset, 0);
        } else {
          Put(RAngle, offset, 0);
        }
      }
    }

    method OnColon()
      requires Valid() && cursor.pos < |text| && text[cursor.pos] == ':'
      modifies this`tokens, cursor
      ensures Valid() && cursor.pos == OperatorEnd(text, old(cursor.pos))
      ensures tokens == old(tokens) + OperatorTokens(text, old(cursor.pos))
    {
      hide Masked, IsBytes, SortedDisjoint;
      var offset := GetOffsetAndAdvance();
      var m0 := cursor.Match(':');
      if m0 {
        Put(ColonColon, offset, 0);
      } else {
        Put(Colon, offset, 0);
      }
    }

    method OnEquals()
      requires Valid() && cursor.pos < |text| && text[cursor.pos] == '='
      modifies this`tokens, cursor
      ensures Valid() && cursor.pos == OperatorEnd(text, old(cursor.pos))
      ensures tokens == old(tokens) + OperatorTokens(text, old(cursor.pos))
    {
      hide Masked, IsBytes, SortedDisjoint, OperatorTokens, OperatorEnd;
      EqualsCases(text, cursor.pos);
      var offset := GetOffsetAndAdvance();
      var m0 := cursor.Match('=');
      if m0 {
        Put(EqEq, offset, 0);
      } else {
        var m1 := cursor.Match('>');
        if m1 {
          Put(ThickArrow, offset, 0);
        } else {
          Put(Eq, offset, 0);
        }
      }
    }

    method OnPlus()
      requires Valid() && cursor.pos < |text| && text[cursor.pos] == '+'
      modifies this`tokens, cursor
      ensures Valid() && cursor.pos == OperatorEnd(text, old(cursor.pos))
      ensures tokens == old(tokens) + OperatorTokens(text, old(cursor.pos))
    {
      hide Masked, IsBytes, SortedDisjoint, OperatorTokens, OperatorEnd;
      PlusCases(text, cursor.pos);
      var offset := GetOffsetAndAdvance();
      var m0 := cursor.Match('+');
      if m0 {
        Put(PlusPlus, offset, 0);
      } else {
        var m1 := cursor.Match('=');
        if m1 {
          Put(PlusEq, offset, 0);
        } else {
          Put(Plus, offset, 0);
        }
      }
    }

    method OnMinus()
      requires Valid() && cursor.pos < |text| && text[cursor.pos] == '-'
      modifies this`tokens, cursor
      ensures Valid() && cursor.pos == OperatorEnd(text, old(cursor.pos))
      ensures tokens == old(tokens) + OperatorTokens(text, old(cursor.pos))
    {
      hide Masked, IsBytes, SortedDisjoint, OperatorTokens, OperatorEnd;
      MinusCases(text, cursor.pos);
      var offset := GetOffsetAndAdvance();
      var m0 := cursor.Match('>');
      if m0 {
        Put(ThinArrow, offset, 0);
      } else {
        var m1 := cursor.Match('-');
        if m1 {
          Put(MinusMinus, offset, 0);
        } else {
          var m2 := cursor.Match('=');
          if m2 {
            Put(MinusEq, offset, 0);
          } else {
            Put(Minus, offset, 0);
          }
        }
      }
    }

    method OnStar()
      requires Valid() && cursor.pos < |text| && text[cursor.pos] == '*'
      modifies this`tokens, cursor
      ensures Valid() && cursor.pos == OperatorEnd(text, old(cursor.pos))
      ensures tokens == old(tokens) + OperatorTokens(text, old(cursor.pos))
    {
      hide Masked, IsBytes, SortedDisjoint;
      var offset := GetOffsetAndAdvance();
      var m0 := cursor.Match('=');
      if m0 {
        Put(StarEq, offset, 0);
      } else {
        Put(Star, offset, 0);
      }
    }

    method OnPercent()
      requires Valid() && cursor.pos < |text| && text[cursor.pos] == '%'
      modifies this`tokens, cursor
      ensures Valid() && cursor.pos == OperatorEnd(text, old(cursor.pos))
      ensures tokens == old(tokens) + OperatorTokens(text, old(cursor.pos))
    {
      hide Masked, IsBytes, SortedDisjoint;
      var offset := GetOffsetAndAdvance();
      var m0 := cursor.Match('=');
      if m0 {
        Put(PercentEq, offset, 0);
      } else {
        Put(Percent, offset, 0);
      }
    }

    method OnAmpersand()
      requires Valid() && cursor.pos < |text| && text[cursor.pos] == '&'
      modifies this`tokens, cursor
      ensures Valid() && cursor.pos == OperatorEnd(text, old(cursor.pos))
      ensures tokens == old(tokens) + OperatorTokens(text, old(cursor.pos))
    {
      hide Masked, IsBytes, SortedDisjoint, OperatorTokens, OperatorEnd;
      AmpersandCases(text, cursor.pos);
      var offset := GetOffsetAndAdvance();
      var m0 := cursor.Match('&');
      if m0 {
        var e := cursor.Match('=');
        if e {
          Put(AndAndEq, offset, 0);
        } else {
          Put(AndAnd, offset, 0);
        }
      } else {
        var m1 := cursor.Match('=');
        if m1 {
          Put(AmpersandEq, offset, 0);
        } else {
          Put(Ampersand, offset, 0);
        }
      }
    }

    method OnPipe()
      requires Valid() && cursor.pos < |text| && text[cursor.pos] == '|'
      modifies this`tokens, cursor
      ensures Valid() && cursor.pos == OperatorEnd(text, old(cursor.pos))
      ensures tokens == old(tokens) + OperatorTokens(text, old(cursor.pos))
    {
      hide Masked, IsBytes, SortedDisjoint, OperatorTokens, OperatorEnd;
      PipeCases(text, cursor.pos);
      var offset := GetOffsetAndAdvance();
      var m0 := cursor.Match('|');
      if m0 {
        var e := cursor.Match('=');
        if e {
          Put(PipePipeEq, offset, 0);
        } else {
          Put(PipePipe, offset, 0);
        }
      } else {
        var m1 := cursor.Match('=');
        if m1 {
          Put(PipeEq, offset, 0);
        } else {
          Put(Pipe, offset, 0);
        }
      }
    }

    method OnTilde()
      requires Valid() && cursor.pos < |text| && text[cursor.pos] == '~'
      modifies this`tokens, cursor
      ensures Valid() && cursor.pos == OperatorEnd(text, old(cursor.pos))
      ensures tokens == old(tokens) + OperatorTokens(text, old(cursor.pos))
    {
      hide Masked, IsBytes, SortedDisjoint;
      var offset := GetOffsetAndAdvance();
      var m0 := cursor.Match('=');
      if m0 {
        Put(TildeEq, offset, 0);
      } else {
        Put(Tilde, offset, 0);
      }
    }

    method OnBang()
      requires Valid() && cursor.pos < |text| && text[cursor.pos] == '!'
      modifies this`tokens, cursor
      ensures Valid() && cursor.pos == OperatorEnd(text, old(cursor.pos))
      ensures tokens == old(tokens) + OperatorTokens(text, old(cursor.pos))
    {
      hide Masked, IsBytes, SortedDisjoint;
      var offset := GetOffsetAndAdvance();
      var m0 := cursor.Match('=');
      if m0 {
        Put(BangEq, offset, 0);
      } else {
        Put(Bang, offset, 0);
      }
    }

    // -------------------------------------------------------------- comments

    /** A comment, or an operator that begins with a slash. */
    method OnSlash()
      requires Valid() && cursor.pos < |text| && text[cursor.pos] == '/'
      modifies this, cursor
      ensures Valid()
      ensures Progress() == After(old(Progress()),
                if StartsComment(text, old(cursor.pos)) then ScanComment(text, old(cursor.pos), config)
                else ScanOperator(text, old(cursor.pos)))
    {
      hide Masked, IsBytes, SortedDisjoint, LineEnd, CommentEnd;
      var offset := GetOffsetAndAdvance();
      var line := cursor.Match('/');
      if line {
        ConsumeLineComment();
        if config.emitComments {
          Put(LineComment, offset, cursor.Offset() - offset);
        }
        return;
      }
      var block := cursor.Match('*');
      if block {
        ConsumeBlockComment(offset);
        if config.emitComments {
          Put(BlockComment, offset, cursor.Offset() - offset);
        }
        return;
      }
      OnSlashOperator(offset);
    }

    method OnSlashOperator(offset: nat)
      requires Valid() && offset < |text| && cursor.pos == offset + 1 && text[offset] == '/'
               && !StartsComment(text, offset)
      modifies this`tokens, cursor
      ensures Valid() && cursor.pos == OperatorEnd(text, offset)
      ensures tokens == old(tokens) + OperatorTokens(text, offset)
    {
      hide Masked, IsBytes, SortedDisjoint;
      var e := cursor.Match('=');
      if e {
        Put(SlashEq, offset, 0);
      } else {
        Put(Slash, offset, 0);
      }
    }

    method ConsumeLineComment()
      requires Valid()
      modifies cursor
      ensures Valid() && cursor.pos == LineEnd(text, old(cursor.pos))
    {
      hide IsBytes, SortedDisjoint;
      var c := cursor.Peek();
      while c != '\0'
        invariant Valid() && c == At(text, cursor.pos) && LineEnd(text, cursor.pos) == LineEnd(text, old(cursor.pos))
        decreases |text| - cursor.pos
      {
        if c == '\n' {
          break;
        }
        cursor.Advance();
        c := cursor.Peek();
      }
    }

    /** Counts unclosed markers. The counter is at least 1 while scanning, and never exceeds half of the bytes read. */
    method ConsumeBlockComment(offset: nat)
      requires Valid() && offset + 2 == cursor.pos
      modifies this`reports, cursor
      ensures Valid()
      ensures match CommentEnd(text, offset + 2, 1)
              case ClosedAt(end) => cursor.pos == end && reports == old(reports)
              case Unclosed => cursor.pos == |text| && reports == old(reports) + [Report(UnterminatedBlockComment, offset)]
    {
      hide IsBytes, SortedDisjoint;
      var unclosedCount := 1;
      while cursor.pos != |text|
        invariant Valid() && offset + 2 <= cursor.pos && reports == old(reports)
        invariant 1 <= unclosedCount && 2 * unclosedCount <= cursor.pos - offset
        invariant CommentEnd(text, cursor.pos, unclosedCount) == CommentEnd(text, offset + 2, 1)
        decreases |text| - cursor.pos
      {
        var star := cursor.Match('*');
        if star {
          var close := cursor.Match('/');
          if close {
            unclosedCount := unclosedCount - 1;
            if unclosedCount == 0 {
              return;
            }
          }
        } else {
          var slash := cursor.Match('/');
          if slash {
            var open := cursor.Match('*');
            if open {
              unclosedCount := unclosedCount + 1;
            }
          } else {
            cursor.Advance();
          }
        }
      }
      AddReport(UnterminatedBlockComment, offset);
    }

    // -------------------------------------------------------------- quotes

    /** The flag that is flipped by backslashes says whether the run of backslashes just read is odd. */
    method OnQuote(kind: TokenKind, quote: char)
      requires Valid() && cursor.pos < |text| && text[cursor.pos] == quote
      requires (quote == '"' && kind == StringLiteral) || (quote == '\'' && kind == CharLiteral)
      modifies this, cursor
      ensures Valid() && Progress() == After(old(Progress()), ScanQuote(text, old(cursor.pos)))
    {
      hide IsBytes, SortedDisjoint, Masked;
      var offset := GetOffsetAndAdvance();
      var ignoreQuote := false;
      var c := cursor.Peek();
      while c != '\0'
        invariant Valid() && offset < cursor.pos && c == At(text, cursor.pos)
        invariant ignoreQuote == (Backslashes(text, offset + 1, cursor.pos) % 2 == 1)
        invariant QuoteEnd(text, offset, cursor.pos) == QuoteEnd(text, offset, offset + 1)
        invariant QuoteUnclosed(text, offset, cursor.pos) == QuoteUnclosed(text, offset, offset + 1)
        invariant tokens == old(tokens) && reports == old(reports)
        decreases |text| - cursor.pos
      {
        if c == '\n' {
          AddReport(MissingClosingQuote, cursor.Offset());
          break;
        }
        cursor.Advance();
        if c == '\\' {
          ignoreQuote := !ignoreQuote;
        } else if c == quote && !ignoreQuote {
          break;
        } else if ignoreQuote {
          ignoreQuote := false;
        }
        c := cursor.Peek();
      }
      var length := cursor.Offset() - offset;
      Put(kind, offset, length);
    }

    // -------------------------------------------------------------- the whole text

    method HandleNextCharacter(c: char)
      requires Valid() && cursor.pos < |text| && c == text[cursor.pos] && c != '\0'
      modifies this, cursor
      ensures Valid() && Progress() == After(old(Progress()), Step(text, old(cursor.pos), config))
    {
      hide IsBytes, SortedDisjoint, Step, ScanWord, ScanNumber, OperatorEnd, OperatorTokens, OneChar, IsWhitespace,
           IsWordStart;
      FirstCases(text, cursor.pos, config);
      if IsWhitespace(c) {
        cursor.Advance();
      } else if IsWordStart(c) {
        OnWordStart(c);
      } else if c == '0' {
        OnZero();
      } else if '1' <= c <= '9' {
        OnNonzero();
      } else if c in "()[]{},;^" {
        assert reports + [] == reports;
        OnOneCharToken(OneChar(c));
      } else {
        HandleOtherCharacter(c);
      }
    }

    /** The rest of the switch over characters. */
    method HandleOtherCharacter(c: char)
      requires Valid() && cursor.pos < |text| && c == text[cursor.pos] && c != '\0'
      requires !IsWhitespace(c) && !IsWordStart(c) && !IsDecimalDigit(c) && c !in "()[]{},;^"
      modifies this, cursor
      ensures Valid() && Progress() == After(old(Progress()), Step(text, old(cursor.pos), config))
    {
      hide IsBytes, SortedDisjoint, Step, ScanDot, ScanComment, ScanQuote, OperatorEnd, OperatorTokens, ScanOther,
           IsOperatorStart, IsWhitespace, IsWordStart, IsDecimalDigit;
      OtherCases(text, cursor.pos, config);
      SwitchCovers(c);
      match c
      case '.' => OnDot();
      case '/' => OnSlash();
      case '"' => OnQuote(StringLiteral, '"');
      case '\'' => OnQuote(CharLiteral, '\'');
      case _ =>
        if c in "<>:=+-*%&|~!" {
          assert reports + [] == reports;
          HandleOperator(c);
        } else {
          OnOtherChar(c);
        }
    }

    method HandleOperator(c: char)
      requires Valid() && cursor.pos < |text| && c == text[cursor.pos] && c in "<>:=+-*%&|~!"
      modifies this`tokens, cursor
      ensures Valid() && cursor.pos == OperatorEnd(text, old(cursor.pos))
      ensures tokens == old(tokens) + OperatorTokens(text, old(cursor.pos))
    {
      hide IsBytes, SortedDisjoint, OperatorEnd, OperatorTokens;
      match c
      case '<' => OnLeftAngle();
      case '>' => OnRightAngle();
      case ':' => OnColon();
      case '=' => OnEquals();
      case '+' => OnPlus();
      case '-' => OnMinus();
      case '*' => OnStar();
      case '%' => OnPercent();
      case '&' => OnAmpersand();
      case '|' => OnPipe();
      case '~' => OnTilde();
      case '!' => OnBang();
    }

    method HandleSource()
      requires Valid() && cursor.pos == 0 && tokens == [] && reports == [] && |text| <= SOURCE_SIZE_MAX
      modifies this, cursor
      ensures Valid()
      ensures tokens + [MakeToken(EndOfFile, cursor.pos, 0)] == LexFrom(text, 0, config).tokens
      ensures reports == LexFrom(text, 0, config).reports
    {
      hide Step, Masked, IsBytes, SortedDisjoint;
      var c := cursor.Peek();
      while c != '\0'
        invariant Valid() && c == At(text, cursor.pos)
        invariant tokens + LexFrom(text, cursor.pos, config).tokens == LexFrom(text, 0, config).tokens
        invariant reports + LexFrom(text, cursor.pos, config).reports == LexFrom(text, 0, config).reports
        decreases |text| - cursor.pos
      {
        StepAdvances(text, cursor.pos, config);
        ghost var scan := Step(text, cursor.pos, config);
        ghost var rest := LexFrom(text, scan.next, config);
        assert tokens + (scan.tokens + rest.tokens) == tokens + scan.tokens + rest.tokens;
        assert reports + (scan.reports + rest.reports) == reports + scan.reports + rest.reports;
        HandleNextCharacter(c);
        c := cursor.Peek();
      }
      if cursor.pos != |text| {
        AddReport(InvalidCharacter, cursor.Offset());
      }
    }

    method Run()
      requires Valid() && cursor.pos == 0 && tokens == [] && reports == []
      modifies this, cursor
      ensures Valid() && Lexed(tokens, reports) == Lex(text, config)
    {
      hide LexFrom, Masked, IsBytes, SortedDisjoint;
      if |text| <= SOURCE_SIZE_MAX {
        HandleSource();
      } else {
        AddReport(SourceFileTooLarge, 0);
      }
      Put(EndOfFile, cursor.Offset(), 0);
    }
  }

  /** The state after a scan: what it adds is behind what there was. */
  ghost function After(before: Scan, scan: Scan): Scan {
    Scan(scan.next, before.tokens + scan.tokens, before.reports + scan.reports)
  }

  /** The first `n` bytes of a character, packed. */
  function PackedFirst(text: Text, i: nat, n: nat): bv32 {
    if n == 1 then ByteAt(text, i)
    else if n == 2 then Pack2(ByteAt(text, i), ByteAt(text, i + 1))
    else if n == 3 then Pack3(ByteAt(text, i), ByteAt(text, i + 1), ByteAt(text, i + 2))
    else Pack4(ByteAt(text, i), ByteAt(text, i + 1), ByteAt(text, i + 2), ByteAt(text, i + 3))
  }

  lemma NulIsNoDigit(hexadecimal: bool)
    ensures !IsDigit('\0', hexadecimal) && !IsWhitespace('\0')
  {
  }

  lemma DigitHere(text: Text, i: nat, hexadecimal: bool)
    requires i < |text| && IsDigit(text[i], hexadecimal)
    ensures DigitsEnd(text, i, hexadecimal) == DigitsEnd(text, i + 1, hexadecimal)
  {
    assert SkipWhitespace(text, i) == i;
  }

  lemma DigitsAhead(text: Text, i: nat, hexadecimal: bool)
    requires i <= |text|
    ensures var j := SkipWhitespace(text, i);
            DigitsEnd(text, i, hexadecimal)
            == if j < |text| && IsDigit(text[j], hexadecimal) then DigitsEnd(text, j + 1, hexadecimal) else i
  {
  }

  lemma NoDigitsAhead(text: Text, i: nat, hexadecimal: bool)
    requires i <= |text| && !IsWhitespace(At(text, i)) && !IsDigit(At(text, i), hexadecimal)
    ensures DigitsEnd(text, i, hexadecimal) == i && SkipWhitespace(text, i) == i
  {
  }

  lemma LeftAngleCases(text: Text, i: nat)
    requires i < |text| && text[i] == '<'
    ensures OperatorEnd(text, i) == if At(text, i + 1) == '<' then (if At(text, i + 2) == '=' then i + 3 else i + 2)
                                    else if At(text, i + 1) == '=' then i + 2 else i + 1
    ensures OperatorTokens(text, i) ==
            if At(text, i + 1) == '<' then
              (if At(text, i + 2) == '=' then [MakeToken(LAngleAngleEq, i, 0)] else [MakeToken(LAngleAngle, i, 0)])
            else if At(text, i + 1) == '=' then [MakeToken(LAngleEq, i, 0)] else [MakeToken(LAngle, i, 0)]
  {
    hide Masked;
  }

  lemma RightAngleCases(text: Text, i: nat)
    requires i < |text| && text[i] == '>'
    ensures OperatorEnd(text, i) == if At(text, i + 1) == '>' then (if At(text, i + 2) == '=' then i + 3 else i + 2)
                                    else if At(text, i + 1) == '=' then i + 2 else i + 1
    ensures OperatorTokens(text, i) ==
            if At(text, i + 1) == '>' then
              (if At(text, i + 2) == '=' then [MakeToken(RAngleAngleEq, i, 0)]
               else [MakeToken(RAngle, i, 0), MakeToken(RAngle, i + 1, 0)])
            else if At(text, i + 1) == '=' then [MakeToken(RAngleEq, i, 0)] else [MakeToken(RAngle, i, 0)]
  {
    hide Masked;
  }

  lemma AmpersandCases(text: Text, i: nat)
    requires i < |text| && text[i] == '&'
    ensures OperatorEnd(text, i) == if At(text, i + 1) == '&' then (if At(text, i + 2) == '=' then i + 3 else i + 2)
                                    else if At(text, i + 1) == '=' then i + 2 else i + 1
    ensures OperatorTokens(text, i) ==
            if At(text, i + 1) == '&' then
              (if At(text, i + 2) == '=' then [MakeToken(AndAndEq, i, 0)] else [MakeToken(AndAnd, i, 0)])
            else if At(text, i + 1) == '=' then [MakeToken(AmpersandEq, i, 0)] else [MakeToken(Ampersand, i, 0)]
  {
    hide Masked;
  }

  lemma PipeCases(text: Text, i: nat)
    requires i < |text| && text[i] == '|'
    ensures OperatorEnd(text, i) == if At(text, i + 1) == '|' then (if At(text, i + 2) == '=' then i + 3 else i + 2)
                                    else if At(text, i + 1) == '=' then i + 2 else i + 1
    ensures OperatorTokens(text, i) ==
            if At(text, i + 1) == '|' then
              (if At(text, i + 2) == '=' then [MakeToken(PipePipeEq, i, 0)] else [MakeToken(PipePipe, i, 0)])
            else if At(text, i + 1) == '=' then [MakeToken(PipeEq, i, 0)] else [MakeToken(Pipe, i, 0)]
  {
    hide Masked;
  }

  lemma PlusCases(text: Text, i: nat)
    requires i < |text| && text[i] == '+'
    ensures OperatorEnd(text, i) == if At(text, i + 1) == '+' || At(text, i + 1) == '=' then i + 2 else i + 1
    ensures OperatorTokens(text, i) ==
            if At(text, i + 1) == '+' then [MakeToken(PlusPlus, i, 0)]
            else if At(text, i + 1) == '=' then [MakeToken(PlusEq, i, 0)] else [MakeToken(Plus, i, 0)]
  {
    hide Masked;
  }

  lemma MinusCases(text: Text, i: nat)
    requires i < |text| && text[i] == '-'
    ensures OperatorEnd(text, i) == if At(text, i + 1) in ['-', '>', '='] then i + 2 else i + 1
    ensures OperatorTokens(text, i) ==
            if At(text, i + 1) == '-' then [MakeToken(MinusMinus, i, 0)]
            else if At(text, i + 1) == '>' then [MakeToken(ThinArrow, i, 0)]
            else if At(text, i + 1) == '=' then [MakeToken(MinusEq, i, 0)] else [MakeToken(Minus, i, 0)]
  {
    hide Masked;
  }

  lemma EqualsCases(text: Text, i: nat)
    requires i < |text| && text[i] == '='
    ensures OperatorEnd(text, i) == if At(text, i + 1) == '=' || At(text, i + 1) == '>' then i + 2 else i + 1
    ensures OperatorTokens(text, i) ==
            if At(text, i + 1) == '=' then [MakeToken(EqEq, i, 0)]
            else if At(text, i + 1) == '>' then [MakeToken(ThickArrow, i, 0)] else [MakeToken(Eq, i, 0)]
  {
    hide Masked;
  }

  lemma OneCharCases(text: Text, i: nat)
    requires i < |text| && text[i] in "()[]{},;^"
    ensures OperatorEnd(text, i) == i + 1 && OperatorTokens(text, i) == [MakeToken(OneChar(text[i]), i, 0)]
  {
    hide Masked, OneChar;
  }

  lemma ZeroCases(text: Text, i: nat)
    requires i < |text| && text[i] == '0'
    ensures ScanNumber(text, i) ==
            if At(text, i + 1) == 'x' then ScanPrefixed(text, i, HexIntLiteral, true)
            else if At(text, i + 1) == 'b' then ScanPrefixed(text, i, BinIntLiteral, false)
            else if At(text, i + 1) == 'o' then ScanPrefixed(text, i, OctIntLiteral, false)
            else ScanDecimal(text, i)
  {
    hide ScanPrefixed, ScanDecimal;
  }

  /** What comes first in a word. */
  lemma WordCases(text: Text, i: nat, config: Config)
    requires i <= |text|
    ensures WordEnd(text, i, config) ==
            if At(text, i) == '\0' then i
            else if IsAsciiIdentifierChar(text[i]) then WordEnd(text, i + 1, config)
            else if IsAscii(text[i]) then i
            else if CharIn(text, i, config.continuation) then WordEnd(text, CharEnd(text, i), config)
            else CharEnd(text, i)
    ensures WordReports(text, i, config) ==
            if At(text, i) == '\0' then []
            else if IsAsciiIdentifierChar(text[i]) then WordReports(text, i + 1, config)
            else if IsAscii(text[i]) then []
            else if CharIn(text, i, config.continuation) then WordReports(text, CharEnd(text, i), config)
            else [Report(InvalidCharacter, i)]
  {
    hide CharIn, CharEnd, IsAscii, IsAsciiIdentifierChar;
  }

  /** The switch over the other characters. */
  lemma FirstCases(text: Text, i: nat, config: Config)
    requires i < |text|
    ensures IsWhitespace(text[i]) ==> Step(text, i, config) == Scan(i + 1, [], [])
    ensures !IsWhitespace(text[i]) && IsWordStart(text[i]) ==> Step(text, i, config) == ScanWord(text, i, config)
    ensures !IsWhitespace(text[i]) && !IsWordStart(text[i]) && IsDecimalDigit(text[i]) ==>
              Step(text, i, config) == ScanNumber(text, i)
    ensures text[i] in "()[]{},;^" ==> Step(text, i, config) == ScanOperator(text, i)
  {
    hide ScanWord, ScanNumber, ScanDot, ScanComment, ScanQuote, ScanOperator, ScanOther;
  }

  /** The switch over the characters that begin no word, number or operator of one character. */
  lemma OtherCases(text: Text, i: nat, config: Config)
    requires i < |text| && text[i] != '\0'
    requires !IsWhitespace(text[i]) && !IsWordStart(text[i]) && !IsDecimalDigit(text[i])
    ensures Step(text, i, config) ==
            if text[i] == '.' then ScanDot(text, i)
            else if StartsComment(text, i) then ScanComment(text, i, config)
            else if text[i] == '"' || text[i] == '\'' then ScanQuote(text, i)
            else if IsOperatorStart(text[i]) then ScanOperator(text, i)
            else ScanOther(text, i, config)
  {
    hide IsWhitespace, IsWordStart, IsDecimalDigit, IsOperatorStart, ScanDot, ScanComment, ScanQuote, ScanOperator,
         ScanOther;
  }

  lemma SwitchCovers(c: char)
    requires !IsWhitespace(c) && !IsWordStart(c) && !IsDecimalDigit(c) && c !in "()[]{},;^"
    ensures c in "<>:=+-*%&|~!" || c == '/' <==> IsOperatorStart(c)
  {
  }

  lemma FirstByte(text: Text, i: nat)
    ensures PackedFirst(text, i, 1) == ByteAt(text, i)
  {
  }

  lemma NextByte(text: Text, i: nat, n: nat)
    requires 1 <= n <= 3
    ensures AddByte(PackedFirst(text, i, n), ByteAt(text, i + n), n) == PackedFirst(text, i, n + 1)
  {
    hide ByteAt, AddByte;
  }

  lemma AllBytes(text: Text, i: nat)
    requires 2 <= LeadingOnes(ByteAt(text, i)) <= 4
    ensures PackedFirst(text, i, LeadingOnes(ByteAt(text, i))) == Packed(text, i)
  {
    hide LeadingOnes, ByteAt;
  }

  lemma TailIsKeyword(first: char, k: nat, i: nat)
    requires k <= |KEYWORDS| && i < |TailsFrom(first, k)|
    ensures TailsFrom(first, k)[i].kind != Identifier
    decreases |KEYWORDS| - k
  {
    hide KEYWORDS, EncodeTail, FixedText, IsKeyword;
    KeywordsAreGood(k);
    KeywordIsNoName(KEYWORDS[k].kind);
    if KEYWORDS[k].lexeme[0] == first {
      if i > 0 {
        TailIsKeyword(first, k + 1, i - 1);
      }
    } else {
      TailIsKeyword(first, k + 1, i);
    }
  }

  /** A NUL in a word follows a byte that is not ASCII. */
  lemma {:induction false} WordNuls(text: Text, i: nat, config: Config)
    requires i < |text| && IsWordStart(text[i])
    ensures NulsAreInside(text[i..WordEnd(text, i + 1, config)])
  {
    hide WordEnd, IsAscii;
    var word := text[i..WordEnd(text, i + 1, config)];
    forall k | 0 <= k < |word| && word[k] == '\0' ensures exists j :: 0 <= j < k && !IsAscii(word[j]) {
      var j := WordNul(text, i + 1, config, i + k);
      assert !IsAscii(word[j - i]);
    }
  }

  lemma {:induction false} WordNul(text: Text, i: nat, config: Config, k: nat) returns (j: nat)
    requires i <= |text| && i <= k < WordEnd(text, i, config) && text[k] == '\0'
    ensures i <= j < k && !IsAscii(text[j])
    decreases |text| - i
  {
    if IsAsciiIdentifierChar(text[i]) {
      j := WordNul(text, i + 1, config, k);
    } else {
      j := i;
    }
  }

  lemma NoTailsNoKeyword(text: Text, i: nat, config: Config)
    requires i < |text| && IsBytes(text) && IsWordStart(text[i]) && TailsFrom(text[i], 0) == []
    ensures WordKind(text[i..WordEnd(text, i + 1, config)]) == Identifier
  {
    hide WordEnd, TailsFrom, FirstMatch;
    var word := text[i..WordEnd(text, i + 1, config)];
    WordNuls(text, i, config);
    assert word[0] == text[i];
    LookupIsExact(word, 0);
  }
}
