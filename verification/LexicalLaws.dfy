/** Where comments, quotes, numbers and operators end, in terms that do not follow the scanning. */
module LexicalLaws {
  import opened Tokens
  import opened SourceText
  import opened Unicode
  import opened Keywords
  import opened Lexical

  // ---------------------------------------------------------------- block comments

  /** An opening or closing comment marker, and the offset behind it. */
  datatype Marker = Marker(opens: bool, end: nat)

  /** The markers of a text read from left to right, without overlap. */
  function Markers(text: Text, i: nat): seq<Marker>
    requires i <= |text|
    decreases |text| - i
  {
    if i >= |text| then []
    else if text[i] == '*' && At(text, i + 1) == '/' then [Marker(false, i + 2)] + Markers(text, i + 2)
    else if text[i] == '/' && At(text, i + 1) == '*' then [Marker(true, i + 2)] + Markers(text, i + 2)
    else Markers(text, i + 1)
  }

  /** How many more markers open than close among the first `n`. */
  function Balance(markers: seq<Marker>, n: nat): int
    requires n <= |markers|
  {
    if n == 0 then 0 else Balance(markers[1..], n - 1) + if markers[0].opens then 1 else -1
  }

  /** The first `n` markers bring the depth down to 0, and no fewer do. */
  ghost predicate ClosesWith(markers: seq<Marker>, depth: nat, n: nat) {
    && 0 < n <= |markers|
    && depth + Balance(markers, n) == 0
    && forall m :: 0 <= m < n ==> depth + Balance(markers, m) > 0
  }

  ghost predicate NeverCloses(markers: seq<Marker>, depth: nat) {
    forall n: nat :: !ClosesWith(markers, depth, n)
  }

  lemma BalanceLater(first: Marker, rest: seq<Marker>, n: nat)
    requires n <= |rest|
    ensures Balance([first] + rest, n + 1) == Balance(rest, n) + if first.opens then 1 else -1
  {
    assert ([first] + rest)[1..] == rest;
  }

  lemma {:induction false} ClosesWithLater(first: Marker, rest: seq<Marker>, depth: nat, n: nat)
    requires depth > 0 && n <= |rest| && (first.opens || depth > 1)
    ensures ClosesWith([first] + rest, depth, n + 1)
            <==> ClosesWith(rest, if first.opens then depth + 1 else depth - 1, n)
  {
    var all := [first] + rest;
    var next: nat := if first.opens then depth + 1 else depth - 1;
    BalanceLater(first, rest, n);
    if ClosesWith(all, depth, n + 1) {
      forall m | 0 <= m < n ensures next + Balance(rest, m) > 0 {
        BalanceLater(first, rest, m);
      }
    }
    if ClosesWith(rest, next, n) {
      forall m | 0 <= m < n + 1 ensures depth + Balance(all, m) > 0 {
        if m > 0 {
          BalanceLater(first, rest, m - 1);
        }
      }
    }
  }

  /** A block comment ends behind the first marker that brings the depth to 0, and is unclosed if there is none. */
  lemma {:induction false} CommentEndsAtDepthZero(text: Text, i: nat, depth: nat) returns (n: nat)
    requires i <= |text| && depth > 0
    ensures match CommentEnd(text, i, depth)
            case ClosedAt(end) => ClosesWith(Markers(text, i), depth, n) && Markers(text, i)[n - 1].end == end
            case Unclosed => NeverCloses(Markers(text, i), depth)
    decreases |text| - i
  {
    var markers := Markers(text, i);
    if i >= |text| {
      n := 0;
    } else if text[i] == '*' && At(text, i + 1) == '/' && depth == 1 {
      n := 1;
      assert Balance(markers, 0) == 0 && Balance(markers, 1) == -1 + Balance(markers[1..], 0);
    } else if (text[i] == '*' && At(text, i + 1) == '/') || (text[i] == '/' && At(text, i + 1) == '*') {
      var rest := Markers(text, i + 2);
      var next := if markers[0].opens then depth + 1 else depth - 1;
      var m := CommentEndsAtDepthZero(text, i + 2, next);
      n := m + 1;
      assert markers == [markers[0]] + rest;
      if CommentEnd(text, i, depth).ClosedAt? {
        ClosesWithLater(markers[0], rest, depth, m);
      } else {
        forall k: nat ensures !ClosesWith(markers, depth, k) {
          if 0 < k <= |markers| {
            ClosesWithLater(markers[0], rest, depth, k - 1);
          }
        }
      }
    } else {
      n := CommentEndsAtDepthZero(text, i + 1, depth);
    }
  }

  lemma {:induction false} MarkersTakeTwoBytes(text: Text, i: nat)
    requires i <= |text|
    ensures 2 * |Markers(text, i)| <= |text| - i
    decreases |text| - i
  {
    if i < |text| {
      MarkersTakeTwoBytes(text, i + 1);
      if i + 2 <= |text| {
        MarkersTakeTwoBytes(text, i + 2);
      }
    }
  }

  lemma {:induction false} BalanceBound(markers: seq<Marker>, n: nat)
    requires n <= |markers|
    ensures Balance(markers, n) <= n
  {
    if n > 0 {
      BalanceBound(markers[1..], n - 1);
    }
  }

  /** The nesting depth never needs more than 23 bits. */
  lemma {:induction false} DepthFits(text: Text, i: nat, n: nat)
    requires 2 <= i <= |text| <= SOURCE_SIZE_MAX && n <= |Markers(text, i)|
    ensures 1 + Balance(Markers(text, i), n) < 0x80_0000
  {
    MarkersTakeTwoBytes(text, i);
    BalanceBound(Markers(text, i), n);
  }

  /** A text that is one complete block comment. */
  ghost predicate IsClosedComment(c: Text) {
    |c| >= 2 && c[..2] == "/*" && CommentEnd(c, 2, 1) == ClosedAt(|c|)
  }

  lemma SameBehind(c: Text, w: Text, k: nat)
    requires |w| >= |c| + 2 && w[2..|c| + 2] == c
    ensures k < |c| ==> w[k + 2] == c[k]
  {
    if k < |c| {
      assert w[k + 2] == w[2..|c| + 2][k];
    }
  }

  /** Inside another comment the same markers are read, one level deeper. */
  lemma {:induction false} InnerComment(c: Text, w: Text, j: nat, depth: nat)
    requires j <= |c| && depth > 0 && |w| >= |c| + 2 && w[2..|c| + 2] == c
    requires CommentEnd(c, j, depth) == ClosedAt(|c|)
    ensures CommentEnd(w, j + 2, depth + 1) == CommentEnd(w, |c| + 2, 1)
    decreases |c| - j
  {
    SameBehind(c, w, j);
    SameBehind(c, w, j + 1);
    if c[j] == '*' && At(c, j + 1) == '/' {
      if depth > 1 {
        InnerComment(c, w, j + 2, depth - 1);
      }
    } else if c[j] == '/' && At(c, j + 1) == '*' {
      InnerComment(c, w, j + 2, depth + 1);
    } else {
      InnerComment(c, w, j + 1, depth);
    }
  }

  /** Block comments nest: a complete comment between comment markers is a complete comment. */
  lemma {:induction false} CommentsNest(c: Text)
    requires IsClosedComment(c)
    ensures IsClosedComment("/*" + c + "*/")
  {
    var w := "/*" + c + "*/";
    assert w[2..|c| + 2] == c;
    assert w[2] == c[0] == c[..2][0] && w[3] == c[1] == c[..2][1];
    InnerComment(c, w, 2, 1);
    assert CommentEnd(w, 2, 1) == CommentEnd(w, 4, 2);
  }

  // ---------------------------------------------------------------- line comments and quotes

  /** A newline, a NUL, or the end of the text. */
  ghost predicate StopsLine(text: Text, k: nat) {
    At(text, k) == '\0' || At(text, k) == '\n'
  }

  /** A line comment goes up to the first newline, NUL or end of the text. */
  lemma {:induction false} LineEndsFirst(text: Text, i: nat)
    requires i <= |text|
    ensures StopsLine(text, LineEnd(text, i))
    ensures forall k :: i <= k < LineEnd(text, i) ==> !StopsLine(text, k)
    decreases |text| - i
  {
    if !StopsLine(text, i) {
      LineEndsFirst(text, i + 1);
    }
  }

  /** Directly before `k` there are `n` backslashes, and no more of them from `from` on. */
  ghost predicate BackslashRun(text: Text, from: nat, k: nat, n: nat)
    requires from <= k <= |text|
  {
    && n <= k - from
    && (forall m :: k - n <= m < k ==> text[m] == '\\')
    && (k - n > from ==> text[k - n - 1] != '\\')
  }

  lemma {:induction false} BackslashesAreRun(text: Text, from: nat, k: nat)
    requires from <= k <= |text|
    ensures BackslashRun(text, from, k, Backslashes(text, from, k))
    decreases k
  {
    if from < k && text[k - 1] == '\\' {
      BackslashesAreRun(text, from, k - 1);
    }
  }

  lemma OneBackslashRun(text: Text, from: nat, k: nat, n: nat)
    requires from <= k <= |text| && BackslashRun(text, from, k, n)
    ensures n == Backslashes(text, from, k)
  {
    hide Backslashes;
    BackslashesAreRun(text, from, k);
  }

  /** A quote of the kind that opened at `i`, behind an even number of backslashes inside the literal. */
  ghost predicate ClosesQuote(text: Text, i: nat, k: nat)
    requires i < k <= |text|
  {
    k < |text| && text[k] == text[i] && exists n :: n % 2 == 0 && BackslashRun(text, i + 1, k, n)
  }

  lemma ParityCloses(text: Text, i: nat, k: nat)
    requires i < k <= |text|
    ensures ClosesQuote(text, i, k) <==> k < |text| && text[k] == text[i] && Backslashes(text, i + 1, k) % 2 == 0
  {
    hide Backslashes, BackslashRun;
    BackslashesAreRun(text, i + 1, k);
    if ClosesQuote(text, i, k) {
      var n :| n % 2 == 0 && BackslashRun(text, i + 1, k, n);
      OneBackslashRun(text, i + 1, k, n);
    }
  }

  /** The literal that opened at `i` runs up to the first place from `from` on that stops or closes it. */
  ghost predicate FirstQuoteStop(text: Text, i: nat, from: nat, k: nat) {
    && i < from <= k <= |text|
    && (StopsLine(text, k) || ClosesQuote(text, i, k))
    && forall j :: from <= j < k ==> !StopsLine(text, j) && !ClosesQuote(text, i, j)
  }

  /** A literal ends at the first place that stops or closes it; a missing quote is reported exactly at a newline. */
  lemma {:induction false} QuoteEndsFirst(text: Text, i: nat, from: nat) returns (k: nat)
    requires i < from <= |text|
    ensures FirstQuoteStop(text, i, from, k)
    ensures QuoteEnd(text, i, from) == if StopsLine(text, k) then k else k + 1
    ensures QuoteUnclosed(text, i, from) <==> At(text, k) == '\n'
    decreases |text| - from
  {
    hide Backslashes, ClosesQuote;
    ParityCloses(text, i, from);
    if StopsLine(text, from) || ClosesQuote(text, i, from) {
      k := from;
    } else {
      k := QuoteEndsFirst(text, i, from + 1);
    }
  }

  // ---------------------------------------------------------------- numbers

  /** The text from `i` to `j` is a run of digits with any whitespace before each digit. */
  ghost predicate IsDigitRun(text: Text, i: nat, j: nat, hexadecimal: bool)
    requires i <= j <= |text|
    decreases j - i
  {
    i == j || exists k :: i <= k < j && IsDigitGroup(text, i, k, hexadecimal) && IsDigitRun(text, k + 1, j, hexadecimal)
  }

  /** Whitespace from `i` on, and a digit at `k`. */
  ghost predicate IsDigitGroup(text: Text, i: nat, k: nat, hexadecimal: bool)
    requires i <= k < |text|
  {
    IsDigit(text[k], hexadecimal) && forall m :: i <= m < k ==> IsWhitespace(text[m])
  }

  lemma DigitIsNoWhitespace(c: char, hexadecimal: bool)
    ensures IsDigit(c, hexadecimal) ==> !IsWhitespace(c)
  {
  }

  lemma DigitGroupEnds(text: Text, i: nat, m: nat, hexadecimal: bool)
    requires i <= m < |text| && IsDigitGroup(text, i, m, hexadecimal)
    ensures m == SkipWhitespace(text, i) && IsDigit(text[m], hexadecimal)
  {
    hide IsDigit, IsWhitespace;
    DigitIsNoWhitespace(text[m], hexadecimal);
  }

  /** A run begins with the first byte that is not whitespace. */
  lemma RunGoesOn(text: Text, i: nat, j: nat, hexadecimal: bool)
    requires i < j <= |text| && IsDigitRun(text, i, j, hexadecimal)
    ensures var k := SkipWhitespace(text, i);
            k < j && IsDigit(text[k], hexadecimal) && IsDigitRun(text, k + 1, j, hexadecimal)
  {
    hide IsDigit, IsWhitespace, SkipWhitespace, IsDigitGroup;
    var k :| i <= k < j && IsDigitGroup(text, i, k, hexadecimal) && IsDigitRun(text, k + 1, j, hexadecimal);
    DigitGroupEnds(text, i, k, hexadecimal);
  }

  lemma {:induction false} DigitsAreRun(text: Text, i: nat, hexadecimal: bool)
    requires i <= |text|
    ensures IsDigitRun(text, i, DigitsEnd(text, i, hexadecimal), hexadecimal)
    decreases |text| - i
  {
    hide IsDigit, IsWhitespace;
    var k := SkipWhitespace(text, i);
    if k < |text| && IsDigit(text[k], hexadecimal) {
      DigitsAreRun(text, k + 1, hexadecimal);
      assert IsDigitGroup(text, i, k, hexadecimal);
    }
  }

  lemma {:induction false} RunIsTaken(text: Text, i: nat, j: nat, hexadecimal: bool)
    requires i <= j <= |text| && IsDigitRun(text, i, j, hexadecimal)
    ensures j <= DigitsEnd(text, i, hexadecimal)
    decreases |text| - i
  {
    hide IsDigit, SkipWhitespace, IsDigitRun;
    if i < j {
      RunGoesOn(text, i, j, hexadecimal);
      RunIsTaken(text, SkipWhitespace(text, i) + 1, j, hexadecimal);
    }
  }

  /** The digits that are taken are a run, and no longer prefix is one. */
  lemma {:induction false} DigitsAreMaximal(text: Text, i: nat, hexadecimal: bool)
    requires i <= |text|
    ensures IsDigitRun(text, i, DigitsEnd(text, i, hexadecimal), hexadecimal)
    ensures forall j :: i <= j <= |text| && IsDigitRun(text, i, j, hexadecimal) ==> j <= DigitsEnd(text, i, hexadecimal)
  {
    hide DigitsEnd, IsDigitRun;
    DigitsAreRun(text, i, hexadecimal);
    forall j | i <= j <= |text| && IsDigitRun(text, i, j, hexadecimal) ensures j <= DigitsEnd(text, i, hexadecimal) {
      RunIsTaken(text, i, j, hexadecimal);
    }
  }

  /** A decimal literal before a dot is one float literal exactly if the first byte behind the dot that is not
      whitespace is a digit. */
  lemma {:induction false} FloatExactlyBeforeDigit(text: Text, i: nat)
    requires i < |text|
    requires At(text, SkipWhitespace(text, DigitsEnd(text, i + 1, false))) == '.'
    ensures var dot := SkipWhitespace(text, DigitsEnd(text, i + 1, false));
            var behind := SkipWhitespace(text, dot + 1);
            && dot < |text|
            && ScanDecimal(text, i).tokens
               == if IsDecimalDigit(At(text, behind)) then
                    [MakeToken(FloatLiteral, i, DigitsEnd(text, behind + 1, false) - i)]
                  else
                    [MakeToken(DecIntLiteral, i, DigitsEnd(text, i + 1, false) - i), MakeToken(Dot, dot, 0)]
  {
    hide DigitsEnd, SkipWhitespace, IsDecimalDigit, MakeToken;
    DigitsBehind(text, SkipWhitespace(text, DigitsEnd(text, i + 1, false)) + 1);
  }

  lemma DigitsBehind(text: Text, j: nat)
    requires j <= |text|
    ensures var k := SkipWhitespace(text, j);
            if IsDecimalDigit(At(text, k)) then k < |text| && DigitsEnd(text, j, false) == DigitsEnd(text, k + 1, false) > j
            else DigitsEnd(text, j, false) == j
  {
    hide SkipWhitespace;
  }

  // ---------------------------------------------------------------- operators

  ghost predicate HasPrefix(text: Text, i: nat, lexeme: string) {
    i + |lexeme| <= |text| && text[i..i + |lexeme|] == lexeme
  }

  /** No operator of the language that stands at `i` is longer than what is taken. */
  lemma {:induction false} OperatorsAreLongest(text: Text, i: nat, kind: TokenKind)
    requires i < |text| && !IsKeyword(kind) && FixedText(kind) != "" && HasPrefix(text, i, FixedText(kind))
    ensures i + |FixedText(kind)| <= OperatorEnd(text, i)
  {
    hide IsKeyword, FixedText, PairText, TripleText, OneChar, TwoChars, ThreeChars, Masked;
    var lexeme := FixedText(kind);
    FixedTextsAreShort(kind);
    assert text[i] == text[i..i + |lexeme|][0] == lexeme[0];
    if |lexeme| > 1 {
      assert text[i + 1] == text[i..i + |lexeme|][1] == lexeme[1];
    }
    if |lexeme| == 2 {
      TwoCharsFind(kind);
    }
    if |lexeme| > 2 {
      assert text[i + 2] == text[i..i + |lexeme|][2] == lexeme[2];
      ThreeCharsFind(kind);
    }
  }

  lemma FixedTextsAreShort(kind: TokenKind)
    requires !IsKeyword(kind)
    ensures |FixedText(kind)| <= 3
    ensures FixedText(kind) != "" ==> kind != EndOfFile
    ensures |FixedText(kind)| == 1 ==> FixedText(kind) == SignText(kind)
    ensures |FixedText(kind)| == 2 ==> FixedText(kind) == PairText(kind)
    ensures |FixedText(kind)| == 3 ==> FixedText(kind) == TripleText(kind)
  {
    hide FixedText, IsKeyword, SignText, PairText, TripleText;
    TextSizes(kind);
    if FixedText(kind) != "" {
      FixedCases(kind);
    }
  }

  /** The operator functions find every lexeme of two and three characters. */
  lemma TwoCharsFind(kind: TokenKind)
    requires |PairText(kind)| == 2
    ensures TwoChars(PairText(kind)[0], PairText(kind)[1]) == kind
  {
    PairFinds(kind);
    hide TwoChars, PairChars;
  }

  lemma PairFinds(kind: TokenKind)
    requires PairChars(kind) != NoPair
    ensures TwoChars(PairChars(kind).first, PairChars(kind).second) == kind
  {
    hide TwoChars, PairChars;
    if PairChars(kind).second == '=' {
      AssignmentFinds(kind);
    } else {
      OtherPairFinds(kind);
    }
  }

  lemma AssignmentFinds(kind: TokenKind)
    requires PairChars(kind) != NoPair && PairChars(kind).second == '='
    ensures TwoChars(PairChars(kind).first, '=') == kind
  {
  }

  lemma OtherPairFinds(kind: TokenKind)
    requires PairChars(kind) != NoPair && PairChars(kind).second != '='
    ensures TwoChars(PairChars(kind).first, PairChars(kind).second) == kind
  {
  }

  lemma OneCharFinds(kind: TokenKind)
    requires SignChar(kind) != '\0' && kind != Dot
    ensures OneChar(SignChar(kind)) == kind
  {
  }

  lemma ThreeCharsFind(kind: TokenKind)
    requires |TripleText(kind)| == 3
    ensures ThreeChars(TripleText(kind)[0], TripleText(kind)[1], TripleText(kind)[2]) == kind
  {
  }
}
