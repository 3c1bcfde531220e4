/** Which reports the lexer makes: for every message exactly where, and in which order. */
module LexicalReports {
  import opened Tokens
  import opened SourceText
  import opened Unicode
  import opened Keywords
  import opened Lexical
  import opened LexicalLaws
  import opened LexicalSteps
  import Tiling

  // ---------------------------------------------------------------- the steps of a run

  /** Lexing from `i` on makes a step at `j`. */
  ghost predicate MakesStep(text: Text, i: nat, j: nat, config: Config)
    requires i <= |text|
    decreases |text| - i
  {
    && At(text, i) != '\0'
    && (i == j || (StepAdvances(text, i, config); MakesStep(text, Step(text, i, config).next, j, config)))
  }

  /** Lexing from `i` on stops at `k`, at a NUL or at the end. */
  ghost predicate StopsAt(text: Text, i: nat, k: nat, config: Config)
    requires i <= |text|
    decreases |text| - i
  {
    if At(text, i) == '\0' then i == k
    else StepAdvances(text, i, config); StopsAt(text, Step(text, i, config).next, k, config)
  }

  lemma {:induction false} StepsAreInText(text: Text, i: nat, j: nat, config: Config)
    requires i <= |text| && MakesStep(text, i, j, config)
    ensures i <= j < |text| && text[j] != '\0'
    decreases |text| - i
  {
    hide Step;
    if i != j {
      StepAdvances(text, i, config);
      StepsAreInText(text, Step(text, i, config).next, j, config);
    }
  }

  /** Every report is made by a step, or at the NUL where lexing stops. */
  lemma {:induction false} ReportHasStep(text: Text, i: nat, config: Config, r: Report) returns (j: nat)
    requires i <= |text| && r in LexFrom(text, i, config).reports
    ensures j < |text|
    ensures || (MakesStep(text, i, j, config) && r in Step(text, j, config).reports)
            || (StopsAt(text, i, j, config) && r == Report(InvalidCharacter, j))
    decreases |text| - i
  {
    hide Step;
    j := i;
    if At(text, i) != '\0' && r !in Step(text, i, config).reports {
      StepAdvances(text, i, config);
      j := ReportHasStep(text, Step(text, i, config).next, config, r);
    }
  }

  lemma {:induction false} StepReportIsMade(text: Text, i: nat, j: nat, config: Config, r: Report)
    requires i <= |text| && MakesStep(text, i, j, config) && j < |text| && r in Step(text, j, config).reports
    ensures r in LexFrom(text, i, config).reports
    decreases |text| - i
  {
    hide Step;
    if i != j {
      StepAdvances(text, i, config);
      StepReportIsMade(text, Step(text, i, config).next, j, config, r);
    }
  }

  lemma {:induction false} NulIsReported(text: Text, i: nat, k: nat, config: Config)
    requires i <= |text| && StopsAt(text, i, k, config) && k < |text|
    ensures Report(InvalidCharacter, k) in LexFrom(text, i, config).reports
    decreases |text| - i
  {
    hide Step;
    if At(text, i) != '\0' {
      StepAdvances(text, i, config);
      NulIsReported(text, Step(text, i, config).next, k, config);
    }
  }

  // ---------------------------------------------------------------- the reports of one step

  predicate IsQuote(c: char) {
    c == '"' || c == '\''
  }

  /** A literal opens at `i` and a newline at `k` comes before its closing quote. */
  ghost predicate LacksQuote(text: Text, i: nat, k: nat) {
    i < |text| && IsQuote(text[i]) && FirstQuoteStop(text, i, i + 1, k) && At(text, k) == '\n'
  }

  /** A block comment opens at `i` that no markers close. */
  ghost predicate LacksMarkers(text: Text, i: nat) {
    i + 1 < |text| && text[i] == '/' && text[i + 1] == '*' && NeverCloses(Markers(text, i + 2), 1)
  }

  lemma OneQuoteStop(text: Text, i: nat, k: nat, l: nat)
    requires FirstQuoteStop(text, i, i + 1, k) && FirstQuoteStop(text, i, i + 1, l)
    ensures k == l
  {
    hide StopsLine, ClosesQuote;
  }

  /** The identifier characters from `j` on go up to `k`. */
  ghost predicate WordGoesTo(text: Text, j: nat, k: nat, config: Config)
    requires j <= |text|
    decreases |text| - j
  {
    || j == k
    || (j < |text| && IsAsciiIdentifierChar(text[j]) && WordGoesTo(text, j + 1, k, config))
    || (j < |text| && !IsAscii(text[j]) && CharIn(text, j, config.continuation)
        && WordGoesTo(text, CharEnd(text, j), k, config))
  }

  /** From `j` on there are identifier characters up to `k`, and at `k` a character outside ASCII that is none. */
  ghost predicate WordBreaks(text: Text, j: nat, k: nat, config: Config) {
    && j <= |text| && WordGoesTo(text, j, k, config)
    && k < |text| && !IsAscii(text[k]) && !CharIn(text, k, config.continuation)
  }

  lemma {:induction false} WordReportsBreaks(text: Text, j: nat, config: Config, r: Report)
    requires j <= |text|
    ensures r in WordReports(text, j, config) <==> r.message == InvalidCharacter && WordBreaks(text, j, r.offset, config)
    decreases |text| - j
  {
    hide CharIn, CharEnd, IsAscii, IsAsciiIdentifierChar;
    NulIsPlain();
    if j < |text| {
      if IsAsciiIdentifierChar(text[j]) {
        IdentifiersAreAscii(text[j]);
        WordReportsBreaks(text, j + 1, config, r);
      } else if !IsAscii(text[j]) && CharIn(text, j, config.continuation) {
        WordReportsBreaks(text, CharEnd(text, j), config, r);
      }
    }
  }

  lemma NulIsPlain()
    ensures IsAscii('\0') && !IsAsciiIdentifierChar('\0')
  {
  }

  lemma IdentifiersAreAscii(c: char)
    requires IsAsciiIdentifierChar(c)
    ensures IsAscii(c)
  {
  }

  /** A word begins at `i`, and its second character is at the result. */
  function SecondOfWord(text: Text, i: nat): nat
    requires i < |text|
  {
    if IsAscii(text[i]) then i + 1 else CharEnd(text, i)
  }

  ghost predicate BeginsWord(text: Text, i: nat, config: Config)
    requires i < |text|
  {
    IsWordStart(text[i]) || (!IsAscii(text[i]) && CharIn(text, i, config.start))
  }

  /** No token begins at `i`: a stray byte, or a wide character that begins no identifier. */
  ghost predicate BeginsNothing(text: Text, i: nat, config: Config)
    requires i < |text|
  {
    IsStray(text[i]) || (!IsAscii(text[i]) && !CharIn(text, i, config.start))
  }

  /** The report `r` is what the step at `i` has to report. */
  ghost predicate IsDue(text: Text, i: nat, config: Config, r: Report)
    requires i < |text|
  {
    match r.message
    case MissingClosingQuote => LacksQuote(text, i, r.offset)
    case UnterminatedBlockComment => LacksMarkers(text, i) && r.offset == i
    case InvalidCharacter =>
      || (BeginsNothing(text, i, config) && r.offset == i)
      || (BeginsWord(text, i, config) && WordBreaks(text, SecondOfWord(text, i), r.offset, config))
    case SourceFileTooLarge => false
  }

  lemma {:induction false} QuoteIsDue(text: Text, i: nat, config: Config, r: Report)
    requires i < |text| && IsQuote(text[i])
    ensures r in Step(text, i, config).reports <==> IsDue(text, i, config, r)
  {
    hide FirstQuoteStop, StopsLine, Markers, NeverCloses, Step, MakeToken, WordBreaks, CharIn, CharEnd;
    QuoteIsNothingElse(text[i]);
    var k := QuotesAreRead(text, i, config);
    if r.message == MissingClosingQuote && LacksQuote(text, i, r.offset) {
      OneQuoteStop(text, i, k, r.offset);
    }
  }

  lemma QuoteIsNothingElse(c: char)
    requires IsQuote(c)
    ensures IsAscii(c) && !IsStray(c) && !IsWordStart(c) && c != '/'
  {
  }

  lemma {:induction false} CommentIsDue(text: Text, i: nat, config: Config, r: Report)
    requires i < |text| && StartsComment(text, i)
    ensures r in Step(text, i, config).reports <==> IsDue(text, i, config, r)
  {
    hide FirstQuoteStop, Step, MakeToken, WordBreaks, CharIn, CharEnd, ClosesWith, LineEnd, Markers;
    SlashIsNothingElse();
    if text[i + 1] == '/' {
      LineCommentsAreRead(text, i, config);
    } else {
      var n := BlockCommentsAreRead(text, i, config);
    }
  }

  lemma SlashIsNothingElse()
    ensures IsAscii('/') && !IsStray('/') && !IsWordStart('/') && !IsQuote('/')
  {
  }

  /** The class of the first byte decides about words and what is no token. */
  lemma BeginningsDiffer(c: char)
    requires c != '\0' && c as int < 256
    ensures IsWordStart(c) ==> IsAscii(c) && !IsStray(c) && !IsQuote(c) && c != '/'
    ensures IsWhitespace(c) || IsDecimalDigit(c) || c == '.' || OneChar(c) != EndOfFile ==>
              IsAscii(c) && !IsStray(c) && !IsQuote(c) && !IsWordStart(c)
    ensures !IsAscii(c) ==>
              && !IsWhitespace(c) && !IsWordStart(c) && !IsDecimalDigit(c) && c != '.' && !IsQuote(c) && c != '/'
              && OneChar(c) == EndOfFile
    ensures IsAscii(c) && !IsWhitespace(c) && !IsWordStart(c) && !IsDecimalDigit(c) && c != '.' && !IsQuote(c) ==>
              (OneChar(c) == EndOfFile <==> IsStray(c))
  {
  }

  lemma {:induction false} WordIsDue(text: Text, i: nat, config: Config, r: Report)
    requires i < |text| && IsWordStart(text[i]) && text[i] as int < 256
    ensures r in Step(text, i, config).reports <==> IsDue(text, i, config, r)
  {
    hide FirstQuoteStop, StopsLine, Markers, NeverCloses, Step, WordToken, WordBreaks, WordEnd, WordReports, CharIn,
         CharEnd, IsWordStart, IsStray, IsAscii, IsQuote, OneChar, IsWhitespace, IsDecimalDigit;
    NulIsNoWord();
    BeginningsDiffer(text[i]);
    WordStep(text, i, config);
    WordReportsBreaks(text, i + 1, config, r);
  }

  lemma NulIsNoWord()
    ensures !IsWordStart('\0')
  {
  }

  lemma {:induction false} OtherIsDue(text: Text, i: nat, config: Config, r: Report)
    requires i < |text| && !IsAscii(text[i]) && text[i] as int < 256
    ensures r in Step(text, i, config).reports <==> IsDue(text, i, config, r)
  {
    hide FirstQuoteStop, StopsLine, Markers, NeverCloses, Step, MakeToken, WordBreaks, WordEnd, WordReports, CharIn,
         CharEnd, IsWordStart, IsStray, IsAscii, IsQuote, OneChar, IsWhitespace, IsDecimalDigit;
    NulIsPlain();
    BeginningsDiffer(text[i]);
    WideStep(text, i, config);
    StrayIsNoStart(text, i, config);
    WordReportsBreaks(text, CharEnd(text, i), config, r);
  }

  lemma StrayIsNoStart(text: Text, i: nat, config: Config)
    requires i < |text|
    ensures IsStray(text[i]) ==> !CharIn(text, i, config.start)
  {
    hide IsStray, LeadingOnes, ScalarOf, Packed, InTable;
    if IsStray(text[i]) {
      StrayLeads(text[i]);
    }
  }

  lemma {:induction false} NothingIsDue(text: Text, i: nat, config: Config, r: Report)
    requires i < |text| && text[i] != '\0' && text[i] as int < 256 && !StartsComment(text, i)
    requires IsWhitespace(text[i]) || IsDecimalDigit(text[i]) || text[i] == '.' || OneChar(text[i]) != EndOfFile
    ensures Step(text, i, config).reports == [] && !IsDue(text, i, config, r)
  {
    hide FirstQuoteStop, StopsLine, Markers, NeverCloses, WordBreaks, CharIn, CharEnd, IsWordStart, IsStray, IsAscii,
         IsQuote, OneChar, IsWhitespace, IsDecimalDigit, ScanWord, ScanNumber, ScanDot, ScanComment, ScanQuote,
         ScanOther, OperatorTokens, OperatorEnd;
    BeginningsDiffer(text[i]);
    NumberReports(text, i);
    QuotesAreQuotes(text[i]);
  }

  lemma QuotesAreQuotes(c: char)
    ensures IsQuote(c) <==> c == '"' || c == '\''
  {
  }

  /** A stray byte of ASCII. */
  lemma {:induction false} StrayIsDue(text: Text, i: nat, config: Config, r: Report)
    requires i < |text| && IsStray(text[i])
    ensures r in Step(text, i, config).reports <==> IsDue(text, i, config, r)
  {
    hide FirstQuoteStop, StopsLine, Markers, NeverCloses, Step, WordBreaks, CharIn, CharEnd, IsStray, OneChar;
    StrayIsNothing(text[i]);
    StrayBytesAreReported(text, i, config);
    StrayIsNoStart(text, i, config);
  }

  /** A step reports exactly what is due. */
  lemma {:induction false} StepReportsAreDue(text: Text, i: nat, config: Config, r: Report)
    requires i < |text| && text[i] != '\0' && text[i] as int < 256
    ensures r in Step(text, i, config).reports <==> IsDue(text, i, config, r)
  {
    hide Step, IsDue, IsAscii, IsStray, IsQuote, OneChar, IsWhitespace, IsWordStart, IsDecimalDigit;
    var c := text[i];
    BeginningsDiffer(c);
    if StartsComment(text, i) {
      CommentIsDue(text, i, config, r);
    } else if IsWhitespace(c) || IsDecimalDigit(c) || c == '.' || OneChar(c) != EndOfFile {
      NothingIsDue(text, i, config, r);
    } else if IsWordStart(c) {
      WordIsDue(text, i, config, r);
    } else if IsQuote(c) {
      QuoteIsDue(text, i, config, r);
    } else if IsAscii(c) {
      StrayIsDue(text, i, config, r);
    } else {
      OtherIsDue(text, i, config, r);
    }
  }

  // ---------------------------------------------------------------- main results

  /** Some step of lexing the text has to report `r`. */
  ghost predicate IsDueSomewhere(text: Text, config: Config, r: Report) {
    exists i: nat :: IsDueAt(text, i, config, r)
  }

  ghost predicate IsDueAt(text: Text, i: nat, config: Config, r: Report) {
    i < |text| && MakesStep(text, 0, i, config) && IsDue(text, i, config, r)
  }

  /** Exactly the reports that are due are made, and one about a NUL inside the text. */
  lemma {:induction false} ReportsAreDue(text: Text, config: Config, r: Report)
    requires IsBytes(text) && |text| <= SOURCE_SIZE_MAX
    ensures r in Lex(text, config).reports <==>
              || IsDueSomewhere(text, config, r)
              || (r.message == InvalidCharacter && r.offset < |text| && StopsAt(text, 0, r.offset, config))
  {
    hide LexFrom, Step, IsDue, MakesStep, StopsAt;
    if r in Lex(text, config).reports {
      var j := ReportHasStep(text, 0, config, r);
      if MakesStep(text, 0, j, config) && r in Step(text, j, config).reports {
        StepsAreInText(text, 0, j, config);
        StepReportsAreDue(text, j, config, r);
        assert IsDueAt(text, j, config, r);
      }
    }
    if IsDueSomewhere(text, config, r) {
      var i: nat :| IsDueAt(text, i, config, r);
      StepsAreInText(text, 0, i, config);
      StepReportsAreDue(text, i, config, r);
      StepReportIsMade(text, 0, i, config, r);
    }
    if r.message == InvalidCharacter && r.offset < |text| && StopsAt(text, 0, r.offset, config) {
      NulIsReported(text, 0, r.offset, config);
    }
  }

  /** A missing quote is reported exactly at the newlines that come before the closing quote of a literal. */
  lemma {:induction false} MissingQuotesAreReported(text: Text, config: Config, k: nat)
    requires IsBytes(text) && |text| <= SOURCE_SIZE_MAX
    ensures Report(MissingClosingQuote, k) in Lex(text, config).reports
            <==> exists i: nat :: MakesStep(text, 0, i, config) && LacksQuote(text, i, k)
  {
    hide Lex, MakesStep, LacksQuote, LacksMarkers, BeginsWord, BeginsNothing, WordBreaks;
    var r := Report(MissingClosingQuote, k);
    ReportsAreDue(text, config, r);
    if IsDueSomewhere(text, config, r) {
      var i: nat :| IsDueAt(text, i, config, r);
      assert LacksQuote(text, i, k);
    }
    if i: nat :| MakesStep(text, 0, i, config) && LacksQuote(text, i, k) {
      StepsAreInText(text, 0, i, config);
      assert IsDueAt(text, i, config, r);
    }
  }

  /** An unterminated comment is reported exactly where a block comment begins that no markers close. */
  lemma {:induction false} UnterminatedCommentsAreReported(text: Text, config: Config, i: nat)
    requires IsBytes(text) && |text| <= SOURCE_SIZE_MAX
    ensures Report(UnterminatedBlockComment, i) in Lex(text, config).reports
            <==> MakesStep(text, 0, i, config) && LacksMarkers(text, i)
  {
    hide Lex, MakesStep, LacksQuote, LacksMarkers, BeginsWord, BeginsNothing, WordBreaks;
    var r := Report(UnterminatedBlockComment, i);
    ReportsAreDue(text, config, r);
    if MakesStep(text, 0, i, config) && LacksMarkers(text, i) {
      StepsAreInText(text, 0, i, config);
      assert IsDueAt(text, i, config, r);
    }
  }

  /** The size of a source is reported exactly if it does not fit, and then nothing else is. */
  lemma {:induction false} LargeSourcesAreReported(text: Text, config: Config, k: nat)
    requires IsBytes(text)
    ensures Report(SourceFileTooLarge, k) in Lex(text, config).reports <==> |text| > SOURCE_SIZE_MAX && k == 0
    ensures |text| > SOURCE_SIZE_MAX ==> |Lex(text, config).reports| == 1
    ensures Masked(SOURCE_SIZE_MAX) == SOURCE_SIZE_MAX && Masked(SOURCE_SIZE_MAX + 1) == 0
  {
    hide LexFrom, LacksQuote, LacksMarkers, BeginsWord, BeginsNothing, WordBreaks, StopsAt, MakesStep;
    if |text| <= SOURCE_SIZE_MAX {
      ReportsAreDue(text, config, Report(SourceFileTooLarge, k));
    }
  }

  // ---------------------------------------------------------------- the end

  lemma {:induction false} LexFromEnds(text: Text, i: nat, config: Config)
    requires i <= |text| <= SOURCE_SIZE_MAX
    ensures var tokens := LexFrom(text, i, config).tokens;
            tokens != [] && Tiling.Last(tokens).kind == EndOfFile && StopsAt(text, i, Tiling.Last(tokens).offset, config)
    decreases |text| - i
  {
    hide Step, Masked;
    Tiling.MaskKeeps(i);
    if At(text, i) != '\0' {
      StepAdvances(text, i, config);
      LexFromEnds(text, Step(text, i, config).next, config);
    }
  }

  /** The end-of-file token stands where lexing stops: at the end, or at a NUL at which a step would begin. */
  lemma {:induction false} EndIsWhereLexingStops(text: Text, config: Config)
    requires |text| <= SOURCE_SIZE_MAX
    ensures var tokens := Lex(text, config).tokens;
            tokens != [] && Tiling.Last(tokens).kind == EndOfFile && StopsAt(text, 0, Tiling.Last(tokens).offset, config)
  {
    hide LexFrom, StopsAt;
    LexFromEnds(text, 0, config);
  }

  // ---------------------------------------------------------------- order

  /** A word breaks before it ends. */
  lemma {:induction false} WordReportsPlace(text: Text, i: nat, config: Config)
    requires i <= |text|
    ensures forall r :: r in WordReports(text, i, config) ==> i <= r.offset < WordEnd(text, i, config)
    decreases |text| - i
  {
    hide CharIn, CharEnd, IsAscii, IsAsciiIdentifierChar;
    if At(text, i) != '\0' {
      WordReportsPlace(text, i + 1, config);
      WordReportsPlace(text, CharEnd(text, i), config);
    }
  }

  /** A step reports inside the bytes that it passes, except for the newline in front of which a literal ends. */
  lemma {:induction false} StepReportsPlace(text: Text, i: nat, config: Config)
    requires i < |text| && text[i] != '\0'
    ensures var scan := Step(text, i, config);
            forall r :: r in scan.reports ==>
              && i <= r.offset <= scan.next && (r.offset == scan.next ==> At(text, scan.next) == '\n')
              && (text[i] == '\n' ==> i < r.offset)
  {
    hide WordEnd, WordReports, WordToken, CharIn, CharEnd, ScanNumber, ScanDot, OperatorTokens, OperatorEnd, OneChar,
         CommentEnd, LineEnd, QuoteEnd, QuoteUnclosed, FirstQuoteStop, MakeToken;
    NumberReports(text, i);
    WordReportsPlace(text, i + 1, config);
    WordReportsPlace(text, CharEnd(text, i), config);
    if IsQuote(text[i]) {
      var k := QuoteEndsFirst(text, i, i + 1);
    }
  }

  ghost predicate Increasing(reports: seq<Report>) {
    forall a, b :: 0 <= a < b < |reports| ==> reports[a].offset < reports[b].offset
  }

  lemma {:induction false} LexFromIncreases(text: Text, i: nat, config: Config)
    requires i <= |text|
    ensures Increasing(LexFrom(text, i, config).reports)
    ensures forall r :: r in LexFrom(text, i, config).reports ==>
              i <= r.offset && (At(text, i) == '\n' ==> i < r.offset)
    decreases |text| - i
  {
    hide Step;
    if At(text, i) != '\0' {
      StepAdvances(text, i, config);
      var scan := Step(text, i, config);
      StepReportsPlace(text, i, config);
      Tiling.StepReports(text, i, config);
      LexFromIncreases(text, scan.next, config);
    }
  }

  /** The reports are in the order of the text, and no offset has two. */
  lemma {:induction false} ReportsIncrease(text: Text, config: Config)
    ensures Increasing(Lex(text, config).reports)
  {
    hide LexFrom;
    if |text| <= SOURCE_SIZE_MAX {
      LexFromIncreases(text, 0, config);
    }
  }
}
