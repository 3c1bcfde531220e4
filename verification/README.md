# Verified model of the Cero front end

Cero is a compiler for a small language. This project models, in Dafny, its front end and the memory that the syntax
tree lives in, and proves what they promise:

- the **lexer**, which turns the bytes of a source into tokens: keywords, numbers that may contain whitespace, nested
  block comments, quotes with escapes, UTF-8 identifiers;
- the **parser**, a Pratt parser for expressions inside a recursive-descent parser for definitions, which recovers from
  errors at two levels, statements and definitions;
- the **memory arena** and the growable arrays that share it.

## How it is built

Code that steps a cursor or changes fields is a class here too, with the same methods and loops: `TokenCursors.TokenCursor`,
`Parsers.Parser`, `Lexers.SourceCursor`, `Lexers.Lexer`, `Arenas.MemoryArena`, `ArenaArrays.ArenaArray`. Switch tables
and decoding are functions. Each class method is proved equal to a function that says the same without a cursor
(`ParserSpec.dfy` for the parser, `Lexical.dfy` for the lexer), and the properties are proved of those functions,
for every token list and every text.

| file | content |
|---|---|
| `Tokens.dfy`, `Ast.dfy` | tokens and trees |
| `Grammar.dfy` | the precedence tables; how trees are printed; which trees belong to the language (`Shaped`) |
| `ParserSpec.dfy`, `TokenCursor.dfy`, `Parser.dfy` | the parser as functions and as the class that computes them |
| `ParserSoundness.dfy`, `ParserCompleteness.dfy`, `ParserPrograms.dfy` | parsing and printing undo each other |
| `ParserLadder.dfy` | how tightly operators bind |
| `ParserRecovery.dfy`, `ParserReports.dfy` | what is kept behind errors, and where reports are and recovery stops |
| `ParserErrors.dfy`, `ParserLocality.dfy`, `ParserPrefixes.dfy` | which error is reported about which token, and that it is the earliest |
| `SourceText.dfy`, `Unicode.dfy`, `Keywords.dfy` | character classes, locations, UTF-8, range tables, keyword lookup |
| `Lexical.dfy`, `Lexer.dfy` | the lexer as functions and as the class that computes them |
| `Tiling.dfy`, `LexicalLaws.dfy`, `Identifiers.dfy`, `Relex.dfy` | what the tokens have to do with the text |
| `LexicalSteps.dfy`, `LexicalReports.dfy` | what stands in the text for each token and each report |
| `FrontEnd.dfy` | lexer and parser together |
| `Memory.dfy`, `Arena.dfy`, `ArenaArray.dfy`, `ArenaRuns.dfy` | memory, the arena, arrays that share it, and runs of operations |

## Main results

1. *Parsing and printing undo each other.* A tree is printed as pieces that fix the kind of every token, the offset and
   length of names and literals, the offset of the tokens that nodes begin with, and that the second `>` of a shift is
   adjacent to the first. `PrintedIsAccepted`: every spelling of a program parses back to exactly that program, silently.
   `AcceptedIsPrinted`: a run that catches no error has read a spelling of its result. `Unambiguous` follows. Which trees
   are in the language is said by `Grammar.Shaped`: operands bind as tightly as their place demands, and `CanPrecede`
   says exactly where a `return` may stand, since a `return` swallows all commas and operators behind it. There are no
   parenthesised expressions: `return (x)` is a call on a bare `return`. `TighterBindsFirst` says what two operators in
   a row mean, with the operators listed by how tightly they bind (`ParserLadder.Class`) and no level of the tables named.
2. *Error recovery terminates, is linear, and keeps what it reads.* `ParserSpec.Run`: on every token list that ends in its
   only end-of-file token, no token behind the last one is read, every report belongs to one caught error, and there are
   fewer of them than tokens; `ReportsAreInOrder`: they are about tokens of the list, in its order. `ResultIsFound`:
   whatever errors are met, every token of every tree in the result is a token of the list, in order; only closing braces
   may be missing, at the end of the file. `GoodDefinitionIsKept`, `RestOfProgramIsKept`, `GoodStatementIsKept` and
   `RestOfBlockIsKept`: an error costs nothing before it, and nothing from where recovery stops.
   `ProgramBehindErrorIsKept` and `StatementsBehindErrorAreKept` say the same by the tokens behind the error.
   *Errors are found at the earliest token, with the right message.* `StatementFails` and `DefinitionFails`: the error
   is about the token where the parser stops, the tokens before it begin a statement or definition of the language, and
   one that goes on with a token of the kind that the message names. `ErrorsAreFoundEarly`: none goes on with the token
   that is there. `DefinitionMessage` gives the message of a definition by the tokens before the error.
   That every caught error is reported has one exception: an identifier token of length 0 as the name of a parameter
   throws without a report. `EmptyNameIsDroppedSilently` is such a list. Only the lexer can build a token list in the
   original (its constructor is private), and it makes no empty identifier, so such a list never reaches the parser.
   "Silent" and "a program" are the same where no identifier directly behind another, as a parameter name is, is empty
   (`SilentExactlyOnPrograms`), and "nothing caught" and "a program" are the same on all lists
   (`NothingCaughtExactlyOnPrograms`).
3. *The token list is a tiling of the text.* `TokensTileTheText`, `OnlyWhitespaceIsDropped`, `CommentsAreOnlyDropped`,
   and, for well-formed UTF-8 sources, `RelexingKeepsTokens`: what a token is does not depend on its surroundings.
   `IdentifiersOfWellFormedSources`: in every well-formed source each identifier token is a character that starts one
   and the longest run of characters behind it that continue one; an invalid character inside the token is reported
   exactly if a wide character that does not continue it follows.
   *What is read and reported is said by the bytes.* `KeywordsAreRead`, `LexemesAreRead`, `NumbersAreRead`, `QuotesAreRead`
   and the other lemmas of `LexicalSteps.dfy` give the step at every kind of character; every keyword of the language is
   found. `ReportsAreDue`: the reports of a source are exactly those that are due, each with its message and offset, and
   `ReportsIncrease` that they come in the order of the text.
4. *The front end as a whole.* `SilentBuildReadsTheSource`: when nothing is reported about the syntax, the source reads,
   token for token, as the printed program. `ReportsAreLinear`: n bytes give at most 2n reports.
5. *Arrays in one arena are sequences.* `ArenaRuns.RunOperations`: whatever operations on arrays and objects in one arena
   are interleaved, each array holds exactly what was put into it, in order, every object keeps its bytes, and no array
   has copied more than four elements for each that it holds. That goes on up to the first operation for which the arena
   has no room or the 32-bit count ends; with alignments up to 8 there always is room.
   `ThreeCopiesAreNotEnough`: rounding makes three copies false. `CountFitsCapacity`: the 32-bit capacity is cut short
   from 3491081614 elements on; the elements are still right, up to the largest 32-bit count. One `Put` more, and the
   count is 0.
6. *Alignment.* `Allocate` gives an aligned piece apart from all others for every alignment up to 8. For larger ones it can
   give null: `LargeAlignmentFits` says exactly when a new block has room, given its address, and `AlignmentSixteen` gives
   a request that fails. `FitsWhereverTheBlockIs` is what a caller can check before: a new block has room wherever it is
   exactly if the next block size is at least the size plus the alignment. `MemoryArena.CanHold` says so, and with it
   `Allocate` never gives null. `PiecesAvoidHeaders`: no piece overlaps the links of the blocks, so `Write` keeps them.

## Assumptions and readings

- A source text is a sequence of characters that stand for bytes (`Keywords.IsBytes`).
- The contents of the two Unicode tables are parameters: any tables whose ranges are in order and do not overlap.
- `operator new` is `Memory.Heap.New`: aligned to 16 bytes, not null, apart from everything live.
- The parser relies on the token list to end in its only end-of-file token. `TokensTileTheText` shows that the lexer
  provides it.
- An identifier token includes the bytes of an invalid multi-byte character that ends it, as cero/syntax/lexer.cc:223-228
  does. `Identifiers.WordIsLongest` states it.
- The report that a source is too large has no place in the source; its offset is 0 here.
- A missing closing quote is reported at a newline only, and not at the end of the text or at a NUL, as the code does.
- The total size of an arena counts the block headers too, as cero/util/memory_arena.cc:28-31 does; the comment at
  cero/util/memory_arena.hh:23 says otherwise.
- Recovery at definition level always skips one token, even one that a definition could begin with.

## Model

| member | source | states |
|---|---|---|
| Grammar.TablesAgree | cero/syntax/parser.cc:342-391 | the level in the tail table is the level at which the right operand is parsed, so all binary operators are left associative; only postfix operators and calls are above prefix operators |
| ParserLadder.LevelsAreClasses | cero/syntax/parser.cc:7-16 | the levels are in the order of the classes of operators, and no two classes share one |
| ParserLadder.TighterBindsFirst | cero/syntax/parser.cc:7-61 | every spelling of `a op1 b op2 c`, for any two binary operators and any operands without one at their root, is read as the tree in which the tighter class (multiplicative, additive and bit, comparison, logical, assignment) binds first, and to the left within one class |
| ParserLadder.PrefixBindsBeforeBinary | cero/syntax/parser.cc:442-451 | a prefix operator takes its operand before every binary operator |
| ParserLadder.PostfixBindsBeforePrefix | cero/syntax/parser.cc:472-481 | a postfix operator takes its operand before every prefix operator |
| ParserLadder.CallBindsBeforePrefix | cero/syntax/parser.cc:483-500 | a call takes its callee before every prefix operator |
| Grammar.OperatorReadsBack | cero/syntax/parser.cc:342-391 | the token that a binary operator is printed as is read as that operator; `>` and `>>` are told apart by adjacency |
| Grammar.OperatorPrintsBack | cero/syntax/parser.cc:342-391 | a binary operator that was read is printed as the token it came from |
| Grammar.PostfixPrintsBack | cero/syntax/parser.cc:377-380 | postfix operators and calls are printed as the tokens they came from |
| Grammar.UnaryOperatorReadsBack | cero/syntax/parser.cc:306-328 | prefix operators are in the head table and postfix operators in the tail table, at the highest level |
| Grammar.HeadPrintsBack | cero/syntax/parser.cc:306-328 | a head token is printed back from the rule it selects; the end of the file is no head |
| Grammar.SpelledConcat | cero/syntax/parser.cc:289-304 | a spelling of two lists of pieces is a spelling of the first followed by one of the second |
| Grammar.ClosersCanFollow | cero/syntax/parser.cc:421-440 | a token that is no head, no tail and no comma can follow any tree, even one that ends in a `return` |
| Grammar.FirstPiece | cero/syntax/parser.cc:274-283 | a tree begins with a head token, and with `{` exactly if its leftmost leaf is a block |
| ParserSpec.Advance | cero/syntax/token_cursor.hh:68-73 | the cursor moves by one token, and never behind the end-of-file token |
| ParserSpec.Expect | cero/syntax/parser.cc:514-519 | passes exactly one token if it has the kind, and otherwise makes exactly one report and passes nothing |
| ParserSpec.ParseExpression | cero/syntax/parser.cc:289-304 | terminates; passes at least one token or throws; one report per caught error, and one more if it throws; no more caught errors than tokens passed |
| ParserSpec.ParseHead | cero/syntax/parser.cc:306-328 | the same for heads, which always pass a token |
| ParserSpec.ParseTails | cero/syntax/parser.cc:298-303 | the same for the loop over tail functions |
| ParserSpec.ParseTail | cero/syntax/parser.cc:453-500 | the same for one operator or call, which always passes a token |
| ParserSpec.ParseList | cero/syntax/parser.cc:426-432 | the same for expressions separated by commas |
| ParserSpec.ParseStatement | cero/syntax/parser.cc:246-256 | the same for a statement |
| ParserReports.StatementRecoveryStopsFirst | cero/syntax/parser.cc:226-244 | goes to the first `;`, `}` or end of the file; passes only a `;`, and says whether the file ended |
| ParserSpec.ParseBlock | cero/syntax/parser.cc:207-224 | terminates although recovery may not move; never throws; one report per caught error; one error more than tokens passed at most, which the opening brace pays for |
| ParserSpec.ParseParameter | cero/syntax/parser.cc:160-173 | either moves the cursor, or throws after at most one report, and after exactly one if no identifier behind an identifier is empty |
| ParserReports.SilentExactlyOnEmptyName | cero/syntax/parser.cc:160-173 | a parameter throws without a report exactly if its type is an identifier and its name an identifier token of length 0 |
| ParserSpec.ParseParameterList | cero/syntax/parser.cc:147-152 | the same for parameters separated by commas |
| ParserSpec.ParseSignature | cero/syntax/parser.cc:129-139 | the same for all between the name of a function and its body |
| ParserSpec.ParseDefinition | cero/syntax/parser.cc:109-142 | passes a token, with one report per caught error, or throws with nothing caught |
| ParserReports.DefinitionRecoveryStopsFirst | cero/syntax/parser.cc:92-107 | always skips the current token, and goes to the first modifier, `struct`, `enum` or end of the file behind it |
| ParserSpec.ParseDefinitions | cero/syntax/parser.cc:80-90 | reaches the end of the file; one report per caught error if no identifier behind an identifier is empty; no more errors than tokens passed |
| ParserSpec.Run | cero/syntax/parser.cc:80-90 | every run ends at the end-of-file token with at most one report per other token, each of a caught error |
| TokenCursors.TokenCursor.PeekAhead | cero/syntax/token_cursor.hh:30-38 | the token behind the current one, and at the last one that one |
| TokenCursors.TokenCursor.Advance | cero/syntax/token_cursor.hh:68-73 | moves by one token unless at the end of the file |
| TokenCursors.TokenCursor.Next | cero/syntax/token_cursor.hh:40-45 | returns the current token and moves |
| TokenCursors.TokenCursor.Match | cero/syntax/token_cursor.hh:47-56 | moves exactly if the kind matches |
| TokenCursors.TokenCursor.SkipComments | cero/syntax/token_cursor.hh:75-82 | stops at the first token that is no comment, and stays in the list because the end-of-file token is none |
| Parsers.Parser.constructor | cero/syntax/parser.cc:72-78 | starts at the first token with nothing reported |
| Parsers.Parser.ReportExpected | cero/syntax/parser.cc:521-530 | reports the current token |
| Parsers.Parser.Expect | cero/syntax/parser.cc:514-519 | does what ParserSpec.Expect says |
| Parsers.Parser.ParseExpression | cero/syntax/parser.cc:289-304 | the loop over tail functions computes ParserSpec.ParseExpression |
| Parsers.Parser.NextTailRule | cero/syntax/parser.cc:330-391 | the rule for the current token, with the look ahead for `>>` |
| Parsers.Parser.OnPrefixLeftBrace | cero/syntax/parser.cc:412-419 | a block becomes what ParserSpec says |
| Parsers.Parser.OnKwReturn | cero/syntax/parser.cc:421-435 | a `return` takes all expressions that follow, separated by commas |
| Parsers.Parser.OnPrefixOperator | cero/syntax/parser.cc:442-451 | the operand is parsed at prefix level |
| Parsers.Parser.OnBinaryOperator | cero/syntax/parser.cc:453-470 | passes one or two tokens and parses the right operand at the level of the operator |
| Parsers.Parser.OnInfixLeftParen | cero/syntax/parser.cc:483-500 | a call with its arguments |
| Parsers.Parser.ParseList | cero/syntax/parser.cc:426-432 | the do-while loop computes ParserSpec.ParseList |
| Parsers.Parser.ParseStatement | cero/syntax/parser.cc:246-256 | a leading block takes neither operators nor a semicolon |
| Parsers.Parser.RecoverAtStatementLevel | cero/syntax/parser.cc:226-244 | the recovery loop computes ParserSpec.RecoverAtStatementLevel |
| Parsers.Parser.ParseBlock | cero/syntax/parser.cc:207-224 | the loop with its handler computes ParserSpec.ParseBlock |
| Parsers.Parser.ExpectIdentifier | cero/syntax/parser.cc:504-512 | the name, or an empty name and a report |
| Parsers.Parser.ParseType | cero/syntax/parser.cc:198-205 | an identifier, or a report and an error |
| Parsers.Parser.ParseParameter | cero/syntax/parser.cc:160-173 | does what ParserSpec.ParseParameter says, empty names included |
| Parsers.Parser.ParseParameters | cero/syntax/parser.cc:144-158 | does what ParserSpec.ParseParameters says |
| Parsers.Parser.ParseOutputs | cero/syntax/parser.cc:175-187 | does what ParserSpec.ParseOutputs says |
| Parsers.Parser.ParseFunctionDefinition | cero/syntax/parser.cc:129-142 | does what ParserSpec.ParseDefinition says behind the name |
| Parsers.Parser.ParseDefinition | cero/syntax/parser.cc:109-127 | does what ParserSpec.ParseDefinition says |
| Parsers.Parser.RecoverAtDefinitionLevel | cero/syntax/parser.cc:92-107 | the do-while loop computes ParserSpec.RecoverAtDefinitionLevel |
| Parsers.Parser.Run | cero/syntax/parser.cc:80-90 | the whole run leaves the definitions and reports of ParserSpec.Run, from every token list |
| ParserSoundness.ExpressionSound | cero/syntax/parser.cc:289-304 | what is returned is a tree of the language whose operators bind tighter than the level asked for, it begins at its first token, the token behind it binds no tighter than that level, and if nothing was caught the tokens passed spell it; behind errors ParserRecovery.ExpressionFound holds |
| ParserSoundness.OperatorSound | cero/syntax/parser.cc:454-460 | a binary operator passes exactly the tokens that it is printed as, two adjacent ones for `>>` |
| ParserSoundness.HeadSound | cero/syntax/parser.cc:306-328 | the same for heads, which no operator ahead can reach into |
| ParserSoundness.TailsSound | cero/syntax/parser.cc:298-303 | the loop over tail functions keeps all that |
| ParserSoundness.InfixSound | cero/syntax/parser.cc:453-470 | a binary operator with its right operand keeps all that |
| ParserSoundness.CallSound | cero/syntax/parser.cc:483-500 | a call keeps all that |
| ParserSoundness.ReturnSound | cero/syntax/parser.cc:421-435 | a `return` has taken all that it would take: no head, tail or comma that it wants is left |
| ParserSoundness.StatementSound | cero/syntax/parser.cc:246-256 | a statement is a block, or a tree that does not start with one |
| ParserSoundness.BlockSound | cero/syntax/parser.cc:207-224 | all statements that are kept are trees of the language, and without errors the tokens passed spell them; behind errors ParserRecovery.BlockFound holds |
| ParserCompleteness.ExpressionComplete | cero/syntax/parser.cc:289-304 | print, then parse: every spelling of a tree, followed by a token that binds no tighter than the level asked for, gives exactly the tree, passes exactly its tokens and reports nothing |
| ParserCompleteness.SpineComplete | cero/syntax/parser.cc:298-303 | reading a tree leaves the tail loop behind the tree, with the tree as the expression read so far |
| ParserCompleteness.BinaryComplete | cero/syntax/parser.cc:453-470 | the same for binary trees |
| ParserCompleteness.CallComplete | cero/syntax/parser.cc:483-500 | the same for calls |
| ParserCompleteness.ListComplete | cero/syntax/parser.cc:426-432 | printed lists parse back |
| ParserCompleteness.StatementComplete | cero/syntax/parser.cc:246-256 | printed statements parse back |
| ParserCompleteness.BlockComplete | cero/syntax/parser.cc:207-224 | printed blocks parse back, nested ones included |
| ParserPrograms.DefinitionSound | cero/syntax/parser.cc:109-142 | a definition that is read has the shape of the language, and without errors its tokens spell it |
| ParserPrograms.DefinitionsSound | cero/syntax/parser.cc:80-90 | the same for all definitions; behind errors ParserRecovery.DefinitionsFound holds |
| ParserPrograms.DefinitionComplete | cero/syntax/parser.cc:109-142 | a printed function with modifier, parameters, outputs and body parses back |
| ParserPrograms.AcceptedIsPrinted | cero/syntax/parser.cc:80-90 | if nothing was caught, the whole token list spells the definitions returned, followed by the end of the file |
| ParserPrograms.PrintedIsAccepted | cero/syntax/parser.cc:80-90 | every spelling of a program parses to exactly that program with no report |
| ParserPrograms.SilentExactlyOnPrograms | cero/syntax/parser.cc:80-90 | no report exactly if the list spells some program, when no identifier behind an identifier is empty |
| ParserPrograms.NothingCaughtExactlyOnPrograms | cero/syntax/parser.cc:80-90 | on every list, no error is caught exactly if the list spells some program |
| ParserPrograms.Unambiguous | cero/syntax/parser.cc:342-391 | no token list spells two programs |
| ParserRecovery.NodeBeginsAtFirstPiece | cero/syntax/parser.cc:462-479 | the offset of every node is that of its first token, which is one whose offset the printed tree fixes |
| ParserRecovery.ExpressionFound | cero/syntax/parser.cc:289-304 | whatever errors were caught on the way, the tokens of the tree are found among those passed, in order |
| ParserRecovery.HeadFound | cero/syntax/parser.cc:393-451 | the same for heads |
| ParserRecovery.TailFound | cero/syntax/parser.cc:453-481 | the same for operators |
| ParserRecovery.CallFound | cero/syntax/parser.cc:483-500 | the same for calls |
| ParserRecovery.ListFound | cero/syntax/parser.cc:426-432 | the same for lists |
| ParserRecovery.StatementFound | cero/syntax/parser.cc:246-256 | the same for statements, semicolons included |
| ParserRecovery.BlockFound | cero/syntax/parser.cc:207-224 | the same for the statements that a block keeps; its closing brace is missing only at the end of the file |
| ParserRecovery.DefinitionFound | cero/syntax/parser.cc:109-142 | the same for a definition |
| ParserRecovery.DefinitionsFound | cero/syntax/parser.cc:80-90 | the same for the definitions that are kept |
| ParserRecovery.ResultIsFound | cero/syntax/parser.cc:80-90 | every token of the program in the result is a token of the list, in order, and the result has the shape of the language |
| ParserRecovery.GoodDefinitionIsKept | cero/syntax/parser.cc:80-90 | a definition that is spelled where the parser stands is kept, whatever errors come later |
| ParserRecovery.RestOfProgramIsKept | cero/syntax/parser.cc:80-107 | behind an error, a program from where recovery stops is kept whole |
| ParserRecovery.ProgramBehindErrorIsKept | cero/syntax/parser.cc:80-107 | a program that begins with a modifier behind an unexpected token is kept whole if no modifier, `struct`, `enum` or end of the file is between them, and one error is caught |
| ParserRecovery.GoodStatementIsKept | cero/syntax/parser.cc:207-224 | a statement that is spelled where the parser stands is kept, whatever errors come later |
| ParserRecovery.RestOfBlockIsKept | cero/syntax/parser.cc:207-244 | behind an error, statements and closing brace from where recovery stops are kept whole |
| ParserRecovery.StatementsBehindErrorAreKept | cero/syntax/parser.cc:207-244 | statements and closing brace behind the first `;` from an unexpected token on, or at the first `}`, are kept whole |
| ParserReports.ReportsAreInOrder | cero/syntax/parser.cc:521-530 | every report is about a token of the list, and none about a token before that of the report before it |
| ParserErrors.ExpressionFails | cero/syntax/parser.cc:289-304 | an expression that throws, with nothing caught in it, adds one report about the token where it stops; the tokens before that begin an expression that goes on with the kind that the message names |
| ParserErrors.StatementFails | cero/syntax/parser.cc:246-256 | the same for statements: a missing semicolon, operand or closing parenthesis is reported about the token that stands there instead |
| ParserErrors.ParametersFail | cero/syntax/parser.cc:144-173 | the same for parameters, with the message decided by whether a type, a name or the closing parenthesis is missing |
| ParserErrors.OutputsFail | cero/syntax/parser.cc:175-196 | the same for the types of outputs |
| ParserErrors.DefinitionFails | cero/syntax/parser.cc:109-142 | the same for definitions; the message is the one that ParserErrors.DefinitionMessage gives for the tokens before the error |
| ParserErrors.StatementStops | cero/syntax/parser.cc:521-530 | whatever was caught before, the last report of a statement that throws is about the token where it stops |
| ParserLocality.StatementLocal | cero/syntax/parser.cc:246-256 | on two lists that share their tokens up to some position, a statement is read alike unless both are past it |
| ParserLocality.DefinitionLocal | cero/syntax/parser.cc:109-142 | the same for definitions |
| ParserPrefixes.NoStatementGoesOn | cero/syntax/parser.cc:246-256 | where a statement throws, no statement of the language goes on with the token that is there, if its offset leaves room for another, as in every source |
| ParserPrefixes.NoDefinitionGoesOn | cero/syntax/parser.cc:109-142 | the same for definitions |
| ParserPrefixes.MissingSemicolon | cero/syntax/parser.cc:246-256 | a printed expression without its semicolon reports `expect_semicolon` about the token behind it |
| ParserPrefixes.MissingClosingParen | cero/syntax/parser.cc:483-500 | a call without its closing parenthesis reports `expect_closing_paren_in_call` about the token behind its arguments |
| ParserPrograms.EmptyNameIsDroppedSilently | cero/syntax/parser.cc:160-173 | a list with an empty identifier token as a parameter name is not a program, and nothing is reported |
| SourceText.Locate | cero/syntax/source.cc:18-42 | line 1 plus the newlines before the offset, column 1 plus the width of what stands behind the last of them; an offset behind the end is as the end |
| SourceText.LocationSteps | cero/syntax/source.cc:18-42 | offset 0 is at (1, 1); behind a newline the next line begins at column 1; a tab adds the tab size and any other byte 1; offsets behind the end are as the end |
| SourceText.LocationsIncrease | cero/syntax/source.cc:18-42 | locations are in the order of offsets when tabs have a width |
| SourceText.ColumnsFit | cero/syntax/source.hh:58-63 | line and column fit into 32 bits for every source of allowed size and every 8-bit tab size |
| Unicode.DecodeEncode | cero/syntax/unicode.cc:282-298 | for every scalar outside ASCII, packing and decoding its UTF-8 bytes (section 3 of RFC 3629) gives it back, and the leading ones of the first byte tell their number |
| Unicode.BinarySearch | cero/syntax/unicode.cc:300-303 | halving finds a scalar exactly if some range of the table holds it |
| Unicode.TableIsItsRanges | cero/syntax/unicode.cc:7-22 | a table holds its ranges with both ends, and nothing in front of, between or behind them |
| Unicode.SearchTable | cero/syntax/unicode.cc:300-303 | the same for a packed UTF-8 character |
| Keywords.KeywordReads | cero/syntax/token.cc:16-41 | a word is a keyword exactly if it equals a lexeme of the table, and then its kind reads like it; KeywordsAreFound says that the table is complete |
| Keywords.KeywordsAreFound | cero/syntax/keywords.hh:15-39 | for each of the keyword kinds, a word is read as that kind exactly if it is its text: every keyword is in the table |
| Keywords.EncodeFits | cero/syntax/keywords.hh:41-51 | a tail of eight bytes fits into 64 bits |
| Keywords.EncodingIsUnambiguous | cero/syntax/lexer.cc:185-186 | bytes that encode like a keyword tail are that tail, with nothing but NULs behind it |
| Keywords.TailsDecide | cero/syntax/lexer.cc:188-193 | for words whose NULs stand behind a byte outside ASCII, comparing tails is comparing words |
| Keywords.GetKeywordTails | cero/syntax/keywords.hh:59-76 | the compile-time loop collects the tails of exactly the keywords with the first letter, in the order of the table |
| Keywords.LookupIsExact | cero/syntax/lexer.cc:170-197 | looking up the first letter and the zero-padded tail is looking up the word in the table |
| Keywords.LongWordsAreNames | cero/syntax/lexer.cc:181-182 | words above nine bytes are no keywords |
| Keywords.KeywordsAreSmall | cero/syntax/lexer.cc:65-91 | words that begin with a capital or `_` are no keywords |
| Lexers.SourceCursor.Next | cero/syntax/source_cursor.hh:27-35 | returns the byte passed, or NUL at the end, where it does not move |
| Lexers.SourceCursor.Advance | cero/syntax/source_cursor.hh:37-45 | moves by one byte; the handlers never call it at the end |
| Lexers.SourceCursor.Match | cero/syntax/source_cursor.hh:47-56 | moves exactly if the byte matches |
| Lexers.Lexer.ConsumeMultibyteUtf8Char | cero/syntax/lexer.cc:613-632 | passes the bytes that the first one announces, as far as there are any, and looks the packed character up; reports it if that fails |
| Lexers.Lexer.ConsumeWord | cero/syntax/lexer.cc:215-230 | goes to the end of the word, and reports an invalid character that ends it |
| Lexers.Lexer.OnAlphabetic | cero/syntax/lexer.cc:162-168 | one identifier token up to the end of the word |
| Lexers.Lexer.OnAlphabeticMaybeKeyword | cero/syntax/lexer.cc:170-197 | one token: the keyword whose lexeme the word equals, or an identifier |
| Lexers.Lexer.OnWordStart | cero/syntax/lexer.cc:203-213 | choosing a handler by the first letter loses no keyword |
| Lexers.Lexer.OnOtherChar | cero/syntax/lexer.cc:602-611 | an identifier that begins outside ASCII, or a report and no token |
| Lexers.Lexer.ConsumeDigitSequence | cero/syntax/lexer.cc:285-319 | the length is that of the longest run of digits with whitespace between them; whitespace behind is passed and not counted |
| Lexers.Lexer.OnZero | cero/syntax/lexer.cc:232-256 | prefixed and plain numbers |
| Lexers.Lexer.HandleDecimalLiteral | cero/syntax/lexer.cc:263-283 | a decimal, a float, or a decimal and a dot |
| Lexers.Lexer.OnDot | cero/syntax/lexer.cc:366-377 | a float or a dot |
| Lexers.Lexer.OnRightAngle | cero/syntax/lexer.cc:345-364 | the longest operator, and two tokens for `>>` |
| Lexers.Lexer.OnSlash | cero/syntax/lexer.cc:446-471 | comments, kept or not, and the operators that begin with a slash |
| Lexers.Lexer.ConsumeLineComment | cero/syntax/lexer.cc:473-480 | up to a newline, a NUL or the end |
| Lexers.Lexer.ConsumeBlockComment | cero/syntax/lexer.cc:482-502 | the counting loop stops where the nesting depth reaches 0, and reports if it does not |
| Lexers.Lexer.OnQuote | cero/syntax/lexer.cc:575-600 | the flag that is flipped by backslashes is the parity of the run of backslashes |
| Lexers.Lexer.HandleNextCharacter | cero/syntax/lexer.cc:56-160 | every byte is handled as Lexical.Step says |
| Lexers.Lexer.Run | cero/syntax/lexer.cc:33-54 | leaves exactly the tokens and reports of Lexical.Lex, for every text |
| Lexical.StepAdvances | cero/syntax/lexer.cc:45-48 | every step passes at least one byte and stays in the text |
| LexicalSteps.CharacterClasses | cero/syntax/unicode.hh:21-31 | whitespace and digits, character by character |
| LexicalSteps.IdentifierCharacters | cero/syntax/unicode.hh:17-19 | letters, digits and `_` continue an identifier, and a digit does not begin one |
| LexicalSteps.WhitespaceIsPassed | cero/syntax/lexer.cc:56-63 | one byte of whitespace is passed, without token or report |
| LexicalSteps.KeywordsAreRead | cero/syntax/lexer.cc:170-197 | a keyword of the language in front of a byte that is in no identifier is one token of its kind |
| LexicalSteps.NumbersAreRead | cero/syntax/lexer.cc:232-283 | `0x`, `0b` and `0o` decide the kind of a number, which goes to the end of its digits; no number is reported |
| LexicalSteps.DotsAreRead | cero/syntax/lexer.cc:366-377 | a dot begins a float exactly if a digit is the first byte behind it that is no whitespace |
| LexicalSteps.LineCommentsAreRead | cero/syntax/lexer.cc:446-480 | `//` makes one comment token up to the end of the line if comments are kept |
| LexicalSteps.BlockCommentsAreRead | cero/syntax/lexer.cc:446-502 | `/*` makes one comment token up to the markers that close it; if none do it is reported at its beginning and goes to the end |
| LexicalSteps.QuotesAreRead | cero/syntax/lexer.cc:575-600 | a quote makes one token up to the first stop or closing quote; `missing_closing_quote` is reported exactly if that stop is a newline, and there |
| LexicalSteps.LexemesAreRead | cero/syntax/lexer.cc:326-573 | the longest operator of the language that stands somewhere is the token made there; `>>` makes two |
| LexicalSteps.StrayBytesAreReported | cero/syntax/lexer.cc:602-632 | a byte that begins nothing is passed alone and reported |
| LexicalSteps.WideCharactersAreReported | cero/syntax/lexer.cc:602-632 | a character outside ASCII that begins no identifier is passed with as many bytes as the first one announces and the text has, and reported |
| LexicalSteps.TokensBeginAsTheirKinds | cero/syntax/lexer.cc:56-160 | in every source each name, literal and comment token begins with the characters of its kind |
| LexicalReports.ReportsAreDue | cero/syntax/lexer.cc:33-54 | the reports of a source are exactly, with message and offset: newlines in front of closing quotes, beginnings of unclosed comments, characters that begin no token or break a word, and a NUL inside the text at which lexing stops |
| LexicalReports.MissingQuotesAreReported | cero/syntax/lexer.cc:580-583 | `missing_closing_quote` is reported exactly at the newlines that stop a literal that some step begins |
| LexicalReports.UnterminatedCommentsAreReported | cero/syntax/lexer.cc:482-502 | `unterminated_block_comment` is reported exactly at the beginnings of comments that no markers close |
| LexicalReports.LargeSourcesAreReported | cero/syntax/lexer.cc:33-43 | the size is reported exactly if offsets do not fit into 24 bits, and then nothing else is |
| LexicalReports.EndIsWhereLexingStops | cero/syntax/lexer.cc:42-54 | the end-of-file token stands at the end, or at the NUL where lexing stops |
| LexicalReports.ReportsIncrease | cero/syntax/lexer.cc:45-54 | reports are made in the order of the text, and no offset has two |
| Tiling.EachStepTiles | cero/syntax/lexer.cc:56-160 | the tokens of a step read like the part of the text that it goes over, in order, with only whitespace between them unless an invalid character was reported |
| Tiling.TokensTileTheText | cero/syntax/token.cc:11-92 | the list ends in its only end-of-file token, tokens are in order and do not overlap, offsets survive 24 bits, each reads like its slice of the source, only variable-length kinds carry a length, no identifier is empty |
| Tiling.OnlyWhitespaceIsDropped | cero/syntax/lexer.cc:33-160 | with comments kept and no invalid character, all bytes outside the tokens are whitespace |
| Tiling.LexIsLinear | cero/syntax/lexer.cc:9-12 | a source of n bytes has at most n tokens beside the end of the file, and at most n reports |
| LexicalLaws.CommentEndsAtDepthZero | cero/syntax/lexer.cc:482-502 | a block comment ends behind the first marker, read left to right, that brings the depth to 0, and is unclosed exactly if there is none |
| LexicalLaws.DepthFits | cero/syntax/lexer.cc:483 | the depth stays below 2 to the 23rd |
| LexicalLaws.CommentsNest | cero/syntax/lexer.cc:482-502 | a complete comment between comment markers is a complete comment |
| LexicalLaws.LineEndsFirst | cero/syntax/lexer.cc:473-480 | a line comment goes up to the first newline, NUL or end of the text |
| LexicalLaws.QuoteEndsFirst | cero/syntax/lexer.cc:575-600 | a literal ends at the first newline, NUL, end, or quote of its kind behind an even run of backslashes; what is reported is said by LexicalSteps.QuotesAreRead |
| LexicalLaws.DigitsAreMaximal | cero/syntax/lexer.cc:285-319 | what is counted is a run of digits with whitespace before any of them, and every such run is no longer |
| LexicalLaws.FloatExactlyBeforeDigit | cero/syntax/lexer.cc:263-283 | a decimal before a dot is one float exactly if the first byte behind the dot that is not whitespace is a digit |
| LexicalLaws.OperatorsAreLongest | cero/syntax/lexer.cc:326-573 | no operator of the language that stands at an offset is longer than what is taken there |
| Identifiers.WideCharacterReads | cero/syntax/lexer.cc:613-632 | where the bytes of a scalar stand, exactly they are passed, and the table is asked for that scalar |
| Identifiers.WordIsLongest | cero/syntax/lexer.cc:215-230 | in well-formed UTF-8 a word goes on over exactly the characters that continue an identifier; a wide character that does not is reported and taken in |
| Identifiers.IdentifierIsLongest | cero/syntax/lexer.cc:602-611 | a step at a character that starts an identifier makes one token of it and the longest run of characters that continue it; a wide character that ends the run is reported and taken in |
| Identifiers.NoStartNoIdentifier | cero/syntax/lexer.cc:56-160 | a step at any other character makes no identifier |
| Identifiers.StepBoundary | cero/syntax/lexer.cc:56-160 | in well-formed UTF-8 every step from a character boundary ends at one: comments, quotes, numbers and words too |
| Identifiers.IdentifiersOfWellFormedSources | cero/syntax/lexer.cc:33-54 | in every well-formed source each identifier token is a start character and the longest run of continue characters (section 2 of Unicode Standard Annex #31); a wide character that ends the run is in the token and reported, and otherwise no character inside the token is |
| Relex.StepTokensRelex | cero/syntax/lexer.cc:56-160 | every token of a step is made again wherever its text stands before a blank and a comment |
| Relex.JoinedRelexes | cero/syntax/lexer.cc:45-48 | texts with that property, joined by separators, become the same tokens in the same order |
| Relex.RelexingKeepsTokens | cero/syntax/lexer.cc:33-160 | for well-formed UTF-8 sources without reports and with all quotes closed, lexing the joined token texts gives the same kinds and texts exactly if they are not larger than a source may be; otherwise the only report is that they are |
| FrontEnd.CommentsAreOnlyDropped | cero/syntax/lexer.cc:446-471 | without comments kept the other tokens and all reports are the same |
| FrontEnd.SilentBuildReadsTheSource | cero/compile/build.cc:9-17 | if nothing is reported about the syntax, the source reads, token for token, as the printed tree |
| FrontEnd.SilentExactlyOnSpellings | cero/compile/build.cc:9-17 | nothing is reported about the syntax of exactly the sources whose tokens spell a program |
| FrontEnd.ErrorsAreFoundEarly | cero/compile/build.cc:9-17 | in the tokens of every source, where a statement or definition throws, nothing of the language goes on with the token that is there |
| FrontEnd.BinaryOperatorsAreWritten | cero/syntax/token.cc:51-87 | the token of each binary operator is written as that operator is |
| FrontEnd.UnaryOperatorsAreWritten | cero/syntax/token.cc:51-87 | the same for unary operators |
| FrontEnd.WordsAreWritten | cero/syntax/token.cc:16-41 | the words of the grammar: `return`, the modifiers, and those where recovery stops |
| FrontEnd.LiteralsAreWritten | cero/syntax/parser.cc:306-328 | where a literal of the tree is printed, the source has a literal of that kind |
| FrontEnd.ReportsAreLinear | cero/compile/build.cc:9-17 | n bytes give at most 2n reports |
| FrontEnd.Build | cero/compile/build.cc:9-17 | lexer and parser one after the other give the reports and definitions that the specifications say; the definitions are found in the token list and the reports are in its order |
| Memory.AlignIsFirst | cero/util/memory_arena.cc:15-16 | what `std::align` promises: no aligned address before the result has room behind it, and null means that none has |
| Arenas.MemoryArena.constructor | cero/util/memory_arena.cc:11-13 | an arena begins without blocks |
| Arenas.MemoryArena.Allocate | cero/util/memory_arena.cc:15-26 | for every power of two: a piece that is given is aligned, apart from all pieces before it, and inside a live block behind its header, and the free tail and the sum of sizes stay exact; null exactly if neither the free tail nor the new block has room at an aligned address, never for alignments up to 8, and never if MemoryArena.CanHold says that there is room |
| Arenas.MemoryArena.CreateBlock | cero/util/memory_arena.cc:28-42 | continues at the first aligned address behind the header of the new block, or at null if there is no room; old pieces keep their places |
| Arenas.LargeAlignmentFits | cero/util/memory_arena.cc:29-39 | for alignments above 8 a new block has room exactly if the next block size covers the header, the gap to the first aligned address, and the piece |
| Arenas.FitsWhereverTheBlockIs | cero/util/memory_arena.cc:29-39 | for every alignment above 8, a new block has room wherever `operator new` puts it exactly if the next block size is at least the size plus the alignment |
| Arenas.AlignmentSixteen | cero/util/memory_arena.cc:29-39 | for alignment 16 exactly if the next block size exceeds the size by 16; a fresh arena fits exactly pieces up to 1008 bytes, so 1024 bytes are an input that fails |
| Arenas.MemoryArena.Create | cero/util/memory_arena.hh:26-31 | room for an object, with all that Allocate promises |
| Arenas.MemoryArena.Write | cero/util/memory_arena.hh:62-67 | writing inside a piece changes nothing outside it: the arena stays valid, and the links in the blocks keep their bytes |
| Arenas.MemoryArena.Release | cero/util/memory_arena.cc:44-55 | every block is deleted exactly once, and nothing else |
| Arenas.MemoryArena.Move | cero/util/memory_arena.cc:65-71 | all blocks and pieces are taken over; the other arena is fresh |
| Arenas.MemoryArena.Assign | cero/util/memory_arena.cc:73-84 | the old blocks are deleted, the others taken over; assigning an arena to itself changes nothing |
| Arenas.MemoryArena.GetTotalSize | cero/util/memory_arena.cc:57-59 | the sum of the sizes of all blocks |
| Arenas.NewBlockKeeps | cero/util/memory_arena.cc:33-34 | a block in front keeps the list linked, apart, and grown as the rule says |
| Arenas.CutKeeps | cero/util/memory_arena.cc:23-25 | a piece cut from the free tail is apart from all pieces before it |
| Arenas.PiecesAvoidHeaders | cero/util/memory_arena.cc:33-37 | no piece overlaps the header of any block |
| Arenas.BlocksGrow | cero/util/memory_arena.cc:41 | the growth rule gains at least the factor 4/3 each time, from an initial size of 2 |
| Arenas.ArenaBlocksGrow | cero/util/memory_arena.cc:29-41 | every block of an arena has at least the initial size times 4/3 for each block made before it |
| Arenas.TotalKeepsUp | cero/util/memory_arena.cc:29-41 | the total is at least twice what the next block size exceeds the initial one by |
| ArenaArrays.CopiesAreLinear | cero/util/memory_arena.hh:58-65 | n calls of `put` copy at most 4n elements, and the capacity stays below 1.5n + 5; ArenaArrays.ArenaArray.Valid ties both to the array |
| ArenaArrays.ThreeCopiesAreNotEnough | cero/util/memory_arena.hh:58-65 | 61448 calls copy one element more than three times as many |
| ArenaArrays.CountFitsCapacity | cero/util/memory_arena.hh:59-64 | the capacity stored in 32 bits is the real one, and not below the count, exactly up to 3491081613 elements |
| ArenaArrays.GrowsWhenFull | cero/util/memory_arena.hh:58 | for every 32-bit count, comparing with the stored capacity tells whether the array is full |
| ArenaArrays.ArenaArray.Put | cero/util/memory_arena.hh:56-69 | for every power of two as alignment, if the arena has room when the array is full: the value is behind the others, nothing else in the arena is disturbed, at most four elements have been copied for each there is, and the count is within the stored capacity exactly up to 3491081613; behind the largest 32-bit count it is 0 |
| ArenaArrays.ArenaArray.Grow | cero/util/memory_arena.hh:58-65 | the elements are moved to a larger piece by the growth rule, for every alignment for which the arena has room |
| ArenaArrays.AllocateKeeps | cero/util/memory_arena.cc:15-26 | allocation keeps every array |
| ArenaArrays.WriteKeeps | cero/util/memory_arena.hh:62-67 | writing into one array's piece keeps every other array |
| ArenaRuns.CreateAmong | cero/util/memory_arena.hh:26-31 | an object of any alignment for which the arena has room is written into a piece of its own, and nothing else in the arena is disturbed |
| ArenaRuns.RunOperations | cero/util/memory_arena.hh:56-69 | after any interleaving of puts and object creations, up to the first for which there is no room or no 32-bit count, each array holds exactly the values put into it, in order, with at most four copies for each, and every object holds its bytes; with alignments up to 8 and counts within 32 bits the whole run is done |

## Left out

- Semantic analysis (`cero/sema`): unfinished in the original.
- File mapping, system errors, UTF-16, the console reporter and message texts; a report is its kind and the offset or
  token it is about. The code point that an invalid character is reported with is not kept.
- The contents of the Unicode tables: any sorted and disjoint tables.
- Syntax trees are values here. The original allocates nodes in the arena and their lists as arena arrays; that such
  arrays are sequences is what RunOperations proves, but the parser is not run on top of it.
- Arenas.MemoryArena.Allocate: use of an arena after null was given; the original would write at a null pointer.
- ArenaArrays.ArenaArray.Put: what the elements are behind the wrap of the 32-bit count; the original then overwrites
  them from the first on. Element sizes are at least 1.
- ArenaRuns.RunOperations: stops in front of a put that would wrap the 32-bit count.
- Arenas.MemoryArena.Release: leaves the pointer into the released block as the original does, so allocation after an
  explicit release is not covered; the original never does that.
- Overflow of request sizes in 64 bits, and exhausted memory.
- Identifiers.IdentifiersOfWellFormedSources: for well-formed UTF-8 only; the original does not check continuation bytes.
- Arenas.BlocksGrow: for initial sizes of 2 and more; below that block sizes do not grow.
