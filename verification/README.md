# The PHP test runner, verified

PHP is tested with `run-tests.php`: it collects `.phpt` files, cuts each into sections, runs it,
compares the output with what was expected (literally, or through the EXPECTF placeholders and regular
expressions), prints a line diff when they differ, and keeps counters over the whole run.
`server-tests.php` is a second runner that repeats some of the same algorithms. This project models that
logic in Dafny and proves what it guarantees.

- **Line diff.** `Matching` is the reference: matchings between two line sequences and the size of a largest
  one. `Lookahead` is the budgeted recursive estimate, `ArrayDiff` the scan, the merge of the two edit lists
  and the tails, `DiffTheorems` and `DiffShape` what they guarantee, `LostLines` how far the program's budget reaches,
  `DiffText` the printed diff.
  The relation between an expected and an output line is arbitrary throughout (a regular expression may stand
  behind it); literal mode is the case of equality. The step budget is halved with `/`, so it is a real number.
- **EXPECTF.** `ExpectF` is the compiler from a template to a regular expression text, `LongNames` and
  `Placeholders` are its two kinds of placeholders, `Regex` is the part of Perl regular expressions that compiled
  templates use, with its syntax and its meaning, `CodePatterns`, `CodeMeaning` and `ExpectFMeaning` are the proof
  that the compiled text accepts what the template says, and `ShortestOutput` shows where long names get in the way.
  `RawSections` and `RawMeaning` extend this to raw sections, for every pattern engine that reads them as groups.
  `Expectations` is the comparison of an output, `FailureReport`, `TemplateLines` and `TemplateReport` lead to the diff.
- **Sections.** `Sections` is the parser of `run-tests.php`, `ServerSections` the one of `server-tests.php`,
  `ServerAgreement` says when they agree, `Gate` is the check whether a test can be run. `DoneLines` and `GateLaws` say
  what both do in terms of the file alone.
- **Runs.** `Runs` is a whole run as a function of everything outside (file contents, process behaviour, which
  may change from one look to the next and may redirect in circles); `Runner` is the same on shared variables;
  `RunTheorems` and `RunCounters` hold what is true of every run, `RunAnomalies` where a run does something unexpected
  and exactly when. `RunCalls` and `RunOutcomes` say what one call adds and what it ends with, `RedirectedTests` what
  becomes of the entries of a list and of the tests behind a redirection, `RunMeaning` when a test passes and `Outputs`
  what is compared. `Requests` builds the body of a raw request, `Results` decides on a result and sums up, `Junit`
  keeps the JUnit log: its state is the replay of the calls it got, and the runner owns one.
- **Collecting tests.** `Scan` is the directory scan, `Order` the order of the tests.
- **Strings.** `PhpStrings` holds the string functions of PHP the rest relies on, `StringLaws` what they do.

The main results:

1. The lookahead never overestimates, for every budget and every relation, and finds the size of a largest
   matching when the budget is large enough; taking an agreeing first pair is optimal for every relation, not
   only for equality. Every later start within reach of the budget counts, and nothing else: a single agreeing line is
   found behind up to six lost or ten added lines, and not behind more. One run with budget s makes at most 2^s calls,
   a whole diff at most 2048 per line.
2. Whatever the lookahead answers, the lines the diff leaves out match one by one, and the lines it reports are
   quoted exactly and in order. Its merged part keeps runs of consecutive lines together; the whole diff does so if
   and only if its tail joins that part. In literal mode the *printed* diff and the expected text give back the
   output character for character, and the other way round. With an exact lookahead no smaller choice of lines
   explains the difference.
3. The letter codes, replaced one after the other, amount to a single pass for every string. A compiled template
   accepts exactly what the template says once its long names are replaced, each code being described without regular
   expressions; it accepts what the template says as written if and only if no long name occurs. Without `%` that is
   the literal text. Placeholders are replaced inside raw sections too, but never across their parentheses, so the
   same holds for templates with raw sections, which mean what the pattern engine makes of them. Each output line that
   the diff of a failed test leaves out is said by a line of the report, failed headers included, and a mismatch never
   has an empty diff.
4. Printing and parsing sections is a round trip; a file is refused exactly when a header repeats or TEST does not
   come first; on accepted files the two parsers agree if and only if headers are letters and nothing but blanks is
   dropped behind `===DONE===`. Where a file section ends, when a test is fit to be run, and which of several reasons a
   borked test is reported with, is said of the text of the file alone.
5. Over every run, with any redirections: every test that is run has its FILE and exactly one expectation; the
   progress counters meet at the end and never cross; counts add up, are backed by the list of failures; the JUnit
   totals and times are conserved, and its counters are the numbers of calls that ended the corresponding way. A test
   passes if and only if it is run, nothing else is wrong, and its output meets its expectation, of any of the three
   kinds; what it ends with otherwise is decided exactly, too. Every test behind a followed redirection with a title is
   run once, in its turn, and leaves its own result.

Where code and comment or expectation differ, the code is followed:

- A test that redirects to anything but one target is borked but leaves the runner marked as being inside a
  redirection, so later redirections are borked too: exactly when is `RunAnomalies.StuckIff` and
  `RunAnomalies.FollowedIff`, a run where it happens `RunAnomalies.SecondRedirectionBorked`.
- A test given up for an empty request is borked without an entry in the list of failures: exactly when is
  `RunAnomalies.UnlistedIff`, a run with more borked tests than entries `RunAnomalies.BorkedWithoutEntry`. The bound
  of `RunTheorems.RunSummary` for BORKED counts these tests.
- Behind a redirection whose title is empty or 0 no test is unwrapped and run: each is skipped or borked, and
  none leaves a result (`RedirectedTests.UntitledTargetsStoreNothing` and `RedirectedTests.PairEnds`).
- The merge keeps runs of consecutive lines together, but the tail of a diff is printed behind it and may continue a
  run that was merged earlier (`DiffShape.DiffKeepsRunsIff`, and `DiffShape.RunSplitByTail` for an input).
- `preg_match("/^…$/s")` also accepts one newline behind the text; output is trimmed before, which is why it does
  not matter (`ExpectFMeaning.PlainAccepted`).
- A long placeholder that is taken out or replaced always changes what a template says, and can join its neighbours
  into a new code (`ShortestOutput.CompiledAsWrittenIff`, and `ShortestOutput.NameLost` for a template).
- A raw section that holds a letter code or a long name does not reach the pattern as written
  (`RawSections.RawSurvivesIff`).
- `server-tests.php` tests `feof` before reading and takes the failed read at the end for a line, which makes a
  section without a name out of an empty file (`ServerSections.FailedReadMatters`).
- `restype` is empty only on the early return for a clean pass (`Results.KindsNotEmpty`).

## Model

| member | source | states |
|---|---|---|
| `Matching.LcsIsLargest` | php-5.6.40-src/run-tests.php:2153-2158 | no increasing matching of lines is larger than the recurrence says, for every line relation: greedily pairing agreeing lines loses nothing |
| `Matching.LcsIsAttained` | php-5.6.40-src/run-tests.php:2149-2189 | that size is attained by some matching |
| `Lookahead.CountArrayDiff` | php-5.6.40-src/run-tests.php:2149-2189 | the recursive count with its two loops computes the estimate, takes every later start within reach on either side into account (the common run from there, behind the first run, is a lower bound), and makes at most two to the power of its budget calls, whatever the lines |
| `Lookahead.SkipExpectedLines` | php-5.6.40-src/run-tests.php:2161-2169 | the first inner loop finds the best estimate over later starts on the expected side, with half the budget |
| `Lookahead.SkipOutputLines` | php-5.6.40-src/run-tests.php:2171-2179 | the second inner loop does so on the output side, with the whole budget |
| `Lookahead.LaterExpectedCounts` | php-5.6.40-src/run-tests.php:2161-2169 | every later start on the expected side counts with half of what is left of the budget, less one step for each start up to it: what the count finds from there, and the common run from there, behind the first run, are lower bounds |
| `Lookahead.LaterOutputCounts` | php-5.6.40-src/run-tests.php:2171-2179 | so does every later start on the output side, with all that is left |
| `Lookahead.EstimateAttained` | php-5.6.40-src/run-tests.php:2149-2189 | and nothing else counts: the result is the first run, or the first run and what is found from one of those starts |
| `Lookahead.EstimateIsMatching` | php-5.6.40-src/run-tests.php:2149-2189 | for every budget and relation the result is the size of some increasing matching at or after the two starts |
| `Lookahead.EstimateAtMostLcs` | php-5.6.40-src/run-tests.php:2149-2189 | it is never above the largest matching nor above the lines left on either side |
| `Lookahead.CommonRunIsOptimal` | php-5.6.40-src/run-tests.php:2153-2158 | after the leading agreeing lines the rest of a largest matching is still available |
| `Lookahead.EstimateIsExact` | php-5.6.40-src/run-tests.php:2149-2189 | with a budget that doubles per expected line and grows by two per output line the result is the size of a largest matching |
| `Lookahead.EstimateIsExactForTotal` | php-5.6.40-src/run-tests.php:2149-2189 | the same for the budget B(n) = 2B(n-1)+n+3 in the number n of lines left |
| `LostLines.SeesSixLines` | php-5.6.40-src/run-tests.php:2206-2207 | for a single line of output the lookahead sees something if and only if that line is one of the next six expected ones |
| `LostLines.LostLinesReportedIff` | php-5.6.40-src/run-tests.php:2199-2253 | lines lost in front of the only line of the output are reported as missing, and nothing else is reported, if and only if there are at most six of them |
| `LostLines.FiveLostLines` | php-5.6.40-src/run-tests.php:2163-2169 | p0 to p4 and q expected against q: the five lost lines are reported, for which the later starts are needed |
| `LostLines.SeesTenLines` | php-5.6.40-src/run-tests.php:2206-2207 | for a single expected line the lookahead sees something if and only if that line is one of the next ten of the output |
| `LostLines.AddedLinesReportedIff` | php-5.6.40-src/run-tests.php:2199-2253 | lines added in front of the only expected line are reported as such, and nothing else is reported, if and only if there are at most ten of them |
| `LostLines.SwappedLines` | php-5.6.40-src/run-tests.php:2209-2214 | where both sides see equally much the line of the output is reported first |
| `DiffShape.ExactDeleted` | php-5.6.40-src/run-tests.php:2199-2249 | with an exact lookahead the diff reports all expected lines but those of a largest matching |
| `DiffShape.ExactAdded` | php-5.6.40-src/run-tests.php:2199-2253 | and all output lines but those |
| `DiffShape.ExactDiffIsShortest` | php-5.6.40-src/run-tests.php:2191-2256 | then no other choice of lines to leave out, on either side, lets the rest match with fewer |
| `DiffShape.SmallDiffIsShortest` | php-5.6.40-src/run-tests.php:2206-2207 | so it is for the program's own lookahead on texts its budget of 10 is enough for |
| `ArrayDiff.GenerateArrayDiff` | php-5.6.40-src/run-tests.php:2191-2256 | scan, merge and tails produce the specified edits whether array keys are read before or after the cursor moves, with at most 2048 lookahead calls per line |
| `ArrayDiff.ScanLines` | php-5.6.40-src/run-tests.php:2199-2221 | the two-cursor loop marks the lines the scan marks and stops where it stops |
| `ArrayDiff.ScanRound` | php-5.6.40-src/run-tests.php:2201-2220 | one round moves past a matching pair, or reports and passes one line or both |
| `ArrayDiff.ChooseSides` | php-5.6.40-src/run-tests.php:2206-2219 | which of two differing lines is reported, from the two lookaheads, and their cost |
| `ArrayDiff.MergeEditLists` | php-5.6.40-src/run-tests.php:2223-2245 | the merge loop over the two arrays, for every constant shift of the keys, gives one and the same merge, and ends |
| `ArrayDiff.MergeKeepsSides` | php-5.6.40-src/run-tests.php:2226-2245 | every entry of both lists is emitted exactly once and each list keeps its order |
| `ArrayDiff.DiffSides` | php-5.6.40-src/run-tests.php:2223-2253 | the '-' entries of the whole diff are the deleted lines with their text, the '+' entries the added ones, tails included |
| `ArrayDiff.MarksIncrease` | php-5.6.40-src/run-tests.php:2199-2253 | line numbers strictly increase on each side and lie inside the texts |
| `DiffTheorems.MergeKeepsRuns` | php-5.6.40-src/run-tests.php:2226-2245 | lines that follow one another on a side are emitted next to each other, and each side ascends in place, though the two sides are not in global order |
| `DiffTheorems.MergeOrdersRuns` | php-5.6.40-src/run-tests.php:2236-2244 | an entry that starts a run comes before all later entries of the other side by line number, '+' first on equal numbers |
| `DiffTheorems.MergedRunsInOrder` | php-5.6.40-src/run-tests.php:2223-2245 | so the merged part of every diff is made of whole runs, each placed by its first line |
| `DiffShape.DiffKeepsRunsIff` | php-5.6.40-src/run-tests.php:2223-2253 | at most one side has a tail, and the whole diff keeps runs together if and only if there is no tail, the line before it is unmarked, or the merged part ends with that line |
| `DiffShape.RunSplitByTail` | php-5.6.40-src/run-tests.php:2247-2253 | "x" expected against "z", "y": with the program's lookahead the diff reports z, x, y and splits the run of added lines |
| `DiffTheorems.UnmarkedLinesAgree` | php-5.6.40-src/run-tests.php:2199-2221 | whatever the lookahead answers, dropping deleted and added lines leaves lines that match one by one |
| `DiffTheorems.DiffIsSound` | php-5.6.40-src/run-tests.php:2191-2256 | in every mode the diff quotes wanted and output lines in increasing order, and the lines it does not mention match one by one |
| `DiffTheorems.LiteralDiffIsPatch` | php-5.6.40-src/run-tests.php:2191-2256 | in literal mode applying the diff to the expected lines gives the output lines, and reverting it gives the expected ones |
| `DiffTheorems.FillUndoesKeep` | php-5.6.40-src/run-tests.php:2209-2219 | taking reported lines out of a text and putting them back at their numbers restores it |
| `DiffTheorems.EmptyDiffIffMatch` | php-5.6.40-src/run-tests.php:2199-2255 | the diff is empty if and only if the texts match line by line |
| `DiffText.GenerateDiff` | php-5.6.40-src/run-tests.php:2258-2266 | texts are cut at newlines, compared literally or through the regular expression, and the diff is joined with CRLF; in literal mode the text it returns turns either text into the other |
| `DiffText.ParseRender` | php-5.6.40-src/run-tests.php:2210-2218 | a printed entry determines line number, sign and text, and is never false in PHP, so `next()` stops only at the end of an array |
| `DiffText.PaddedLength` | php-5.6.40-src/run-tests.php:2210-2218 | line numbers are printed with three digits, and with as many as they need from 1000 on |
| `DiffText.TwoLinesPrinted` | php-5.6.40-src/run-tests.php:2265-2265 | a diff of two entries, character for character |
| `DiffText.ParsePrint` | php-5.6.40-src/run-tests.php:2265-2265 | the printed diff determines the diff, although lines may end in a carriage return |
| `DiffText.PrintedDiffIsPatch` | php-5.6.40-src/run-tests.php:2258-2266 | literal mode: expected text and printed diff give the output character for character, output and diff give the expected text |
| `PhpStrings.ImplodeExplode` | php-5.6.40-src/run-tests.php:2260-2262 | joining the lines of a text gives the text |
| `FailureReport.SameNumberOfLines` | php-5.6.40-src/run-tests.php:2046-2054 | wanted text and regular expression have equally many lines, for EXPECTF and EXPECTREGEX, with and without the header block |
| `TemplateReport.HeadersAbove` | php-5.6.40-src/run-tests.php:2046-2049 | failed headers stand above the wanted text, with the line --HEADERS-- between them |
| `FailureReport.ReportIsSound` | php-5.6.40-src/run-tests.php:2046-2086 | the diff of a failed test is sound for every kind of expectation and every answer of `preg_match`: each reported missing line is a line of the wanted text |
| `TemplateLines.PatternLines` | php-5.6.40-src/run-tests.php:2260-2262 | the lines of a compiled template are the compiled lines of the template, when no raw section reaches over a line end |
| `TemplateLines.TemplateLinesSaid` | php-5.6.40-src/run-tests.php:2140-2147 | a template says what its lines say one by one |
| `TemplateReport.UnreportedLinesAreSaid` | php-5.6.40-src/run-tests.php:2046-2084 | in the diff of a failed EXPECTF test, with or without failed headers, every output line left out is said by the line of the report left out at its place: a header line by itself, a template line by its meaning |
| `TemplateReport.MismatchIsReported` | php-5.6.40-src/run-tests.php:2046-2084 | an output that the report, headers included, does not say never has an empty diff |
| `TemplateReport.AcceptedOrReported` | php-5.6.40-src/run-tests.php:1991-2084 | an output the compiled template does not accept never has an empty diff |
| `TemplateReport.LiteralMismatchIsReported` | php-5.6.40-src/run-tests.php:2258-2266 | in literal mode the printed diff is empty if and only if the texts are equal |
| `ExpectF.QuoteTemplate` | php-5.6.40-src/run-tests.php:1924-1950 | the loop ends and quotes the text outside balanced %r markers, passing the rest through in parentheses |
| `ExpectF.FindRaw` | php-5.6.40-src/run-tests.php:1930-1941 | the next two markers, or none when the second is missing |
| `ExpectF.CutIsLossless` | php-5.6.40-src/server-tests.php:1428-1454 | the quoted and raw pieces, with their markers put back, are the template; the loop of server-tests.php is the same |
| `ExpectF.CutsAreAtMarkers` | php-5.6.40-src/run-tests.php:1929-1941 | no raw piece and no text in front of one holds a marker, and the text at the end at most one, the unbalanced marker, which is quoted |
| `RawSections.OneRawSection` | php-5.6.40-src/run-tests.php:1942-1947 | the text between two markers is put into parentheses as it stands, the text around them is quoted |
| `ExpectF.CompileExpectf` | php-5.6.40-src/run-tests.php:1920-1984 | normalising, quoting, long names and letter codes in the order of the source |
| `ExpectF.CompileNewlines` | php-5.6.40-src/run-tests.php:1920-1984 | compiling keeps the number of newlines |
| `ExpectF.QuoteNewlines` | php-5.6.40-src/run-tests.php:2052-2053 | quoting keeps the number of newlines |
| `ExpectF.QuotedCharacter` | php-5.6.40-src/run-tests.php:1943-1943 | which characters get a backslash, the delimiter among them; NUL becomes three digits, all others stay |
| `PhpStrings.StrReplaceNewlines` | php-5.6.40-src/run-tests.php:1952-1983 | so does replacing a text by one with as many newlines |
| `Placeholders.OneMoreCode` | php-5.6.40-src/run-tests.php:1973-1983 | one more replacement on top of a single pass is a single pass with one more code |
| `Placeholders.ChainIsSinglePass` | php-5.6.40-src/run-tests.php:1973-1983 | for every string the eleven replacements in a row are one pass from left to right |
| `LongNames.QuoteIsPrefixCode` | php-5.6.40-src/run-tests.php:1943-1943 | a quoted text begins with another one if and only if the texts do |
| `LongNames.NamesBeforeQuoting` | php-5.6.40-src/run-tests.php:1952-1971 | replacing the six long names after quoting is quoting the template with its names replaced, for every template |
| `LongNames.NamesBecomeTexts` | php-5.6.40-src/run-tests.php:1952-1971 | "string" stands for four of the long names and nothing for the other two, whatever is replaced before |
| `LongNames.CompileIsSinglePass` | php-5.6.40-src/run-tests.php:1924-1983 | so every template without raw sections is compiled in one pass over its quoted text |
| `RawSections.ReplaceAround` | php-5.6.40-src/run-tests.php:1952-1983 | replacing never reaches across a character the needle does not hold |
| `RawSections.CompiledByPieces` | php-5.6.40-src/run-tests.php:1924-1983 | for every template the placeholders are replaced in each quoted and in each raw piece on its own |
| `RawSections.RawSurvivesIff` | php-5.6.40-src/run-tests.php:1946-1983 | a raw section reaches the pattern as written if and only if it holds no letter code and no long name |
| `Regex.MatchesAppend` | php-5.6.40-src/run-tests.php:1991-1991 | one pattern after another matches exactly what splits into a match of each |
| `CodePatterns.ParseCode` | php-5.6.40-src/run-tests.php:1973-1983 | the text of every code, in front of any pattern, is read as the pattern of that code |
| `CodeMeaning.CodeMeans` | php-5.6.40-src/run-tests.php:1973-1984 | the pattern of each code matches exactly the strings the code stands for: lines, text, spaces, integers, digits, hex digits, numbers, one character, the directory separator |
| `CodeMeaning.NumberMeans` | php-5.6.40-src/run-tests.php:1982-1984 | %f matches exactly: sign, point, digits, point, digits, exponent, of which only the first digits must be there (two points included) |
| `CodeMeaning.DigitsAre` | php-5.6.40-src/run-tests.php:1979-1982 | which characters are digits, hexadecimal digits and signs |
| `CodeMeaning.NumbersAndNot` | php-5.6.40-src/run-tests.php:1982-1984 | -.0.0 is a number, 1e and a point alone are not |
| `ExpectFMeaning.MeansIs` | php-5.6.40-src/run-tests.php:1973-1983 | a template says what it says up to one of the eleven letters behind a percent sign, then a text that letter stands for; any other character stands for itself |
| `ExpectFMeaning.ParseOfTemplate` | php-5.6.40-src/run-tests.php:1924-1983 | quoting followed by replacing gives the text of the template's pattern, in a syntax in which a bare delimiter ends the pattern: the compiled text holds none |
| `ExpectFMeaning.ReMeans` | php-5.6.40-src/run-tests.php:1973-1991 | that pattern matches exactly what the template says |
| `ExpectFMeaning.CompiledTemplateMeans` | php-5.6.40-src/run-tests.php:1920-1991 | a compiled template without raw sections accepts an output if and only if the template, its long names replaced, says the output, or the output without one final newline |
| `RawMeaning.EveryTemplateMeans` | php-5.6.40-src/run-tests.php:1920-1991 | so it is for every template and every engine that reads raw sections as groups, a raw section standing for what the engine makes of it |
| `RawMeaning.PatternSaid` | php-5.6.40-src/run-tests.php:1942-1950 | the pattern put together matches one string of each piece after the other |
| `ExpectFMeaning.PlainTemplateIsLiteral` | php-5.6.40-src/run-tests.php:2014-2019 | for a template without % and trimmed output the EXPECTF branch accepts exactly when the EXPECT branch would |
| `ExpectFMeaning.PlainAccepted` | php-5.6.40-src/run-tests.php:1991-1991 | without trimming, the text itself and the text with one newline behind it are accepted, nothing else |
| `ShortestOutput.ShortestIsSaid` | php-5.6.40-src/run-tests.php:1973-1991 | every template says some output |
| `ShortestOutput.NothingShorterIsSaid` | php-5.6.40-src/run-tests.php:1973-1991 | and nothing shorter than a shortest one |
| `ShortestOutput.NamesKeepMeaningIff` | php-5.6.40-src/run-tests.php:1952-1971 | replacing the long names keeps what a template says if and only if none occurs in it |
| `ShortestOutput.CompiledAsWrittenIff` | php-5.6.40-src/run-tests.php:1920-1991 | a compiled template without raw sections accepts exactly what the template says as written if and only if no long name occurs in it |
| `RawMeaning.EveryTemplateAsWrittenIff` | php-5.6.40-src/run-tests.php:1920-1991 | so it is for templates whose raw sections hold no placeholders and can match something |
| `ShortestOutput.NameLost` | php-5.6.40-src/run-tests.php:1967-1971 | a template that is one of the short long names says the empty output once the name is replaced, but not as written |
| `Sections.ParseSections` | php-5.6.40-src/run-tests.php:1209-1269 | the line loop computes the parser machine's sections and its reason to bork |
| `Sections.BorkedIff` | php-5.6.40-src/run-tests.php:1227-1254 | a file is accepted if and only if it begins with --TEST-- and no header occurs twice, TEST included |
| `Sections.LastRepeated` | php-5.6.40-src/run-tests.php:1249-1252 | of several repeated headers the last one is reported |
| `Sections.FirstLineDecides` | php-5.6.40-src/run-tests.php:1217-1232 | without a repeated header the first line decides, and an empty file cannot be read |
| `Sections.ParsePrinted` | php-5.6.40-src/run-tests.php:1237-1269 | parsing printed sections gives the same map without bork; a file section ends at its ===DONE=== line |
| `DoneLines.KeptEverythingIff` | php-5.6.40-src/run-tests.php:1259-1268 | a body survives if and only if its section is not FILE, FILEEOF or FILE_EXTERNAL or no line follows a line of ===DONE=== and white space |
| `DoneLines.DoneEndsFile` | php-5.6.40-src/run-tests.php:1259-1268 | in a file section the first line of ===DONE=== and white space is kept and all behind it up to the next header is dropped |
| `DoneLines.OtherLinesAreKept` | php-5.6.40-src/run-tests.php:1259-1268 | in other sections, and where ===DONE=== goes on with anything else, all lines are kept |
| `DoneLines.CodeBehindDone` | php-5.6.40-src/run-tests.php:1266-1266 | a file with code behind its ===DONE=== line, and what its FILE section is |
| `DoneLines.HeaderIff` | php-5.6.40-src/run-tests.php:1244-1247 | a line is the header of a section if and only if it begins with two dashes, the name in capitals and underscores, and two dashes |
| `Sections.FileRoundTrip` | php-5.6.40-src/run-tests.php:1209-1269 | the same through the text of the file, cut into lines again |
| `Sections.SplitConcat` | php-5.6.40-src/run-tests.php:1238-1242 | reading the lines of a file gives the lines it was written from, whether or not the last one ends in a newline |
| `Sections.HeaderOfHeaderLine` | php-5.6.40-src/run-tests.php:1244-1247 | a printed header line is read as that header |
| `ServerSections.GetSectionText` | php-5.6.40-src/server-tests.php:1136-1174 | the second parser with its defaults, the failed read at the end of the file and the trimming pass |
| `ServerSections.FailedReadMatters` | php-5.6.40-src/server-tests.php:1152-1164 | that read changes nothing but for an empty file, which gets a section without a name |
| `ServerSections.HeadersAgree` | php-5.6.40-src/server-tests.php:1155-1159 | a header of letters only is the same header for both parsers |
| `ServerSections.ParsersAgree` | php-5.6.40-src/server-tests.php:1136-1174 | on files starting with --TEST--, with letter headers and nothing behind ===DONE===, the second parser has the sections of the first, finished, and besides them only its defaults |
| `ServerSections.SectionsAreTrimmed` | php-5.6.40-src/server-tests.php:1166-1173 | each section but POST is the trimmed section of the first parser |
| `ServerSections.PostKeepsAllButItsEnd` | php-5.6.40-src/server-tests.php:1166-1173 | of POST one CRLF or newline at its end is dropped and nothing else; without one, and in every other section, all margins are |
| `ServerSections.DefaultsStay` | php-5.6.40-src/server-tests.php:1139-1146 | the defaults that a file leaves standing |
| `ServerAgreement.ParsersAgreeIff` | php-5.6.40-src/server-tests.php:1152-1173 | on every file the first parser accepts, the second has the same sections, finished, if and only if headers are made of letters and only blank lines are dropped behind ===DONE=== |
| `ServerAgreement.SolidFinish` | php-5.6.40-src/server-tests.php:1166-1173 | finishing a section takes away blanks only |
| `Gate.CheckSections` | php-5.6.40-src/run-tests.php:1271-1318 | a test is accepted for running, or as a redirection, if and only if it meets the stated conditions, and goes on with the sections read in; otherwise it is borked for the reason found last |
| `Gate.LoadExternals` | php-5.6.40-src/run-tests.php:1295-1311 | the loop reads external sections in and keeps the last one whose file is missing |
| `Gate.LoadedIsReadIn` | php-5.6.40-src/run-tests.php:1295-1311 | after the loop over the prefixes every section is what it should be, whatever files are missing: references are gone, files are read in, dangling references are paths, the rest is untouched |
| `GateLaws.RunnableIff` | php-5.6.40-src/run-tests.php:1273-1317 | a test is fit to be run if and only if it redirects nowhere, has exactly one of FILE, FILEEOF and FILE_EXTERNAL and one kind of expectation, in either form, and all files it refers to are there |
| `GateLaws.RunnableExpectation` | php-5.6.40-src/run-tests.php:1295-1306 | what it expects is what its sections say, or what the files hold they refer to |
| `GateLaws.ReasonIs` | php-5.6.40-src/run-tests.php:1285-1317 | which of several reasons is reported: the expectation before a missing file, the last of these before the others, and all before FILE |
| `GateLaws.FileEofStripped` | php-5.6.40-src/run-tests.php:1291-1291 | all line ends at the end of FILEEOF are dropped, and nothing else |
| `GateLaws.PlainPath` | php-5.6.40-src/run-tests.php:1300-1300 | a file name with margins and without two dots in a row is looked up below the directory of the test |
| `GateLaws.DottedPath` | php-5.6.40-src/run-tests.php:1300-1300 | two dots in a row are taken out, and what stands around them is looked up in one |
| `Gate.RunnableIsComplete` | php-5.6.40-src/run-tests.php:1273-1318 | every accepted test has FILE, exactly one of EXPECT, EXPECTF, EXPECTREGEX, and no REDIRECTTEST |
| `Gate.RunnableFile` | php-5.6.40-src/run-tests.php:1285-1306 | where its FILE text comes from |
| `Gate.ExternalStaysBelow` | php-5.6.40-src/run-tests.php:1299-1300 | behind the directory of the test an external path has no two dots in a row |
| `Results.Judge` | php-5.6.40-src/run-tests.php:1991-2071 | the flags of a test that ran lead to the early pass or to the list of kinds, in order |
| `Results.KindsNotEmpty` | php-5.6.40-src/run-tests.php:2045-2071 | at the fall-through there is always a first kind, and every kind is one that is listed |
| `Results.OutcomeIff` | php-5.6.40-src/run-tests.php:2056-2137 | which flags lead to which result, in both directions |
| `Results.ComputeSummary` | php-5.6.40-src/run-tests.php:2328-2354 | each count is the number of results of its kind, ignored tests are added to the skipped ones, the counts add up to the total, and each of the seven percentages is its share, or false without any test |
| `Results.PercentagesAddUp` | php-5.6.40-src/run-tests.php:2350-2354 | before rounding the percentages add up to a hundred |
| `Results.StoreCounts` | php-5.6.40-src/run-tests.php:1154-1155 | storing a result adds at most one to its own count, even when an index is stored again |
| `Results.CountsAddUp` | php-5.6.40-src/run-tests.php:2332-2346 | the seven counts add up to the number of stored results |
| `Runs.RunOne` | php-5.6.40-src/run-tests.php:1185-2138 | `run_test` ends for every outside, since inside a redirection it never enters another, and never leaves the one it is in |
| `Runs.RunAll` | php-5.6.40-src/run-tests.php:1134-1160 | `run_all_tests` ends for every outside, redirections in circles included |
| `Expectations.CompareOutput` | php-5.6.40-src/run-tests.php:1910-2019 | EXPECT is compared literally, EXPECTF is compiled and EXPECTREGEX normalised before the pattern engine is asked |
| `RunMeaning.PassedIff` | php-5.6.40-src/run-tests.php:1991-2037 | a call ends with PASSED if and only if the test is compared, has no leak, failed header or XFAIL, and its output meets the expectation |
| `RunMeaning.PassedIffSaid` | php-5.6.40-src/run-tests.php:1910-2011 | an EXPECTF test passes if and only if so and its template says its output |
| `RunMeaning.PassedIffEqual` | php-5.6.40-src/run-tests.php:2014-2037 | a test with EXPECT alone passes if and only if so and the output is the text of that section, trimmed and with plain newlines |
| `RunMeaning.PassedIffPattern` | php-5.6.40-src/run-tests.php:1918-1991 | an EXPECTREGEX test passes if and only if so and the pattern engine finds its output to match the text, trimmed and with plain newlines |
| `RunMeaning.CleanedEnds` | php-5.6.40-src/run-tests.php:1854-1860 | a compared output never ends in a newline |
| `Outputs.HeadersCut` | php-5.6.40-src/run-tests.php:1860-1861 | what is compared of a CGI answer is what stands behind its first empty line, without margins |
| `Outputs.NoHeadersCut` | php-5.6.40-src/run-tests.php:1854-1861 | without an empty line, and without CGI, it is the output, without margins and with plain newlines |
| `Outputs.PlainLineEnds` | php-5.6.40-src/run-tests.php:1855-1855 | every CRLF becomes a newline and nothing else changes |
| `StringLaws.TrimTakesMargins` | php-5.6.40-src/run-tests.php:1855-1855 | trimming takes away spaces, tabs, line ends, NUL and vertical tabs at both ends, and nothing else |
| `StringLaws.ReplaceFirst` | php-5.6.40-src/run-tests.php:1952-1983 | the first place of a needle is replaced, and then those in the text behind it |
| `StringLaws.LowerLetters` | php-5.6.40-src/run-tests.php:884-884 | capitals become small letters, all other characters stay |
| `RunOutcomes.ComparedEnds` | php-5.6.40-src/run-tests.php:2014-2137 | what a test ends with whose output is compared: a leak counts before a warning and a warning before a failure, and an expected failure that does not happen is a warning |
| `RunOutcomes.BorkedIff` | php-5.6.40-src/run-tests.php:1244-1731 | a call borks its test if and only if the file is refused, or it redirects to anything but one target, or it is not skipped and is a pair or given up |
| `RunOutcomes.RedirIff` | php-5.6.40-src/run-tests.php:1569-1607 | a call follows a redirection if and only if the file redirects, outside of one, is not skipped and names one target |
| `RunOutcomes.UnfollowedAdds` | php-5.6.40-src/run-tests.php:1609-1642 | without exactly one target a redirection is listed twice, marked once, and not left |
| `RunCalls.OneCall` | php-5.6.40-src/run-tests.php:1185-2138 | all that a call adds that follows nothing: one end with its mark, for the suite of the test or of the report, with its time or 0; one initialisation for each process; progress; the sections run; and one entry for each kind of failure |
| `RunCalls.SkippedIff` | php-5.6.40-src/run-tests.php:1323-1566 | a call skips its test if and only if it passes the checks and lacks the CGI binary, or its script says so, or a compressed request lacks zlib |
| `RunCalls.NeedsCgiIff` | php-5.6.40-src/run-tests.php:1323-1325 | which sections ask for the CGI binary, unless they are empty or 0 |
| `Requests.BuildRequest` | php-5.6.40-src/run-tests.php:1669-1688 | the loop over the lines of a raw request drops content-type lines until a type is known and joins the others |
| `Requests.NothingLeftIff` | php-5.6.40-src/run-tests.php:1690-1693 | nothing is left of a request if and only if its body has no line, one empty line or one line 0 |
| `Requests.TypeLineIff` | php-5.6.40-src/run-tests.php:1675-1675 | a line names the content type if and only if it begins with the header, in whatever case |
| `Requests.TypeLineDropped` | php-5.6.40-src/run-tests.php:1673-1687 | the first line that names a type is dropped, and no other one behind it |
| `Requests.RequestStays` | php-5.6.40-src/run-tests.php:1669-1688 | a request without such a line, or with the type known, is kept whole, without margins |
| `Runner.TestRunner.RunSelected` | php-5.6.40-src/run-tests.php:943-945 | the entry point computes the run from the initial counters, ends with index and count equal, sound results and counts that add up, and leaves a JUnit log that is balanced, summed up, has one test per call and counts how the calls ended |
| `Runner.TestRunner.RunAllTests` | php-5.6.40-src/run-tests.php:1134-1160 | the loop over the tests computes the run on the shared variables |
| `Runner.TestRunner.RunTest` | php-5.6.40-src/run-tests.php:1185-2138 | one test, with its new state and result |
| `Runner.TestRunner.Examine` | php-5.6.40-src/run-tests.php:1209-1318 | parsing and gate together decide whether a test is borked, redirects or runs, and with which sections |
| `Runner.TestRunner.Prepare` | php-5.6.40-src/run-tests.php:1339-1367 | when a test is skipped, when progress is shown, and what the log is told |
| `Runner.TestRunner.FollowRedirection` | php-5.6.40-src/run-tests.php:1569-1642 | the counters handed to the tests behind a redirection, and the borked case |
| `Runner.TestRunner.Execute` | php-5.6.40-src/run-tests.php:1644-2137 | from running a test to its result, its entries and its mark |
| `Runner.TestRunner.Tell` | php-5.6.40-src/run-tests.php:1606-1606 | a call on the JUnit log keeps the log equal to what the run has told it |
| `RunTheorems.RunOneDone` | php-5.6.40-src/run-tests.php:1589-1607 | a test leaves the number of tests to come as it is, whatever it redirects to; it has its entry before its result is stored; each call marks the log once |
| `RunTheorems.RunItemDone` | php-5.6.40-src/run-tests.php:1151-1155 | each item of a list lowers the tests to come by exactly one |
| `RunTheorems.RunAllDone` | php-5.6.40-src/run-tests.php:1134-1160 | a list lowers them by its length, and soundness is kept throughout |
| `RunTheorems.RunAllKeeps` | php-5.6.40-src/run-tests.php:1154-1155 | no result is lost in a run, nested runs included |
| `RedirectedTests.EntryLeavesResult` | php-5.6.40-src/run-tests.php:1138-1156 | an entry of a list is run as a file, whether it is a file or a pair behind a title; it has a result under its own name, "# title: name" or "# redirection: name" at the end, unless it redirected, and that result is its own when no later entry writes it |
| `RedirectedTests.PairLeavesResult` | php-5.6.40-src/run-tests.php:1140-1155 | the same for a test behind a redirection, spelled out |
| `RedirectedTests.EveryTargetRuns` | php-5.6.40-src/run-tests.php:1569-1607 | every test behind a followed redirection with a title is run once, in its turn, and has its own result under the name of the redirection at the end |
| `RedirectedTests.EveryTargetPassesIff` | php-5.6.40-src/run-tests.php:1578-1607 | and it is PASSED if and only if its file, looked at in its turn, is compared, clean and meets its expectation |
| `RedirectedTests.UntitledTargetsStoreNothing` | php-5.6.40-src/run-tests.php:1144-1154 | behind a redirection whose title is empty or 0 no test leaves a result |
| `RedirectedTests.PairEnds` | php-5.6.40-src/run-tests.php:1624-1642 | a pair that is not unwrapped and does not redirect is skipped or borked |
| `RedirectedTests.PairsTargetRuns` | php-5.6.40-src/run-tests.php:1575-1607 | a pair that redirects runs the file it names, and that alone |
| `RedirectedTests.PassedAtTheEndIff` | php-5.6.40-src/run-tests.php:943-945 | in a whole run the result of a file that is not named again, and behind which no redirection is followed, is PASSED at the end if and only if the file, looked at in its turn, is compared, clean and meets its expectation |
| `RunTheorems.WholeRun` | php-5.6.40-src/run-tests.php:943-945 | every run ends with index and count equal, the index was never above the count when shown, every test run had its sections |
| `RunTheorems.RunSummary` | php-5.6.40-src/run-tests.php:2328-2348 | after every run each result is one of the seven, the counts add up, and LEAKED, WARNED, XFAILED and FAILED never exceed their entries (BORKED only by empty requests) |
| `RunTheorems.NoNestedRedirection` | php-5.6.40-src/run-tests.php:1274-1281 | inside a redirection no further one is entered |
| `RunAnomalies.LeavesInsideIff` | php-5.6.40-src/run-tests.php:1572-1637 | outside of a redirection a test leaves the runner inside one if and only if it redirects, is not skipped and does not name exactly one target |
| `RunAnomalies.StuckIff` | php-5.6.40-src/run-tests.php:1134-1160 | after a list the runner is inside a redirection if and only if it began so or some item left it there |
| `RunAnomalies.InsideIsBorked` | php-5.6.40-src/run-tests.php:1274-1279 | inside, every test that redirects is borked |
| `RunAnomalies.FollowedIff` | php-5.6.40-src/run-tests.php:1569-1607 | a redirection with one target is followed in a run if and only if no earlier item left the runner inside, and borked otherwise |
| `RunAnomalies.SecondRedirectionBorked` | php-5.6.40-src/run-tests.php:1609-1620 | a run of two redirections whose second is borked, though on its own it is followed |
| `RunAnomalies.UnlistedIff` | php-5.6.40-src/run-tests.php:1690-1696 | a call borks a test without listing it if and only if the test is run and given up for an empty request |
| `RunAnomalies.BorkedWithoutEntry` | php-5.6.40-src/run-tests.php:1724-1730 | a run with one borked test and no entry for it |
| `RunTheorems.RunLog` | php-5.6.40-src/run-tests.php:1606-1606 | the JUnit log of every run is balanced, and its total is the final count plus the redirections |
| `RunCounters.RunOneTraced` | php-5.6.40-src/run-tests.php:1333-1333 | each call ends once, with its result and a fitting mark |
| `RunCounters.RunCounted` | php-5.6.40-src/run-tests.php:2721-2746 | after every run JUnit skips are the calls that ended SKIPPED, errors those that ended BORKED and those LEAKED with nothing else wrong; passes, failures and warnings go by the kinds |
| `Junit.Log.constructor` | php-5.6.40-src/run-tests.php:2623-2647 | a fresh log has all counters at 0 |
| `Junit.Log.SuiteRecord` | php-5.6.40-src/run-tests.php:2752-2757 | a record adds its value to the aggregate and to the suite, creating what is missing |
| `Junit.Log.MarkTestAs` | php-5.6.40-src/run-tests.php:2701-2750 | a mark with its time is appended to the history the counters stand for |
| `Junit.Log.InitSuite` | php-5.6.40-src/run-tests.php:2792-2811 | so is an initialisation |
| `Junit.InitCreates` | php-5.6.40-src/run-tests.php:2796-2811 | a suite without any record gets six counters at 0, any other is left alone |
| `Junit.ChooseCounter` | php-5.6.40-src/run-tests.php:2721-2746 | which counter a kind, or a list of kinds, adds to |
| `Junit.CountersCountMarks` | php-5.6.40-src/run-tests.php:2701-2757 | every counter, of the aggregate and of each suite, is the number of marks that add to it, and the time the sum of their times |
| `Junit.Conserved` | php-5.6.40-src/run-tests.php:2701-2757 | after any sequence of calls the total is passes, failures, errors, skips and warnings, in the aggregate and in each suite, and the aggregate, time included, is the sum over the suites |
| `Junit.InitKeepsCounts` | php-5.6.40-src/run-tests.php:2796-2798 | initialising late changes no count |
| `Scan.Scanner.FindFiles` | php-5.6.40-src/run-tests.php:875-909 | the scan appends the paths of the tests that are not ignored, in order, and counts the others |
| `Scan.Scanner.Visit` | php-5.6.40-src/run-tests.php:883-905 | one entry: what lies below it first, then the entry itself, which may be a directory |
| `Scan.EachTestOnce` | php-5.6.40-src/run-tests.php:897-905 | every *.phpt entry of the tree is met exactly once and either collected or counted as ignored, and collected are the paths of exactly those that are not ignored |
| `Scan.TestsArePlaces` | php-5.6.40-src/run-tests.php:883-905 | the scan meets a place if and only if a test lies there, below directories that are entered |
| `Scan.CollectedBelow` | php-5.6.40-src/run-tests.php:885-891 | a test is ignored exactly when the scan began so or its outermost directory is an extension that is not tested |
| `Scan.TestIff` | php-5.6.40-src/run-tests.php:897-897 | a test is whatever has a name ending in .phpt, a directory too |
| `Scan.DirectoryEntered` | php-5.6.40-src/run-tests.php:883-889 | nothing below ., .. and .svn is met; of any other directory everything is |
| `Scan.PathJoins` | php-5.6.40-src/run-tests.php:889-903 | the path of a test names the directories on the way to it |
| `Scan.ExtensionLookedUp` | php-5.6.40-src/run-tests.php:884-884 | an extension in capitals, looked up in small letters |
| `Order.TestSortTotal` | php-5.6.40-src/run-tests.php:920-935 | the order is total and two tests tie only when their names agree |
| `Order.TestSortTransitive` | php-5.6.40-src/run-tests.php:920-935 | the order is transitive |
| `Order.SortedInGroups` | php-5.6.40-src/server-tests.php:729-737 | any list sorted this way has the runner's own tests first, cwd/tests/run-test…, then those of cwd/tests…, then the rest, each group in byte order |
| `Order.StrCmpIff` | php-5.6.40-src/run-tests.php:931-931 | byte order: a name comes before those it begins, and otherwise where it has the smaller first character that differs |

## Left out

- Process control, pipes, timeouts, temporary files, mail, HTTP, prompts, HTML and console output: input, output and presentation; their results are inputs of the model.
- Command-line switches, `settings2array`, `--ENV--` and `--INI--` handling: option plumbing, easy to state and to prove.
- REDIRECTTEST code, SKIPIF scripts and test processes: arbitrary code; what they answer is an input that may differ at every look.
- Perl regular expressions beyond those of compiled templates (raw %r sections, EXPECTREGEX): what they match is an input, the pattern engine.
- ExpectFMeaning.CompiledTemplateMeans: raw %r sections are left to `RawMeaning.EveryTemplateMeans`, which asks that the engine reads each of them as a group: no back references, no parentheses that close the group early.
- ShortestOutput.CompiledAsWrittenIff: raw %r sections are left to `RawMeaning.EveryTemplateAsWrittenIff`.
- TemplateReport.UnreportedLinesAreSaid: does not cover raw sections that reach over a line end, whose lines are no patterns of their own; `FailureReport.ReportIsSound` does.
- TemplateReport.MismatchIsReported: the same.
- `pcre.backtrack_limit` and `pcre.recursion_limit`, under which `preg_match` gives up and answers false although the pattern matches: an accepted output is one the pattern matches.
- PCRE before 8.34, where `\s` does not hold the vertical tab: %w is modelled with it.
- ServerSections.ParsersAgree: one direction, for files the first parser refuses as well; for accepted files `ServerAgreement.ParsersAgreeIff` has both.
- Lookahead.EstimateIsExact: the budget is sufficient, not necessary; with less budget the lookahead may still be exact.
- Junit.Log.MarkTestAs: does not model the XML text; the time of a mark is what the timer says, an input.
- Scan.Scanner.FindFiles: does not model `realpath`, symbolic links and the removal of *.tmp files.
- Floating point: budgets are small multiples of powers of two, where PHP's floats are exact, so real numbers stand for them; percentages are real numbers too, while PHP rounds them.
- Results.PercentagesAddUp: exact over the real numbers; the rounded percentages of PHP may miss a hundred.
- The JUnit time of a test is an input; from 1000 seconds on PHP formats it with a comma and adds only what stands before it.
- The order in which tests behind a redirection are run is taken as given; it is the order of `Order`.
- The diff of server-tests.php: its string keys sort lines correctly only below 1000 lines.
- How redirected tests are written to and read back from list files.
