# Advent of Code 2023, days 1 to 5, in Dafny

This project models the solvers for the first five puzzles of Advent of Code 2023
(`src/Day1.ts` to `src/Day5.ts`). Each source file becomes one module:

- **Day1**: trebuchet calibration. Each line yields a number built from its first and last digit. In part 2, the
  spelled names "zero" .. "nine" also count as digits.
- **Day2**: cube games. Part 1 selects the games possible with a given bag. Part 2 builds each game's minimum
  handful and sums the powers.
- **Day3**: an engine schematic. `Line.parse` scans each row into numbers and symbols. The rows are linked as a
  doubly linked list of `Line` objects. Part numbers and gear ratios are then read across neighbouring rows.
- **Day4**: scratchcards. Part 1 scores each card. Part 2 expands the cards recursively into the copies they win.
- **Day5**: the seed almanac.
  - **Day5**: the stages of rules and the chained lookup of a seed's location. It also holds the seed intervals,
    their splitting into chunks, and the minimum scans `part2A` and `part2D`.
  - **Day5Parsing**: `IslandFactory`. It consumes a shared array of lines with `shift`, modelled as the
    `LineBuffer` class.
  - **Day5Processor**: the primary side of `ConcurrentIntervalProcessor`. It keeps a class holding the Map of
    intervals, applies the worker reports to it, and checks whether the answer is complete.
- **Common** holds the JavaScript building blocks the solvers use: `filter`, `reduce` as a sum, `Math.max` of a
  spread, `String.split`, `trim`, `split(/ +/)`, `Number`, `parseInt`, and the template-literal rendering of
  numbers.

Loops and in-place updates are methods with loop invariants, proved against specification functions:

- `Day1.Part1` and `Day1.Part2`;
- `Day2.Tally`;
- `Day3.ScanColumns`, `Day3.Line.GearRatios` and `Day3.GetLines`;
- `Day5.GetDestBySource`, `Day5.GetSeedsAsIntervals`, `Day5.Part2D` and `Day5.Part2A`;
- the `shift`-based parsers;
- the processor's methods.

Code built from expressions (`map`, `filter`, `reduce`, recursion) becomes functions and lemmas.

JavaScript truthiness is modelled where the code relies on it:

- Day 1: the digit 0 counts as "no digit". A line whose first digit is 0 yields 0. A last digit of 0 is replaced
  by the first digit.
- Day 5: `processResult` ignores a minimum of 0 (see Findings).

NaN is modelled explicitly:

- In Day 2 and in the Day 5 seed line, the parsers return `None` when a numeric field is not a numeral.
- In Day 4, each number is an `Option<nat>`. `None` plays NaN, which equals nothing.
- In Day 5, a rule with a NaN field is `NaNRange`, which covers no value.

## Model

| member | source | states |
|---|---|---|
| Common.Filter | src/Day2.ts:30-33 | `filter` keeps exactly the elements satisfying the predicate, in their original order (a subsequence) |
| Common.FilterMultiset | src/Day4.ts:16 | `filter` keeps every occurrence of an element that passes and none of one that fails |
| Common.MaxBy | src/Day2.ts:39-41 | `Math.max(...xs.map(f))` of a non-empty list bounds every `f(x)` and is attained by one of them |
| Common.ParseAll | src/Day2.ts:46-53 | reading lines one by one succeeds exactly when every line parses, with one result per line in order |
| Common.ConcatMembers | src/Day3.ts:109 | an element of the `concat` reduce is an element of one of the parts, and conversely |
| Common.SplitJoin | src/Day2.ts:20 | `split` loses nothing: joining the pieces with the separator gives back the string |
| Common.SplitPiecesHaveNoSeparator | src/Day2.ts:20 | no piece of `split` contains a separator |
| Common.Trim | src/Day2.ts:11 | the result of `trim` neither starts nor ends with white space, and a string that neither starts nor ends with it is returned as it is |
| Common.TrimIsSlice | src/Day2.ts:11 | `trim` returns the slice of s that starts where the leading white space ends, with only white space before and after it |
| Common.Words | src/Day4.ts:10 | `split(/ +/)` yields pieces of the single-space split, with the same first and last piece; only those two can be empty; there is more than one word exactly when the string holds a space |
| Common.SplitMany | src/Day2.ts:20 | `split` with a one-character separator gives more than one piece exactly when the separator occurs |
| Common.WordsKeepNonEmptyPieces | src/Day4.ts:10 | `split(/ +/)` and `split(" ")` have the same non-empty pieces, in the same order |
| Common.WordsOfSingleSpaced | src/Day5.ts:77 | on a line without two adjacent spaces, `split(/ +/)` equals `split(" ")` |
| Common.NumberOf | src/Day2.ts:14 | `Number(s)` is a number exactly for a string of digits (`""` is 0), and its value is the decimal value |
| Common.ParseInt | src/Day5.ts:88-90 | `parseInt(s)` is a number exactly for a non-empty string of digits, with its decimal value |
| Common.ParseIntRoundTrip | src/Day5.ts:88-90 | reading back the decimal rendering of n with `parseInt` or `Number` gives n |
| Common.NatToString | src/Day5.ts:61 | the template-literal rendering of a non-negative number is a non-empty digit string without a leading zero |
| Common.NatToStringRoundTrip | src/Day5.ts:61 | the decimal value of the rendering of n is n |
| Day1.AssignAllFirstLast | src/Day1.ts:9-15 | the `assign` closure leaves the first digit in `num1` and the last one (if there are two or more) in `numLast` |
| Day1.Result | src/Day1.ts:21 | the result is 0 exactly when there is no first digit or it is 0; for single digits it is at most 99, and a non-zero result has the first digit as its tens and a non-zero units digit |
| Day1.ResultOfDigits | src/Day1.ts:21 | the result is at most 99; it is 0 exactly when there is no digit or the first is 0; otherwise it is 10·first + last, with the first standing in for a missing or zero last |
| Day1.DigitsUpTo | src/Day1.ts:16-20 | the values the loop assigns are single digits |
| Day1.DigitsNone | src/Day1.ts:16-20 | nothing is assigned exactly when the line has no digit character |
| Day1.DigitsFirst | src/Day1.ts:16-20 | the first value assigned is that of the first digit character |
| Day1.DigitsLast | src/Day1.ts:16-20 | the last value assigned is that of the last digit character |
| Day1.CalibrationValueSpec | src/Day1.ts:5-22 | part 1 of a line in terms of its characters: at most 99; 0 exactly when the first digit is '0'; else 10·first + last (first again for a single or '0' last digit) |
| Day1.NoDigitCalibrationValue | src/Day1.ts:21 | a line without digits yields 0 |
| Day1.Part1 | src/Day1.ts:5-22 | the loop over the characters computes the calibration value of the line |
| Day1.MatchesAtIsOccurrence | src/Day1.ts:42 | the clipped `substring` comparison holds exactly when the word occurs at that position |
| Day1.WordAt | src/Day1.ts:41-46 | the search from table entry x finds an entry that occurs at i, or reports that no entry from x on occurs there |
| Day1.WordAtIsFirstMatch | src/Day1.ts:41-46 | the inner loop finds word d exactly when d occurs at i and no word before it in the table does |
| Day1.SpelledDigitsUpTo | src/Day1.ts:37-48 | the values part 2 assigns are single digits |
| Day1.SpelledCalibrationValueSpec | src/Day1.ts:49 | part 2 of a line is at most 99, and is 0 exactly when nothing is found or the first thing found is zero |
| Day1.OverlappingWords | src/Day1.ts:37-48 | words sharing letters each count: "oneight" reads 1 then 8 and yields 18 |
| Day1.NoWordsPart2IsPart1 | src/Day1.ts:25-50 | on a line where no digit word occurs, part 2 equals part 1 |
| Day1.Part2 | src/Day1.ts:25-50 | the loop with its inner, breaking loop over the table computes the spelled calibration value |
| Day1.All | src/Day1.ts:52-60 | the accumulator is the sum of the per-line results |
| Day2.Entries | src/Day2.ts:8-10 | one entry per comma-separated piece, each read from that piece |
| Day2.Tally | src/Day2.ts:9-16 | the loop adds every entry to its colour, so each count is the colour's total; a non-numeral count is flagged |
| Day2.ParseEntry | src/Day2.ts:11-14 | an entry is N cubes of a colour exactly when its trimmed text splits into a numeral and a known colour name, with that count and colour; a known colour with a non-numeral count is flagged |
| Day2.ParseEntryRoundTrip | src/Day2.ts:11-14 | an entry written " N colour" reads back as N cubes of that colour |
| Day2.ParseHandful | src/Day2.ts:7-17 | `parseHandful` yields the per-colour totals, starting from 0, or nothing for a non-numeral count |
| Day2.ParseHandfuls | src/Day2.ts:19-22 | one handful per ';'-separated segment, in order, defined exactly when every segment is; never empty |
| Day2.ParseGame | src/Day2.ts:24-27 | a game exactly when there is a ':', a second word before it that is a numeral, and every handful after it parses; the id is that word's value and the handfuls are read from the piece after ':' |
| Day2.SelectPossibleGamesFor | src/Day2.ts:29-33 | the selected games are exactly the possible ones, in order, with their multiplicities |
| Day2.MinimumHandful | src/Day2.ts:39-41 | each colour of the minimum handful bounds that colour in every handful and is attained by one |
| Day2.CalcMinimumGames | src/Day2.ts:35-44 | each game keeps its id and gets the single minimum handful |
| Day2.PossibleIffMinimumWithin | src/Day2.ts:29-44 | a game is possible with a bag exactly when its minimum handful fits in the bag |
| Day2.Power | src/Day2.ts:61-63 | the power is 0 exactly when one of the three colours is 0 |
| Day2.PowerMonotone | src/Day2.ts:61-63 | a handful that fits inside another has no greater power |
| Day2.MinimumPowerDominates | src/Day2.ts:61-63 | the minimum handful's power is at least that of every handful drawn |
| Day2.Part1 | src/Day2.ts:55-59 | defined exactly when every line parses, and then the sum over all games of the id of each possible game, 0 for the others |
| Day2.SumOfSelected | src/Day2.ts:55-59 | the sum over the selected games is the sum of ids of possible games, 0 for the others |
| Day2.ParsedGamesHaveHandfuls | src/Day2.ts:65-70 | every parsed game has a handful, so part 2 is defined whenever the games parse |
| Day2.Part2 | src/Day2.ts:65-70 | defined exactly when every line parses, and then the sum over the games of the power of each game's minimum handful |
| Day2.SumOfPowers | src/Day2.ts:65-70 | part 2 sums, over the games, the power of each game's minimum handful |
| Day3.MakeNum | src/Day3.ts:8-12 | a `Num` spans as many columns as its digits, from `start`, and its value fits in that many digits |
| Day3.IsAdjacent | src/Day3.ts:24-26 | `isAdjacent` holds exactly when the symbol's column is within one column of a column of the number |
| Day3.SymbolsOfSpec | src/Day3.ts:77-79 | the symbols of a row are exactly its non-digit, non-'.' characters, with their columns, left to right |
| Day3.ScanIsScanning | src/Day3.ts:67-81 | the scan invariant holds after every column: closed numbers are maximal runs, in order, and the open run is the digits just before the column |
| Day3.ScanColumns | src/Day3.ts:65-81 | the loop over the columns computes the scan state and the symbols of the row |
| Day3.ScanRow | src/Day3.ts:62-88 | the numbers of a row are exactly its maximal digit runs, in order, with their values, and its symbols are exactly its symbol characters |
| Day3.Line.constructor | src/Day3.ts:36-40 | a new line holds the given numbers and symbols and is not linked |
| Day3.Line.Parse | src/Day3.ts:62-88 | `Line.parse` returns a fresh, unlinked line with the row's maximal digit runs and symbols |
| Day3.Line.PartNumbers | src/Day3.ts:42-47 | the part numbers are exactly this row's numbers, in order, adjacent to a symbol of the row above, this row or the row below |
| Day3.AdjacentAcross | src/Day3.ts:53-55 | filtering the three rows one after the other is filtering their concatenation |
| Day3.Line.GearRatios | src/Day3.ts:49-60 | one ratio per '*' adjacent to more than one number of the three rows, in order: the product of those numbers |
| Day3.GetLines | src/Day3.ts:93-106 | one fresh line per row, indexed from 0, parsed from that row, and linked so row k's prev is row k-1 and its next is row k+1 |
| Day3.PartNumbersOfLinked | src/Day3.ts:42-47 | on linked rows, a number of row k is a part number exactly when a symbol of row k-1, k or k+1 is adjacent to it |
| Day3.GetPartNumbers | src/Day3.ts:108-110 | a number is collected exactly when it is a part number of some row |
| Day3.Part1 | src/Day3.ts:116-122 | the answer is never negative and is the sum, row by row, of the values of each row's part numbers |
| Day3.GetGearRatios | src/Day3.ts:112-114 | the loop over the rows collects every row's gear ratios, row by row |
| Day3.Part2 | src/Day3.ts:124-130 | the answer is the sum of the gear ratios of all rows |
| Day4.NumbersOf | src/Day4.ts:10-11 | one number per word of the trimmed piece, each read with `Number`; never empty |
| Day4.ParseCard | src/Day4.ts:8-13 | a card exists exactly when the line has a second and third piece; winning numbers from the second, own numbers from the third, id from the first |
| Day4.Matches | src/Day4.ts:15-17 | the matches are the card's own numbers that equal a winning number, in order and with multiplicity; NaN matches nothing |
| Day4.Score | src/Day4.ts:19-22 | the score is 0 exactly when there is no match, and otherwise half of 2 to the number of matches |
| Day4.ScoreOfMatches | src/Day4.ts:19-22 | no match scores 0, the first match scores 1, and every further match doubles the score |
| Day4.WonUpTo | src/Day4.ts:38-39 | the copies won run from the next card for exactly as many cards as there are matches, unless the end of the deck comes first |
| Day4.CollectCards1 | src/Day4.ts:37-42 | a card's collection starts with the card itself and holds only it and later cards |
| Day4.CollectRange | src/Day4.ts:40-41 | what a range of cards collects holds only cards from the start of the range on |
| Day4.CollectRangeHasEach | src/Day4.ts:37-47 | every card of a range is collected at least once, so at least as many cards come out as went in |
| Day4.CollectCards | src/Day4.ts:44-47 | `collectCards` yields only cards of the deck |
| Day4.CollectCardsHasEach | src/Day4.ts:44-47 | `collectCards` yields every card of the deck and at least as many cards as the deck holds |
| Day4.GetCards | src/Day4.ts:27-35 | the cards exist exactly when every line is a card, one card per line, each read from its line |
| Day4.Part1 | src/Day4.ts:49-53 | the sum of the scores is never negative, and 0 exactly when no card has a match |
| Day4.Part2 | src/Day4.ts:55-59 | at least as many cards come out as the deck holds |
| Day5.GetDest | src/Day5.ts:6-9 | a rule maps v exactly when it covers v, to the destination at the same offset as v in the source range |
| Day5.FirstCover | src/Day5.ts:15-22 | the rule search finds the first covering rule, or reports that none covers |
| Day5.StageDest | src/Day5.ts:15-22 | a stage without rules passes every value unchanged |
| Day5.FirstRuleWins | src/Day5.ts:15-22 | the first covering rule decides the stage's result, whatever later rules say |
| Day5.UncoveredIsIdentity | src/Day5.ts:21 | a value no rule covers passes a stage unchanged |
| Day5.GetDestBySource | src/Day5.ts:15-22 | the loop over the rules returns the stage's result |
| Day5.Trace | src/Day5.ts:34-40 | the reduce's array has one entry per stage plus one, with the seed last |
| Day5.TraceIsHistory | src/Day5.ts:34-40 | entry k of the reduce's array is the seed run through all stages but the last k |
| Day5.IslandDest | src/Day5.ts:34-40 | `Island.getDestBySource` runs the seed through every stage, first stage first |
| Day5.ApplyAllConcat | src/Day5.ts:35-38 | running through two lists of stages is running through the first, then the second |
| Day5.NoStagesIsIdentity | src/Day5.ts:34-40 | without stages every seed is its own location |
| Day5.Id | src/Day5.ts:60-62 | the id is a numeral, a '-' and a numeral |
| Day5.IdReadsBack | src/Day5.ts:60-62 | reading the id back, the digits before the '-' give the start and those after it the count |
| Day5.IdInjective | src/Day5.ts:60-62 | the id "start-count" determines the start and the count |
| Day5.SeedIntervalsRoundTrip | src/Day5.ts:42-51 | pairing the seeds loses nothing: the intervals spell the seed list |
| Day5.GetSeedsAsIntervals | src/Day5.ts:42-51 | the loop builds one interval per pair of seeds: the first the start, the second the count, no minimum |
| Day5.Split | src/Day5.ts:64-70 | `split` returns the interval itself when it fits, and never nothing |
| Day5.SplitContiguous | src/Day5.ts:64-70 | the pieces follow one another without gap or overlap from the interval's start to its end; all but the last hold exactly max |
| Day5.SplitBounded | src/Day5.ts:64-70 | no piece exceeds max, and no piece of a non-empty interval is empty |
| Day5.SplitTotal | src/Day5.ts:64-70 | the pieces' counts add up to the interval's count |
| Day5.SplitKeepsMin | src/Day5.ts:64-70 | the pieces have the interval's least location |
| Day5.Distribute | src/Day5.ts:202-204 | there are at least as many chunks as intervals, and intervals that all fit are returned unchanged |
| Day5.DistributePartition | src/Day5.ts:202-204 | the chunks hold as many seeds as the intervals, and none more than max |
| Day5.DistributeKeepsMin | src/Day5.ts:202-204 | cutting intervals into chunks does not change the least location |
| Day5.ChunkSize | src/Day5.ts:245-246 | `Math.ceil(length / procs)`: procs chunks of that size cover the length and one size less would not; 0 only for length 0 |
| Day5.ChunkSizeSplittable | src/Day5.ts:244-249 | with that chunk size every seed interval can be split |
| Day5.RangeMin | src/Day5.ts:273-280 | the scan's result never exceeds `MAX_SAFE_INTEGER` |
| Day5.RangeMinIsMinimum | src/Day5.ts:273-280 | the scan's result bounds the location of every seed of the range, and is attained unless it is `MAX_SAFE_INTEGER` |
| Day5.RangeMinSplit | src/Day5.ts:273-280 | scanning a + b seeds is the lesser of scanning the first a and the b that follow |
| Day5.Part2D | src/Day5.ts:273-280 | the loop computes the least location of seeds start .. start+count-1, from `MAX_SAFE_INTEGER` |
| Day5.PairedSeeds | src/Day5.ts:263-264 | the outer loop visits one pair per two seeds |
| Day5.Part2A | src/Day5.ts:260-271 | the nested loops compute the least location over all seed intervals |
| Day5.MinOf | src/Day5.ts:257 | `Math.min` of a non-empty list is a lower bound of it and is attained |
| Day5.Part1 | src/Day5.ts:254-258 | the answer exists exactly when there are seeds; it bounds the location of every seed and is one of them |
| Day5Parsing.LineBuffer.constructor | src/Day5.ts:119-122 | the buffer holds the file's lines |
| Day5Parsing.LineBuffer.Shift | src/Day5.ts:98 | `shift` drops the first line, and an empty array stays empty |
| Day5Parsing.ParseMapLine | src/Day5.ts:83-92 | a line is a rule exactly when it has three space-separated fields; the rule is NaN unless all three are numerals, and otherwise holds their values |
| Day5Parsing.ParseMapLineRoundTrip | src/Day5.ts:83-92 | reading back a written rule "d s l" gives that rule |
| Day5Parsing.MapEnd | src/Day5.ts:96-102 | `parseMap` stops at the first empty line, the first non-rule or the end, and every line before is a rule |
| Day5Parsing.ParseMapOf | src/Day5.ts:94-104 | a stage holds the rules before the stop, in order; an empty line at the stop stays, a non-rule is consumed |
| Day5Parsing.ParseWrittenStage | src/Day5.ts:94-104 | the written rules of a stage followed by a blank line read back as that stage, and the blank line is left |
| Day5Parsing.ParseMap | src/Day5.ts:94-104 | the loop of `parseMap` returns the stage and leaves the lines that `ParseMapOf` describes |
| Day5Parsing.ParseMapsOf | src/Day5.ts:106-115 | `parseMaps` reads no more stages and leaves no more lines than it got; it leaves no line or an empty first line; on a non-empty first line the first stage is the one `parseMap` reads after it |
| Day5Parsing.ParseWrittenStages | src/Day5.ts:106-115 | stages written as heading, rules and blank line read back as those stages, leaving no line |
| Day5Parsing.ParseMaps | src/Day5.ts:106-115 | the loop of `parseMaps` returns the stages and leaves the lines that `ParseMapsOf` describes |
| Day5Parsing.ParseSeeds | src/Day5.ts:76-81 | `parseSeeds` returns the words of the first line after the first and drops two lines; no lines gives none |
| Day5Parsing.SeedWords | src/Day5.ts:76-81 | seed words exist exactly when there is a line, one fewer than the first line's words |
| Day5Parsing.IslandOf | src/Day5.ts:117-127 | an island exists exactly when there is a line and every seed word is a numeral; it holds one seed per seed word, each the value of its word, and the stages read after the seed and blank lines |
| Day5Parsing.AlmanacRoundTrip | src/Day5.ts:117-127 | an almanac written from an island (seed line, blank line, each stage as a heading, its rules and a blank line) reads back as that island |
| Day5Parsing.Parse | src/Day5.ts:117-127 | `IslandFactory.parse` over the shared buffer yields the island `IslandOf` describes |
| Day5Processor.IdIffKey | src/Day5.ts:60-62 | two intervals have the same id exactly when they have the same start and count |
| Day5Processor.IndexOf | src/Day5.ts:151 | `Map.get(id)` finds an entry with that id, or there is none |
| Day5Processor.Put | src/Day5.ts:198 | `Map.set` keeps keys distinct; it replaces the entry with the same key in place, or appends the new entry |
| Day5Processor.PutAll | src/Day5.ts:197-199 | setting a list of intervals keeps keys distinct and adds exactly their keys |
| Day5Processor.SetMin | src/Day5.ts:151-154 | the entry with the given id, if any, gets the minimum; every other entry is unchanged |
| Day5Processor.Record | src/Day5.ts:150-155 | `processResult`'s update: the named entry gets the minimum only when the id is non-empty and the minimum non-zero; keys never change |
| Day5Processor.RecordKeepsKeys | src/Day5.ts:150-155 | recording a report keeps the Map's keys distinct |
| Day5Processor.RecordIdempotent | src/Day5.ts:150-155 | delivering the same report twice records what delivering it once does |
| Day5Processor.RecordCommutes | src/Day5.ts:150-155 | reports about different intervals may arrive in either order |
| Day5Processor.MissingIds | src/Day5.ts:167-168 | the ids listed as missing are exactly those of the intervals without a minimum |
| Day5Processor.CheckResults | src/Day5.ts:159-170 | complete exactly when every interval has a minimum, with each id's minimum and the least of them; otherwise the non-empty list of missing ids |
| Day5Processor.TwoOfThreeAnswered | src/Day5.ts:159-170 | with two of three intervals answered, only the third is listed as missing |
| Day5Processor.ConcurrentIntervalProcessor.constructor | src/Day5.ts:143-146 | a new processor holds the island and an empty Map |
| Day5Processor.ConcurrentIntervalProcessor.SetAll | src/Day5.ts:209-211 | the loop sets every interval into the Map, in order, keeping keys distinct |
| Day5Processor.ConcurrentIntervalProcessor.SetIntervalsFromIslandSeeds | src/Day5.ts:196-200 | the Map gains one entry per seed interval |
| Day5Processor.ConcurrentIntervalProcessor.ResetIntervalsForMaxCount | src/Day5.ts:206-212 | the Map gains one entry per chunk of at most max seeds |
| Day5Processor.ConcurrentIntervalProcessor.RunForNumberOfProcs | src/Day5.ts:244-249 | the chunk size is the seed total divided by procs, rounded up; procs chunks cover all seeds; the Map gets the chunks |
| Day5Processor.ConcurrentIntervalProcessor.ProcessResult | src/Day5.ts:148-157 | the Map is updated as `Record` says and the report is the check of the new Map |
| Day5Processor.Results | src/Day5.ts:178-185 | one worker report per tracked interval |
| Day5Processor.RecordFixed | src/Day5.ts:150 | the corrected update: every report about a tracked interval is recorded, a minimum of 0 included |
| Day5Processor.RecordAgreesWhenNonZero | src/Day5.ts:150 | the corrected update agrees with the source's on every report with a non-empty id and a non-zero minimum |
| Day5Processor.DeliverAllLastWins | src/Day5.ts:148-157 | after a sequence of reports, the last report about an interval decides its minimum; an unreported interval keeps its own |
| Day5Processor.DeliverResults | src/Day5.ts:172-185 | once every worker has reported, every interval holds its own least location |
| Day5Processor.CheckAnswered | src/Day5.ts:159-165 | with every interval answered, `checkResults` completes with the least location over all of them |
| Day5Processor.ChunkedSearchFindsMinimum | src/Day5.ts:244-249 | with the corrected update, the chunked search completes, and its answer is the least location over the seed intervals, as the sequential part 2 finds |
| Day5Processor.ZeroMinimumIgnored | src/Day5.ts:150 | `processResult` ignores any report whose minimum is 0 |
| Day5Processor.ZeroMinimumStalls | src/Day5.ts:150 | seeds "5 1" with one stage holding the rule "0 5 1": the only chunk starts at seed 5, its worker reports location 0, the report is dropped and the interval stays missing |

## Left out

- Files and the console: `fs.open`, `readLines`, `console.log` and `console.time`. Each solver takes the lines of
  its input file as a parameter. The `main` methods and the top-level calls are not modelled.
- Day 3 `part1` also prints the part numbers; that is console output only.
- The cluster:
  - `require('cluster')`, `require('os')`, `fork`, `send`, `on('message')` and `setTimeout` are not modelled.
  - The processor calls `initPrimary`, `initWorker`, `runCluster`, `forkWorkersForIntervals`, `sendWorkerRequest`,
    `runProcPerInterval` and `createConcurrentProcessor`; these are not modelled either.
  - A worker's report is handed to `ProcessResult` directly.
  - The number of processes is a parameter.
  - `Results` stands for every worker running `part2D` on its interval.
- `processWorkerRequest` is not modelled. It answers only when `message.start` and `message.count` are both
  truthy, so a chunk starting at seed 0 and a chunk of count 0 are never answered either. That is message passing,
  outside the model.
- JavaScript numbers are unbounded integers here. No floating-point rounding above 2^53 is modelled.
- Common.NumberOf: models `Number` only on strings of decimal digits. Anything else is NaN, though JavaScript also
  reads signs, white space, hexadecimal and fractions.
- Common.ParseInt: models `parseInt` only on strings of decimal digits. JavaScript also reads a numeral followed by
  other characters (`parseInt("12x")` is 12); the model treats such a field as NaN.
- Common.Trim: strips only space, tab, line feed and carriage return. JavaScript's `trim` also strips vertical tab,
  form feed, U+00A0, U+FEFF, U+2028, U+2029 and the other space separators; the puzzle inputs hold none of these.
- Day3.ScanRow: a string is a sequence of Unicode scalar values here. JavaScript indexes and `split("")`s strings
  by UTF-16 code units, so a character outside the Basic Multilingual Plane would shift every later column of a
  row by one, which the model does not reproduce (the same holds for the indices of `src/Day1.ts`).
- Day5.StageDest: its contract states only the stage without rules. What a stage does to a value covered by a rule
  is stated by `FirstRuleWins`, and to an uncovered value by `UncoveredIsIdentity`, which keeps the location
  proofs of part 2 small.
- Day2.HandfulOf: a non-numeral count makes the whole handful undefined. In JavaScript that colour's count is NaN,
  and every comparison with it is then false.
- Day2.ParseGame: a missing or non-numeral game id ("Game: 3 blue", "Game x: 3 blue") makes the game undefined.
  In JavaScript the id is NaN and the handfuls are still read.
- Day2.Part1: likewise, the answer is undefined for a non-numeral count or a missing or non-numeral id. In
  JavaScript a NaN id makes the answer NaN only when that game is possible.
- Day2.Part2: likewise, the answer is undefined for a non-numeral count or a missing or non-numeral id. In
  JavaScript part 2 never reads the id, so a NaN id does not change its answer.
- Day2.ParseEntry: an entry naming another colour is ignored. JavaScript instead stores a NaN under that key, which
  no answer reads.
- Day5.GetSeedsAsIntervals: requires an even seed list. With an odd one, the source builds a last interval whose
  count is `undefined`.
- Day5Processor.ConcurrentIntervalProcessor.SetIntervalsFromIslandSeeds: requires an even seed list.
- Day5Processor.ConcurrentIntervalProcessor.ResetIntervalsForMaxCount: requires an even seed list.
- Day5Processor.ConcurrentIntervalProcessor.RunForNumberOfProcs: requires an even seed list. `Day5.Part2A` handles
  an odd list as the source does.
- Day5.Split: requires `max > 0` or an interval that already fits. Otherwise the source recurses without end.
- Day5Processor.ConcurrentIntervalProcessor.RunForNumberOfProcs: requires `procs > 0`. With 0, `Math.ceil` gives
  Infinity or NaN.
- Interval ids: the Map is keyed by the pair (start, count). `IdIffKey` proves this equivalent to the string id.
- Interval objects are values. A Map entry is replaced, not mutated through an alias. No interval is shared between
  entries in the source, so nothing observable is lost.
- Day4 `getCards` builds each card twice and keeps the second copy. Day4 `part1` computes an unused list of scores.
  Neither is observable, and neither is modelled.

## Findings

| source | as written | input that shows it | evidently intended | confidence | as-written member | corrected member |
|---|---|---|---|---|---|---|
| src/Day5.ts:150 | `if (message.interval && message.min)` treats a minimum of 0 as no answer, so that interval stays missing and `done` is never called | seeds "5 1" with one stage holding the rule "0 5 1": seed 5 maps to location 0, the worker reports minimum 0 and the report is dropped | record the minimum whenever it is defined (`message.min !== undefined`) | not executed | Day5Processor.ZeroMinimumStalls | Day5Processor.RecordFixed |
