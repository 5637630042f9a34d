# Advent of Code 2018, days 1 to 9, modelled in Dafny

This project models the puzzle solvers of a Python Advent of Code 2018
repository, one Dafny module per day (`Frequency` for day 1 through
`Marbles` for day 9), plus the shared `product` helper (`Utils`), a small
string toolkit standing in for the Python string methods the solvers call
(`Strings`), and `Option`/`Result` wrappers (`Wrappers`). Each day parses its
puzzle text ("ProcessInput") and answers two questions ("SolvePartOne",
"SolvePartTwo"). The model keeps the code's own shape:

- A loop in the source is a `method` with a `while` loop and invariants,
  proved equal to a specification function.
- A class whose methods update its fields is a Dafny `class` with
  `modifies` clauses: `Day03Solver`, `Guard`, `Polymer`, `Step`, `Elf`,
  `CircularList` and `MarbleGameState`.
- The pure logic is datatypes, functions and lemmas.

The lemmas then prove what each solver is meant to compute:
- the first repeated running total (day 1);
- the checksum as a product of counts (day 2);
- the overlap count and the lone claim (day 3);
- the guard histograms and their maxima (day 4);
- the uniqueness of the fully reacted polymer (day 5);
- the triangle test (day 6);
- topological order and worker schedules (day 7);
- the tree reading of the licence file (day 8);
- conservation of marble values in the circle game (day 9).

The puzzles' own samples are proved as example lemmas.

File and module layout:

| file | module | source |
|---|---|---|
| day01.dfy | Frequency | day01.py |
| day02.dfy | Checksum | day02.py |
| day03.dfy | Claims | day03.py |
| day04.dfy | GuardLog | day04.py |
| day05.dfy | Polymers | day05.py |
| day06.dfy | Triangles | day06.py |
| day07.dfy | Sleigh | day07.py (the answers as functions over a value graph) |
| day07_objects.dfy | SleighObjects | day07.py (the `Step` and `Elf` objects and the loops over them) |
| day07_sample.dfy | SleighSample | day07.py (part two on the puzzle's example, second by second) |
| day08.dfy | TreeNodes | day08.py |
| day09.dfy | Marbles | day09.py |
| utils.dfy | Utils | utils/__init__.py |
| strings.dfy | Strings | the `str` methods the solvers call |
| wrappers.dfy | Wrappers | Option, Result and small generic helpers |

## Model

| member | source | states |
|---|---|---|
| Utils.Product | utils/__init__.py:12-18 | `product`: the left fold of multiplication from 1; the Utils.Product* lemmas below state its values (the recursive product, one more factor, a zero factor, a pair, the documented example) |
| Utils.FoldMulScales | utils/__init__.py:12-18 | folding `operator.mul` from any start value scales the product of the rest by that start value |
| Utils.ProductIsRightProduct | utils/__init__.py:12-18 | the left fold with start value 1 equals the ordinary recursive product |
| Utils.ProductSnoc | utils/__init__.py:12-18 | appending a factor multiplies the product by it |
| Utils.ProductZero | utils/__init__.py:12-18 | a list holding a zero has product 0 |
| Utils.ProductPair | utils/__init__.py:12-18 | the product of a two-element list is the two values multiplied |
| Utils.ProductExample | utils/__init__.py:12-18 | the documented example `[1, 2, 3, 4, 5]` has product 120, and the empty list has product 1 |
| Utils.SumAppend | day01.py:57-61 | the sum of a concatenation is the sum of the sums |
| Utils.Sum | day08.py:112-114 | the builtin `sum`, accumulated from the left; SumAppend states that it adds up over a concatenation, SumOne and SumThree give short lists |
| Wrappers.MapAllMeaning | day03.py:98-104 | mapping a partial conversion over a list succeeds iff it succeeds on every element, and then yields one value per element, in order |
| Wrappers.MapAll | day03.py:101-102 | a list comprehension whose conversion may raise: MapAllMeaning states that it succeeds iff every element converts, and then gives one value per element, in order |
| Strings.Strip | day02.py:41-42 | `str.strip`: the result is the input with only whitespace removed from each end, and it neither starts nor ends with whitespace |
| Strings.IsSpace | day02.py:41-42 | `isspace()` on ASCII: space, tab, newline, vertical tab, form feed, carriage return and the separators 0x1C to 0x1F; NoSpaceLacks states that a whitespace-free string holds none of them |
| Strings.StripNoSpace | day02.py:41-42 | stripping a word without whitespace leaves it unchanged |
| Strings.Split | day01.py:43 | `str.split(sep)` for a non-empty separator: always at least one piece; JoinSplit and SplitJoin below make it the inverse of joining with the separator |
| Strings.Join | day01.py:43-44 | `sep.join(parts)`: the pieces with the separator between each two; JoinSplit and SplitJoin make it the inverse of `Split`, SplitWsJoin the inverse of `SplitWs`, and JoinLacks states that it adds no character outside the pieces and separator |
| Strings.JoinSplit | day01.py:43-44 | `str.split(sep)` loses nothing: joining the pieces back with `sep` gives the input |
| Strings.SplitJoin | day01.py:43-44 | splitting a join of pieces free of the separator gives the pieces back |
| Strings.SplitTrailingSeparator | day02.py:41-42 | text ending in the separator splits into a last piece that is empty |
| Strings.SplitWs | day08.py:66 | `str.split()` with no argument yields only non-empty words without whitespace |
| Strings.Visible | day08.py:66 | the non-whitespace characters of a string, in order: no longer than the string and free of whitespace |
| Strings.SplitWsVisible | day08.py:66 | `str.split()` loses nothing but whitespace: its words, put together, are exactly the non-whitespace characters of the input, in order |
| Strings.SplitWsJoin | day08.py:66 | splitting non-empty words without whitespace that were joined by a non-empty run of whitespace gives the words back |
| Strings.ParseInt | day01.py:44 | `int(s)`: surrounding whitespace stripped, an optional sign, then one or more decimal digits, `None` for anything else; ParseShow, ParseNegative and ParseAllMeaning below state what it reads |
| Strings.ParseShow | day01.py:43-44 | `int()` reads back every integer written in decimal |
| Strings.ParseNegative | day01.py:43-44 | `int()` reads a leading minus sign as negation |
| Strings.ParseAllMeaning | day01.py:43-44 | converting a list of words succeeds iff every word is an integer, and then yields each word's value in order |
| Strings.FindFrom | day07.py:215-221 | the first match of a pattern at or after a position, and None only when there is none |
| Strings.Find | day07.py:221 | `str.index`: the search from position 0, so (by FindFrom) the position of the first occurrence, and None (the ValueError) iff there is none |
| Strings.ReplaceCharByNothing | day03.py:98 | `replace(c, '')` deletes exactly the occurrences of `c` |
| Strings.Replace | day03.py:99 | `str.replace(pat, repl)`: every copy of the pattern, left to right and without overlap; ReplaceCharByNothing states that replacing a character by nothing deletes exactly its copies, and IdReadsBack that the claim id `#n` reads back as `n` |
| Strings.Filter | day05.py:166 | the filtered text has no occurrence of the removed letter and is no longer than the input |
| Strings.FilterConcat | day05.py:166 | filtering distributes over concatenation |
| Strings.Count | day02.py:58-65 | `str.count` of one letter: at most the length, and zero iff the letter is absent |
| Strings.Upper | day05.py:163-166 | `upper()` on ASCII turns lower-case into upper-case letters and `lower()` undoes it; other characters are unchanged |
| Strings.Lower | day05.py:163 | `lower()` on ASCII: an upper-case letter becomes lower-case and any other character is unchanged; Upper states that it undoes `upper()` |
| Strings.StrLessTransitive | day07.py:142 | lexicographic string order, as used by `sorted`, is transitive |
| Strings.StrLessTotal | day07.py:142 | lexicographic order relates any two different strings |
| Strings.StrLessAsymmetric | day07.py:142 | lexicographic order is asymmetric |
| Frequency.ProcessInput | day01.py:33-46 | the input is split on newlines and every line converted with `int`; the result is None if any line is not an integer |
| Frequency.RenderRoundTrip | day01.py:33-46 | writing a non-empty list of changes one per line and reading it back gives the list |
| Frequency.ParseShowAll | day01.py:43-44 | reading back the decimal forms of a list of integers gives the list |
| Frequency.SolvePartOne | day01.py:57-61 | the loop's final frequency is the sum of all changes |
| Frequency.PartOneExamples | day01.py:22-25 | the documented part-one samples sum to 3, 0 and -6 |
| Frequency.FirstRepeat | day01.py:77-94 | the reference search of part two: the first running total of the cycling changes that was reached before, within the fuel bound; FirstRepeatIsFirst states that it is that total and the PartTwoExample* lemmas give the documented answers |
| Frequency.Search | day01.py:77-94 | the body of the `while` loop of part two from a given position, total and set of seen totals; SearchFindsFirst states that it returns the first running total that was already seen within the fuel bound, and None when none repeats |
| Frequency.SolvePartTwo | day01.py:77-94 | the loop over the cycling changes returns exactly what the reference search `FirstRepeat` returns within the fuel bound |
| Frequency.SizeUnchangedIffPresent | day01.py:82-91 | the source's "set did not grow" test is a membership test: adding `x` leaves the size unchanged iff `x` was already present |
| Frequency.TotalsStep | day01.py:79-94 | after one more change, the seen set gains exactly the new running total |
| Frequency.FirstRepeatIsFirst | day01.py:77-94 | a result is the running total at the first step whose total was already seen (counting the initial 0), and None means no total repeats within the fuel bound |
| Frequency.PartTwoExampleA | day01.py:27-31 | sample `+1, -1` first reaches 0 twice |
| Frequency.PartTwoExampleB | day01.py:27-31 | sample `+3, +3, +4, -2, -4` first reaches 10 twice |
| Frequency.PartTwoExampleC | day01.py:27-31 | sample `-6, +3, +8, +5, -6` first reaches 5 twice |
| Frequency.PartTwoExampleD | day01.py:27-31 | sample `+7, +7, -2, -7, -4` first reaches 14 twice |
| Frequency.SplitExample | day01.py:43 | the sample text splits into its three lines |
| Frequency.ParseSignedDigit | day01.py:44 | a signed digit such as `+1` or `-2` converts to its value |
| Frequency.ParseEmptyLine | day01.py:44 | an empty line or a bare sign is not an integer, so input with a trailing newline fails to parse |
| Checksum.ProcessInput | day02.py:41-42 | one id per input line, each the stripped line |
| Checksum.TrailingNewlineGivesEmptyId | day02.py:41-42 | input ending in a newline yields a last id that is empty |
| Checksum.HasCountMeaning | day02.py:58-65 | `n in Counter(id).values()` holds iff some letter of the id occurs exactly `n` times |
| Checksum.LetterCounts | day02.py:60 | `{letter: id.count(letter) for letter in set(id)}`: a count for each letter of the id; CountMultiplicity states that the count is the letter's multiplicity and NoZeroCount that no count is zero |
| Checksum.HasCount | day02.py:62 | `count in letters.values()`; HasCountMeaning states that it holds iff some letter of the id occurs exactly `count` times |
| Checksum.NoZeroCount | day02.py:58-65 | no letter is counted zero times |
| Checksum.NumWithCountsIds | day02.py:58-65 | the tally for `n` is the number of ids (not letters) having some letter exactly `n` times |
| Checksum.CountMultiplicity | day02.py:58-65 | the letter count equals the letter's multiplicity in the id |
| Checksum.SolvePartOne | day02.py:58-65 | the loop's two counters are the tallies for 2 and 3, and the checksum is their product |
| Checksum.OncePerId | day02.py:58-65 | an id with two doubled letters adds one to the tally, not two |
| Checksum.SampleTally | day02.py:28 | the tally of the seven sample ids for any count |
| Checksum.ExampleTwos | day02.py:28 | four sample ids have a doubled letter |
| Checksum.ExampleThrees | day02.py:28 | three sample ids have a tripled letter |
| Checksum.PartOneExample | day02.py:28 | the sample checksum is 12 |
| Checksum.CommonLetters | day02.py:97-102 | the loop over the first id's letters answers iff the first id is not longer than the second (otherwise `b[i]` raises), and then returns the letters at positions where the two ids agree |
| Checksum.CommonWithSelf | day02.py:97-102 | an id shares all its letters with itself |
| Checksum.CommonOneDifference | day02.py:97-102 | two ids differing at exactly one position share the id with that letter removed |
| Checksum.CommonShorter | day02.py:97-102 | the common letters are no more than the first id's and come from it |
| Checksum.CommonExample | day02.py:29 | the sample pair `fghij`/`fguij` shares `fgij` |
| Claims.CellsSize | day03.py:70-72 | a claim covers exactly `w * h` distinct cells |
| Claims.AreaIsCellCount | day03.py:70-72 | the `area` property counts the claim's cells |
| Claims.Area | day03.py:70-72 | the `area` property, width times height; AreaIsCellCount states that it is the number of cells the claim covers |
| Claims.Show | day03.py:74-75 | `Claim.__str__`: `#id @ x,y: wxh`; ParseShowClaim and ShowSplitsAtAt state that parsing reads it back |
| Claims.ParseShowClaim | day03.py:74-75 | parsing the `__str__` form of any claim gives the claim back |
| Claims.ParseClaim | day03.py:99-104 | one line read as `#id @ x,y: wxh`, `None` where an `int()` or a two-way unpacking raises; ParseShowClaim states that it inverts `Show` |
| Claims.ProcessInput | day03.py:87-106 | parsing succeeds iff every line is a claim, and then gives one claim per line, in order |
| Claims.ParseClaims | day03.py:98-104 | the loop over lines equals the reference parser and keeps one claim per line |
| Claims.ParseLinesMeaning | day03.py:98-104 | the reference parser succeeds iff every line parses, one claim per line |
| Claims.PrefixFails | day03.py:98-104 | a single malformed line makes the whole input fail, as the source's `int()` raises |
| Claims.CovShared | day03.py:121-135 | a cell of claim `i` has coverage above 1 iff some other claim also covers it |
| Claims.CovZero | day03.py:121-135 | a cell has coverage 0 iff no claim covers it |
| Claims.OverStep | day03.py:129-135 | each cell scanned adds one to the counter exactly when its value exceeds 1 |
| Claims.OverAll | day03.py:129-135 | on a painted grid the scanned cells above 1 are exactly the cells two or more claims share |
| Claims.NextColumn | day03.py:122-127 | finishing one column of a claim moves the painting invariant to the next column |
| Claims.LastColumn | day03.py:121-127 | after a claim's last column the grid holds the coverage of all claims painted so far |
| Claims.Day03Solver.constructor | day03.py:85 | a new solver has no cached image |
| Claims.Day03Solver.Paint | day03.py:119-127 | the painted grid holds, for each cell, the number of claims covering it; it is None iff some claim reaches outside the 1000 by 1000 image |
| Claims.Day03Solver.CountOver | day03.py:129-135 | the counter is the number of cells whose value exceeds 1 |
| Claims.Day03Solver.SolvePartOne | day03.py:108-139 | the answer is the number of cells covered by two or more claims, and the grid is cached in `image`; claims outside the grid give None |
| Claims.Day03Solver.ScanRect | day03.py:146-151 | the nested loop equals the rectangle scan |
| Claims.ScanMeaning | day03.py:146-151 | the rectangle scan answers true iff every cell in the rectangle has value at most 1 |
| Claims.Scan | day03.py:146-151 | the nested loop over a rectangle of the image: None where a cell off the grid would raise, false at the first cell above 1; ScanMeaning states that it answers true iff every cell of the rectangle is at most 1 |
| Claims.ScanAsWritten | day03.py:146-147 | the scan with the program's bounds: columns from `claim.x` to `claim.w + claim.y`, rows from `claim.y` to `claim.h + claim.y`; ScanBugExample shows it differing from the claim's own rectangle |
| Claims.ScanColumnMeaning | day03.py:147-151 | one column of the scan answers true iff every cell in it has value at most 1 |
| Claims.Day03Solver.CheckIfClaimIsCleanAsWritten | day03.py:141-151 | the method equals the scan with the source's column bound `claim.w + claim.y` |
| Claims.Day03Solver.CheckIfClaimIsClean | day03.py:141-151 | the method equals the scan of the claim's own rectangle, with column bound `claim.w + claim.x` |
| Claims.CleanIffNoOverlap | day03.py:141-151 | with the corrected bound, a claim inside the grid scans clean iff it overlaps no other claim |
| Claims.Day03Solver.SolvePartTwo | day03.py:153-171 | painting the image first only if none was cached, the answer is `FirstCleanBy(rule, …)`: with `AsWritten` the first claim that passes the program's check with its column bound `claim.w + claim.y`, with `Intended` the corrected check |
| Claims.FirstCleanMeaning | day03.py:168-171 | the answer is the id of the first claim that overlaps no other claim, or "no claim" iff there is none |
| Claims.FirstClean | day03.py:168-171 | the search of part two with the corrected check; FirstCleanMeaning states that it answers the first claim overlapping no other claim, or no claim iff there is none |
| Claims.FirstCleanAsWritten | day03.py:168-171 | the search of part two with the program's check; ExamplePartTwo states that on the sample it also answers 3, and ScanBugExample that it can miss a clean claim |
| Claims.FirstCleanBy | day03.py:153-171 | part two's search under the rule chosen: the as-written or the corrected check; Day03Solver.SolvePartTwo is proved equal to it |
| Claims.ExampleOverlapping | day03.py:82 | the sample claims share exactly four cells |
| Claims.ExampleAlone | day03.py:83 | in the sample only claim `#3` overlaps no other |
| Claims.ExamplePartTwo | day03.py:83 | the sample's part-two answer is 3, both under the program's column bound and under the corrected one |
| Claims.ScanBugExample | day03.py:146 | with the source's bound, a stacked pair of claims makes the lone claim look dirty and no claim is returned; with the corrected bound claim 1 is returned |
| Triangles.Sign | day06.py:16-17 | `sign`: the cross product of `p1 - p3` and `p2 - p3`; the Triangles.Sign* lemmas below state how it changes when the points are swapped, rotated or repeated |
| Triangles.PointInTriangle | day06.py:20-28 | `pointInTriangle`: true unless the three orientations include both a negative and a positive one; InsideIffSameSide and the invariance lemmas below state what that means |
| Triangles.SignSwap | day06.py:16-17 | swapping the first two points negates `sign` |
| Triangles.SignRotate | day06.py:16-17 | rotating the three points keeps `sign` |
| Triangles.SignAlternate | day06.py:16-17 | swapping the last two points negates `sign` |
| Triangles.SignDegenerate | day06.py:16-17 | `sign` is 0 when the third point repeats one of the first two |
| Triangles.InsideIffSameSide | day06.py:20-28 | a point is in the triangle iff the three orientations are all non-negative or all non-positive |
| Triangles.VertexInside | day06.py:20-28 | each vertex of a triangle is inside it |
| Triangles.VertexCheckRedundant | day06.py:120-126 | the separate "is a vertex" test before `pointInTriangle` changes no answer |
| Triangles.DegenerateContainsAll | day06.py:20-28 | a triangle collapsed to a single point contains every point |
| Triangles.RotationInvariant | day06.py:20-28 | the test does not depend on which vertex comes first |
| Triangles.ReflectionInvariant | day06.py:20-28 | the test does not depend on the orientation of the vertex order |
| Triangles.Examples | day06.py:20-28 | a point outside and a point on the boundary of a right triangle are classified correctly |
| GuardLog.EarlierIsOrder | day04.py:207-220 | comparing log timestamps is a strict total order: irreflexive, asymmetric, transitive and total on distinct stamps |
| GuardLog.Earlier | day04.py:207-208 | `ShiftLog.__lt__`, the `datetime` comparison field by field from the year; EarlierIsOrder states that it is a strict total order |
| GuardLog.PadValue | day04.py:223 | a zero-padded field of `strftime` reads back as its number |
| GuardLog.FormatFields | day04.py:223 | the `[%Y-%m-%d %H:%M` form puts each padded field and separator at its fixed position |
| GuardLog.FormatStamp | day04.py:223 | `strftime('[%Y-%m-%d %H:%M')`: always 17 characters; FormatFields places each field, ParseFormat states that ParseStamp reads it back, and FormatNoBracket that it holds no `]` |
| GuardLog.ParseStamp | day04.py:182 | `strptime(dateString, '[%Y-%m-%d %H:%M')` on the zero-padded form: what it reads is a valid timestamp; ParseFormat states that it reads back every formatted timestamp |
| GuardLog.ParseFormat | day04.py:181-182 | `strptime` reads back every timestamp written in the log's format |
| GuardLog.NewShiftLog | day04.py:181-194 | a log entry is built only from a timestamp that parses; it is a shift start iff the action mentions "begins shift", and any other entry has guard id -1; the entry fails exactly when the timestamp does not parse, the guard number does not parse, or the action names none of the three phrases |
| GuardLog.ReadBeginsShift | day04.py:186-188 | a "Guard #n begins shift" line yields a shift start for guard n |
| GuardLog.ReadWakesUp | day04.py:189-190 | a "wakes up" line yields a wake-up entry with no guard |
| GuardLog.ReadFallsAsleep | day04.py:191-192 | a "falls asleep" line yields a falling-asleep entry with no guard |
| GuardLog.Minute | day04.py:196-205 | the `minute` property is the clock minute after midnight and that minute minus 60 at any other hour, so it is non-negative iff the hour is 0 |
| GuardLog.Insert | day04.py:279 | inserting one entry into a list gives a permutation of the list plus that entry |
| GuardLog.InsertSorted | day04.py:279 | inserting into a time-sorted list keeps it sorted |
| GuardLog.SortLogs | day04.py:279 | `logs.sort()` returns a permutation of the entries |
| GuardLog.SortLogsSorted | day04.py:279 | the sorted entries are in time order |
| GuardLog.SortLogsKeepsSorted | day04.py:100 | sorting an already sorted list changes nothing, so the guard's second sort is harmless |
| GuardLog.NeighboursSorted | day04.py:279 | a list whose neighbours are in order is sorted |
| GuardLog.Zeros | day04.py:91 | a new histogram has 60 minutes, all zero |
| GuardLog.Guard.constructor | day04.py:89-92 | a new guard has the given id, no shift logs and an all-zero histogram |
| GuardLog.Slept | day04.py:113-121 | a nap from `start` to `end` adds one to exactly the minutes `start` to `end - 1` |
| GuardLog.Guard.Sleep | day04.py:113-121 | the loop adds one to exactly the minutes `start` to `end - 1` of the guard's histogram, in place |
| GuardLog.SleptSum | day04.py:123-127 | a nap raises the total time asleep by the number of its minutes inside the hour |
| GuardLog.Guard.ProcessLogs | day04.py:94-111 | the guard's logs end up sorted and its histogram is the reference nap count `Naps` over them, from the histogram it had |
| GuardLog.Naps | day04.py:100-111 | the `processLogs` loop over a guard's sorted logs, under the program's `> 0` rule or the corrected one: the histogram keeps its 60 minutes; NapsGrow, MidnightNeverCounted, RulesAgree and IntendedCountsEveryNap state what it counts |
| GuardLog.NapsGrow | day04.py:100-111 | processing logs only ever adds to the histogram |
| GuardLog.MidnightNeverCounted | day04.py:109 | with the source's `> 0` tests, minute 00:00 is never counted asleep |
| GuardLog.RulesAgree | day04.py:109 | when no entry falls at minute 0 the source's rule and the corrected `>= 0` rule give the same histogram |
| GuardLog.IntendedCountsEveryNap | day04.py:100-111 | with the corrected rule, every well-paired falling-asleep/waking-up pair is counted exactly once |
| GuardLog.OwnerIsLastStart | day04.py:282-291 | an entry belongs to the guard of the last shift start before it |
| GuardLog.OwnerBeforeAnyStart | day04.py:282-291 | entries before the first shift start belong to no guard (id -1) |
| GuardLog.Labelled | day04.py:288-289 | every entry is relabelled with the id of the guard on duty at that point |
| GuardLog.OfSnoc | day04.py:286-291 | appending an entry adds it to exactly its own guard's list |
| GuardLog.OfMembers | day04.py:286-291 | a guard's list holds only entries of that guard, taken from the log |
| GuardLog.OfSorted | day04.py:286-291 | each guard's list of a sorted log is itself sorted |
| GuardLog.AttributeMeaning | day04.py:282-291 | the attribution pass fails iff the first entry is not a shift start (the source would raise a KeyError); otherwise it creates each guard once, in order of first shift, and files each guard exactly its own entries, in log order |
| GuardLog.Handle | day04.py:284-291 | one iteration of the attribution loop: a shift start makes its guard active and creates its list at its first shift, any other entry goes relabelled to the active guard and fails (the KeyError) when none has started; AttributeMeaning states what the whole loop yields |
| GuardLog.RosterLists | day04.py:282-291 | every guard's list is sorted and has valid timestamps |
| GuardLog.ParseLines | day04.py:274-276 | a parsed log has one entry per line, each with a valid timestamp |
| GuardLog.ParseLine | day04.py:275-276 | `line.split('] ')` into exactly two parts, then `ShiftLog`; ReadLine states that a line in the puzzle's form reads as its timestamp and action |
| GuardLog.ReadLine | day04.py:275-276 | splitting a line at `] ` hands the timestamp and the action to the log entry constructor |
| GuardLog.ParseLinesFails | day04.py:274-276 | one unreadable line fails the whole input, as the source raises |
| GuardLog.ReadLogs | day04.py:274-276 | the loop over lines equals the reference reading of all lines |
| GuardLog.Create | day04.py:285-286 | a new guard is added under its id with an empty log and zero histogram, and the other guards are unchanged |
| GuardLog.Follow | day04.py:282-291 | handling one entry in the loop matches one step of the attribution pass and keeps every guard's stored logs equal to its attributed list |
| GuardLog.Distribute | day04.py:282-291 | the attribution loop fails iff the attribution pass fails; otherwise it creates one fresh guard per attributed id holding that guard's entries |
| GuardLog.ProcessOne | day04.py:293-294 | processing one guard's sorted logs gives the reference histogram |
| GuardLog.ProcessTable | day04.py:293-294 | after the loop over the table every guard's histogram is the reference histogram of its own entries |
| GuardLog.ProcessAll | day04.py:293-294 | processing a list of separate guards gives each the reference histogram of its own entries |
| GuardLog.ProcessInput | day04.py:256-296 | parsing, sorting, attributing and processing give, per guard, exactly its own entries and their reference histogram; the result is None iff a line is unreadable or no shift start comes first |
| GuardLog.MaxOf | day04.py:135-141 | `max(self.midnight)` is an element no smaller than any other |
| GuardLog.IndexOf | day04.py:129-133 | `list.index` is the first position holding the value, and None iff the value is absent |
| GuardLog.FirstOfMax | day04.py:129-141 | the minute reported is the first minute holding the maximum count |
| GuardLog.Values | day04.py:309 | the guards listed in first-shift order |
| GuardLog.Views | day04.py:309 | each guard is seen as its id and its histogram, and valid guards give hour-long histograms |
| GuardLog.Totals | day04.py:123-127 | each guard's time asleep is the sum of its histogram |
| GuardLog.Peaks | day04.py:135-141 | each guard's peak is its largest minute count |
| GuardLog.FirstBestUpTo | day04.py:309 | `max` over guards returns the first guard with the highest score among the first `n` |
| GuardLog.PartOne | day04.py:298-311 | the reference part-one answer: the first guard with the longest total sleep times that guard's first sleepiest minute, `None` for no guards; TwoGuards and SampleAnswers state its values |
| GuardLog.SolvePartOne | day04.py:298-311 | the answer is the reference part-one answer: the guard asleep longest, first one on ties, multiplied by its first most-asleep minute |
| GuardLog.SolvePartTwo | day04.py:313-336 | the loop's answer equals the reference part-two answer |
| GuardLog.PartTwo | day04.py:313-336 | the reference part-two answer, the result of the strict `>` scan over the guards; PartTwoMeaning states that it is the first guard with the largest minute count times that minute, and 1 with no guards |
| GuardLog.PartTwoBest | day04.py:330-334 | the loop's strict `>` keeps the first guard with the highest peak together with that guard's peak minute |
| GuardLog.PartTwoMeaning | day04.py:313-336 | the part-two answer is the id of the first guard with the highest peak times its first peak minute, and 1 (the product of the initial -1 values) when there are no guards |
| GuardLog.SampleNaps10 | day04.py:233-250 | guard 10's sample histogram is the one listed in the puzzle |
| GuardLog.SampleNaps99 | day04.py:233-250 | guard 99's sample histogram, including the shift that starts at 23:58 |
| GuardLog.SampleTotals | day04.py:233-250 | in the sample guard 10 sleeps 50 minutes and guard 99 sleeps 30 |
| GuardLog.SamplePeak10 | day04.py:233-250 | guard 10 is most often asleep at minute 24, on two days |
| GuardLog.SamplePeak99 | day04.py:233-250 | guard 99 is most often asleep at minute 45, on three days |
| GuardLog.TwoGuards | day04.py:298-336 | with two guards, part one picks the one asleep longer and part two the one with the higher peak |
| GuardLog.SampleAnswers | day04.py:250-254 | the sample answers are 240 and 4455 |
| GuardLog.MidnightNapAsWritten | day04.py:109 | a nap that starts at 00:00 is missed by the source: the histogram stays zero, although the nap should count minute 0 |
| GuardLog.MidnightNightPaired | day04.py:100-111 | the night with a nap from 00:00 is well paired; counting its naps gives minutes 0-9 and 20-29 |
| GuardLog.MidnightNightRead | day04.py:100-111 | the source's rule yields an all-zero histogram for that night, missing the later 20-29 nap too |
| GuardLog.IntendedMidnightNap | day04.py:100-111 | the corrected rule counts both naps of that night |
| Polymers.LetterMap | day05.py:47-48 | the class map is defined exactly on ASCII letters, giving each a unit with sign positive iff the letter is upper-case |
| Polymers.NumberMap | day05.py:49 | the inverse map is defined exactly on the units ±1 to ±26 |
| Polymers.MapsInverse | day05.py:47-49 | `NumberMap` is the inverse of `LetterMap`, in both directions |
| Polymers.ReactIffCasePair | day05.py:91 | two units sum to zero iff they are the same letter in opposite cases |
| Polymers.Reacts | day05.py:90-91 | the units at `index` and `index + 1` exist and sum to zero; ReactIffCasePair states that this means the same letter in opposite cases, Commute and Square that two reactions far apart can be done in either order with the same full reduction |
| Polymers.Encode | day05.py:52-56 | building a polymer succeeds iff every character is a letter, and then maps each character to its unit |
| Polymers.Decode | day05.py:102-106 | `__str__` succeeds iff every value is a unit, keeping the length |
| Polymers.DecodeEncode | day05.py:48-106 | turning a string of letters into a polymer and back with `__str__` gives the string |
| Polymers.EncodeDecode | day05.py:48-106 | turning a polymer into a string and back gives the polymer |
| Polymers.DecodedLetters | day05.py:102-106 | `__str__` of a polymer is made of letters only |
| Polymers.Polymer.Empty | day05.py:51-53 | a new polymer object holds no units |
| Polymers.Polymer.FromString | day05.py:51-56 | the constructor fails iff some character is not a letter (the source's `KeyError`), and otherwise stores the encoded units |
| Polymers.RemovePair | day05.py:94-98 | popping two neighbours shortens the polymer by two and keeps everything before and after |
| Polymers.Polymer.Resolve | day05.py:79-100 | a reacting pair at `index` is removed and the same index is returned; otherwise nothing changes and `index + 1` is returned |
| Polymers.PassFrom | day05.py:64-77 | one pass from a position is a sequence of reactions, reports a change iff it shortened the polymer, and returns it unchanged only when no pair from that position reacts |
| Polymers.Polymer.ResolveAll | day05.py:58-77 | the `while` loop computes exactly one reference pass and its "did change" flag |
| Polymers.Pass | day05.py:58-77 | `resolveAll`: one pass from the first unit, with whether it removed anything; PassMeaning states that nothing is removed iff no pair reacts, and otherwise the polymer shrinks |
| Polymers.PassMeaning | day05.py:58-77 | a pass reports no change iff the polymer has no reacting pair, and a reported change removed at least one pair |
| Polymers.ReducesTrans | day05.py:142-143 | reaction sequences compose |
| Polymers.ReducesShorter | day05.py:142-143 | reactions remove units two at a time, and a reaction sequence that removes nothing changes nothing |
| Polymers.StableIrreducible | day05.py:142-143 | a polymer without a reacting pair can not react further |
| Polymers.FullReduce | day05.py:132-146 | the reference full reduction is reachable by reactions and has no reacting pair left |
| Polymers.FullReduceShorter | day05.py:132-146 | the fully reacted polymer is shorter by an even number of units |
| Polymers.SolvePartOne | day05.py:132-146 | repeating passes until none changes leaves the fully reduced polymer in place and returns its length |
| Polymers.Commute | day05.py:79-100 | two reactions at disjoint positions can be done in either order with the same result |
| Polymers.OverlapSame | day05.py:79-100 | two overlapping reactions (as in `aAa`) have the same result |
| Polymers.Diamond | day05.py:132-146 | reacting either of two disjoint pairs first leads to the same final polymer |
| Polymers.NormalFormUnique | day05.py:132-146 | whatever order the reactions are done in, a polymer has only one fully reacted form |
| Polymers.FullReduceUnique | day05.py:132-146 | any fully reacted result of a polymer is the reference one, so the answer does not depend on the scan order of `resolveAll` |
| Polymers.WithoutIsFilter | day05.py:166 | the two `replace` calls remove exactly the lower-case and the upper-case form of the letter |
| Polymers.WithoutLetters | day05.py:166 | removing a letter from a string of letters leaves letters, so the new polymer always builds |
| Polymers.SolveWithout | day05.py:166-170 | each test polymer's result is the fully reduced length of the input without that letter |
| Polymers.MinValue | day05.py:175 | `min(results.values())` is a value of the map no larger than any other |
| Polymers.LettersEmpty | day05.py:163 | the input has no letters iff it is empty, where `min` of no results raises |
| Polymers.ShortestOfResults | day05.py:166-175 | the minimum of the per-letter results is the shortest reduced length over the input's letters |
| Polymers.SolvePartTwo | day05.py:148-175 | the answer is the shortest fully reduced length obtained by removing one letter of the input, in both cases; None iff the polymer can not be printed or is empty |
| Polymers.ExamplePartOne | day05.py:116 | the sample `dabAcCaCBAcCcaDA` reacts down to 10 units |
| Polymers.ExampleReducedWithoutA | day05.py:117 | without `a`/`A` the sample reacts down to 6 units |
| Polymers.ExampleReducedWithoutB | day05.py:117 | without `b`/`B` the sample reacts down to 8 units |
| Polymers.ExampleReducedWithoutC | day05.py:117 | without `c`/`C` the sample reacts down to 4 units |
| Polymers.ExampleReducedWithoutD | day05.py:117 | without `d`/`D` the sample reacts down to 6 units |
| Polymers.ExampleLetters | day05.py:163 | the sample uses the letters a to d |
| Polymers.ExamplePartTwo | day05.py:117 | the sample's part-two answer is 4 |
| Sleigh.ParseEdgesMeaning | day07.py:174-177 | reading fails iff some line has fewer than three words (the source's IndexError); otherwise each line gives its step (`tokens[1]`) and the step waiting for it (`tokens[-3]`), in order |
| Sleigh.ParseEdges | day07.py:174-177 | the instructions of each line, in order, and None when a line is too short; ParseEdgesMeaning and TextEdges state what it reads |
| Sleigh.Build | day07.py:174-181 | the table the reading loop fills in; BuildKeys and BuildNodes state its keys and each step's predecessors and successors |
| Sleigh.Label | day07.py:183-184 | the labelling loop: the table keeps its keys and every step gets its own name as letter |
| Sleigh.Instructions | day07.py:165-186 | `ProcessInput`; InstructionsMeaning, InstructionsClosed, InstructionsText and SampleInstructions state what table it builds |
| Sleigh.SentenceEdge | day07.py:162 | an instruction written in the puzzle's sentence form reads back as that instruction |
| Sleigh.LineEdge | day07.py:175-177 | `tokens[1]` and `tokens[-3]` of a line split on spaces: None (the IndexError) iff the line has fewer than three words, and otherwise both steps are words of the line; SentenceEdge reads an instruction sentence back |
| Sleigh.TextEdges | day07.py:174-177 | a list of instructions written one per line reads back as the list |
| Sleigh.PrecedingMeaning | day07.py:180-181 | a step's predecessors are exactly the steps some instruction puts before it |
| Sleigh.FollowingMeaning | day07.py:179-180 | a step's successors are exactly the steps some instruction puts after it |
| Sleigh.BuildKeys | day07.py:174-181 | the `defaultdict` ends up with exactly the step names mentioned by the instructions |
| Sleigh.BuildNodes | day07.py:174-181 | each entry of the table holds that step's predecessor and successor lists |
| Sleigh.InstructionsMeaning | day07.py:165-186 | the input's table has one step per name, each labelled with its own letter and holding its predecessors and successors, neither completed nor in progress |
| Sleigh.InstructionsClosed | day07.py:165-186 | every predecessor named in a parsed table is itself a step of the table |
| Sleigh.Least | day07.py:142 | the alphabetically first of a non-empty set of step names |
| Sleigh.First | day07.py:134-151 | `firstAvailable`: None iff no step may start; otherwise a step that may start and that comes alphabetically before every other such step |
| Sleigh.FirstIs | day07.py:134-151 | a step that may start and precedes all others that may is the one returned |
| Sleigh.Complete | day07.py:202 | completing a step keeps the set of steps |
| Sleigh.PendingShrinks | day07.py:196-202 | each round of part one completes exactly one more step, so the loop ends |
| Sleigh.PendingEmpty | day07.py:121-131 | `allFinished` holds iff no step is still pending |
| Sleigh.Finished | day07.py:121-131 | `allFinished`: every step is completed; PendingEmpty states that this means no step is pending |
| Sleigh.Available | day07.py:144-149 | the test of `firstAvailable`: neither completed nor in progress, and every predecessor completed; FirstIs states that the first available step in alphabetical order is the one chosen |
| Sleigh.Serial | day07.py:196-205 | the loop of part one: complete the first available step until every step is completed, `None` where the program raises; SerialCovers, SerialTopological and SerialSucceeds state its meaning |
| Sleigh.PartOne | day07.py:188-207 | part one's answer is the order of `Serial`, joined; SamplePartOne and KnotPartOne state its values |
| Sleigh.SerialCovers | day07.py:188-207 | part one's order lists every pending step exactly once |
| Sleigh.SerialTopological | day07.py:188-207 | in part one's order every step comes after all the steps it waits for |
| Sleigh.SomeReady | day07.py:196-205 | in a table whose waits are well founded, some step may start until all are done, so the "nothing is available" exception is not raised |
| Sleigh.SerialSucceeds | day07.py:188-207 | on a table whose waits are well founded, part one completes every step |
| Sleigh.FirstIdle | day07.py:223-233 | `firstAvailableWorker`: the first idle elf, or -1 iff every elf is busy |
| Sleigh.Tick | day07.py:84-96 | `Elf.update`: the timer drops by one but not below 0, and a held step comes back when it reaches 0; Countdown and AfterSplit state what repeated updates do |
| Sleigh.Countdown | day07.py:84-96 | an elf counts down one second per update and hands back its step exactly at the update that brings the timer to 0 |
| Sleigh.AfterSplit | day07.py:84-96 | updates compose: `m + n` updates are `m` updates followed by `n` |
| Sleigh.IdleShrinks | day07.py:257-266 | giving a step to an idle elf leaves one idle elf fewer, so the assignment loop ends |
| Sleigh.Uppercase | day07.py:221 | `string.ascii_uppercase` is the 26 letters A to Z in order |
| Sleigh.LetterTime | day07.py:215-221 | a step named by letter `c` takes its alphabet position plus the task factor, A being 1 |
| Sleigh.TaskTime | day07.py:215-221 | `getTaskTime`: the step's position in the capital alphabet plus `taskFactor + 1`, None for the ValueError; LetterTime gives its value for each letter |
| Sleigh.Mark | day07.py:281-282 | marking a handed-back step completed may add it to the `defaultdict` and touches nothing else |
| Sleigh.AssignAll | day07.py:257-266 | the assignment loop: the first step that may start goes to the first idle elf, until no elf is idle or no step may start, `None` where `getTaskTime` raises; AssignUnfold and the AssignAll* lemmas state what it hands out and keeps |
| Sleigh.AssignUnfold | day07.py:257-266 | the assignment loop stops when no step may start, fails when the step's time can not be computed, and otherwise gives the first step to the first idle elf and marks it in progress |
| Sleigh.AssignAllFrame | day07.py:257-266 | another elf may pick up a step only by marking it in progress; completion flags and waits are left alone |
| Sleigh.AssignAllReady | day07.py:257-266 | every step the assignment loop hands out was ready to start |
| Sleigh.AssignAllStops | day07.py:257-266 | the assignment loop stops only when no elf is idle or no step may start |
| Sleigh.Rested | day07.py:250 | the pool starts with `n` idle elves |
| Sleigh.Advance | day07.py:276-282 | the update loop: every elf counts down once and the steps they hand back are completed; keeps one elf per position; AdvanceMarks, AdvanceTicks, AdvanceCompletes and AdvanceOrdered state its effect |
| Sleigh.AdvanceMarks | day07.py:276-282 | after the update loop, exactly the steps handed back by the elves are marked completed |
| Sleigh.AdvanceTicks | day07.py:276-282 | the update loop updates each elf once |
| Sleigh.AssignAllConsistent | day07.py:257-266 | after assignment, the steps held by elves are exactly the steps in progress, each held by one elf with time left |
| Sleigh.AdvanceCompletes | day07.py:276-282 | the update loop completes exactly the steps whose elves finish, each of which was in progress and not yet completed |
| Sleigh.AdvanceConsistent | day07.py:276-282 | after the update loop, held steps and steps in progress still correspond |
| Sleigh.AssignAllOrdered | day07.py:257-266 | a step is put in progress only once all the steps it waits for are completed, and assignment keeps that |
| Sleigh.AdvanceOrdered | day07.py:276-282 | completing steps keeps every in-progress step's waits completed |
| Sleigh.Timed | day07.py:254-284 | the outer loop of part two: assignment, then updates, one second each, until every step is completed, within the fuel bound; RoundKeeps states what a second keeps and KnotPartTwo shows it never ending |
| Sleigh.PartTwo | day07.py:209-284 | part two starts `Timed` at second 0 with the pool and task factor chosen by the table's size; SoloPartTwo, KnotPartTwo and the worked example state its values |
| Sleigh.Factor | day07.py:242-248 | `taskFactor`: 60 exactly for a table of more than 10 steps, 0 otherwise |
| Sleigh.PoolSize | day07.py:242-248 | `workerPoolSize`: 5 exactly for a table of more than 10 steps, 2 otherwise |
| Sleigh.RoundKeeps | day07.py:254-284 | one second of part two keeps the set of steps, the pool size and both invariants, and never uncompletes a step |
| Sleigh.InstructionsText | day07.py:165-186 | reading the text of a non-empty list of instructions whose steps hold no whitespace gives the labelled table built from that list |
| Sleigh.SampleInstructions | day07.py:162 | reading the seven lines of the sample gives exactly the sample table the part-one lemmas work on |
| Sleigh.SampleFirst0 | day07.py:162 | in the sample only C may start at first |
| Sleigh.SamplePartOne | day07.py:162 | the sample's part-one answer is `CABDFE` |
| Sleigh.SoloAssign | day07.py:254-266 | with one step A and no task factor, the first round gives A to the first elf for 1 second |
| Sleigh.SoloPartTwo | day07.py:254-284 | a single step A with no task factor takes 1 second |
| Sleigh.RestedAdvance | day07.py:276-282 | updating a pool of idle elves changes nothing |
| Sleigh.KnotPartOne | day07.py:204-205 | two steps that wait for each other make part one raise |
| Sleigh.KnotBlocked | day07.py:134-151 | in that table no step may ever start |
| Sleigh.KnotPartTwo | day07.py:254-284 | part two on that table never finishes |
| SleighSample.AvailableFlags | day07.py:144-149 | in the example table with a given set of steps completed and another in progress, a step may start iff it is neither, and every step it waits for is completed |
| SleighSample.FirstFlags | day07.py:134-151 | the step `firstAvailable` returns in such a state is the alphabetically first step that may start |
| SleighSample.AssignLast | day07.py:257-266 | the inner assignment loop gives the first step that may start to the first idle elf, marks it in progress, and stops once no elf is idle or nothing may start |
| SleighSample.AdvanceTwo | day07.py:276-281 | updating two elves, in order, completes the steps they hand back and counts their timers down |
| SleighSample.Second | day07.py:254-284 | one turn of the outer loop on the example takes the table and the two elves from their state at second k to their state at second k + 1 |
| SleighSample.Countdown | day07.py:254-284 | a run that moves one second on per turn and stops once every step is completed, at second 15, ends at second 15 iff it may last the seconds left |
| SleighSample.SamplePartTwo | day07.py:209-284 | with two elves and no extra seconds per step, the example's six steps are all completed after exactly 15 seconds |
| SleighObjects.Step.constructor | day07.py:51-65 | a new step holds its letter, the given successor and predecessor when they are not empty, and is neither completed nor in progress |
| SleighObjects.View | day07.py:165-186 | the table of step objects read as values, with the same keys |
| SleighObjects.Touch | day07.py:172 | looking a key up in the `defaultdict` creates a fresh blank step when it is missing and changes no other step |
| SleighObjects.AddSuccessor | day07.py:179 | appending to a step's successors changes that one list and nothing else |
| SleighObjects.AppendSuccessor | day07.py:179 | the `.append` itself, on a step already in the table: that step's successors gain the new one at the end, and no other step changes |
| SleighObjects.AddPredecessor | day07.py:180 | appending to a step's predecessors changes that one list and nothing else |
| SleighObjects.AppendPredecessor | day07.py:180 | the `.append` itself, on a step already in the table: that step's predecessors gain the new one at the end, and no other step changes |
| SleighObjects.LinkEdge | day07.py:179-180 | one instruction updates the object table exactly as one step of the reference table construction |
| SleighObjects.ReadLine | day07.py:174-180 | a line is accepted iff it has at least three words, and then adds its instruction to the table |
| SleighObjects.LabelStep | day07.py:183-184 | labelling one more step moves the labelling loop forward by one key |
| SleighObjects.SetLetter | day07.py:184 | setting one step's letter labels exactly that key |
| SleighObjects.LabelAll | day07.py:183-184 | after the labelling loop every step knows its own letter |
| SleighObjects.ProcessInput | day07.py:165-186 | the object table is built iff the reference reading succeeds, and it then holds exactly the reference table in fresh, separate step objects |
| SleighObjects.AllFinished | day07.py:121-131 | the early-exit loop answers whether every step is completed |
| SleighObjects.SortedKeys | day07.py:142 | `sorted(keys)` lists every key once, in increasing order |
| SleighObjects.InsertSorted | day07.py:142 | inserting a new key into a sorted list keeps it sorted and adds exactly that key |
| SleighObjects.FirstAt | day07.py:142-149 | the first key in sorted order that may start is the reference first available step |
| SleighObjects.NoneAt | day07.py:142-151 | when no key in sorted order may start, there is no available step |
| SleighObjects.MayStart | day07.py:143-149 | the loop body's test is exactly "may start": not completed, not in progress, all predecessors completed |
| SleighObjects.FirstAvailable | day07.py:134-151 | the loop returns exactly the reference first available step |
| SleighObjects.MarkCompleted | day07.py:203 | setting `completed` touches that step only, and no elf |
| SleighObjects.SerialStep | day07.py:196-202 | completing the first available step advances the reference order by that step |
| SleighObjects.SerialFinished | day07.py:199-207 | when every step is completed the order built so far is the answer |
| SleighObjects.ClosedComplete | day07.py:202 | completing a step keeps every predecessor inside the table |
| SleighObjects.CompleteFirst | day07.py:196-205 | one round of part one's loop completes exactly the first available step `First(g)`, appends it to the order and keeps the final order unchanged; it fails exactly when no step is available, and then changes nothing |
| SleighObjects.CompleteAll | day07.py:199-203 | every step of the table marked completed, with the same keys and nothing else changed |
| SleighObjects.OnlyCompletedFinished | day07.py:199-203 | a table that differs from the start only in `completed` and has every step completed is `CompleteAll` of the start |
| SleighObjects.SolvePartOne | day07.py:188-207 | the loop over step objects returns exactly the reference part-one answer of the table it was given, and a solved table is left as `CompleteAll` of the start: every step completed, nothing else changed |
| SleighObjects.Elf.constructor | day07.py:79-82 | a new elf has its name, no task and timer 0 |
| SleighObjects.Elf.Update | day07.py:84-96 | the update is one reference tick: timer down to no less than 0, handing back and dropping the task when it reaches 0 |
| SleighObjects.Elf.AssignTask | day07.py:104-118 | assignment succeeds iff the elf was idle (otherwise the source raises), and then sets the task and timer |
| SleighObjects.Elf.IsAvailable | day07.py:98-102 | an available elf hands nothing back when counting down; a busy elf on their last second hands their step back |
| SleighObjects.Workers | day07.py:250 | the pool of elves read as a list of values, one per elf |
| SleighObjects.FirstAvailableWorker | day07.py:223-233 | the loop returns the reference first idle elf, or -1 |
| SleighObjects.MarkInProgress | day07.py:266 | setting `inProgress` touches that step only, and no elf |
| SleighObjects.AssignElf | day07.py:265 | giving a task changes only that elf, and no step |
| SleighObjects.Start | day07.py:265-266 | starting a step changes exactly that step's flag and that elf |
| SleighObjects.AssignNext | day07.py:257-266 | one pass of the inner loop is one step of the reference assignment, and the loop ends because idle elves run out |
| SleighObjects.AssignRound | day07.py:257-266 | one pass either stops with the reference assignment's result or shrinks the idle set toward it |
| SleighObjects.AssignPhase | day07.py:257-266 | the whole assignment loop computes the reference assignment, failing exactly when it fails |
| SleighObjects.UpdateElf | day07.py:277 | updating one elf is one reference tick and changes no step |
| SleighObjects.NewCompleted | day07.py:280 | the step object the `defaultdict` creates for a missing key, marked completed |
| SleighObjects.AddCompleted | day07.py:280 | completing a missing key adds it as a fresh completed step and keeps every step already in the table |
| SleighObjects.CompleteTask | day07.py:280-282 | marking a handed-back step completed changes the table as the reference mark does |
| SleighObjects.UpdateOne | day07.py:277-280 | updating elf `j` and marking its handed-back step matches one step of the reference update loop, and keeps every step already in the table |
| SleighObjects.AdvanceStep | day07.py:276-282 | the update loop over elves `j` onward unfolds into elf `j` then the rest |
| SleighObjects.AdvanceOne | day07.py:276-280 | one pass of the update loop moves the reference update one elf further, keeping every step already in the table |
| SleighObjects.AdvancePhase | day07.py:276-280 | the update loop over all elves computes exactly the reference update, and keeps every step already in the table |
| SleighObjects.MakePool | day07.py:250 | the pool holds `n` fresh idle elves named 0 to `n - 1` |
| SleighObjects.ClosedAdvance | day07.py:276-282 | the update loop keeps every predecessor inside the table |
| SleighObjects.ViewSize | day07.py:246 | `len(data)` counts the steps of the table |
| SleighObjects.TimedStep | day07.py:254-284 | one second of the outer loop advances the reference timing by one second |
| SleighObjects.Second | day07.py:254-284 | one pass of the outer loop keeps the remaining reference answer unchanged and moves time forward by one |
| SleighObjects.Round | day07.py:254-284 | one pass of the outer loop, also reporting whether every step is now completed |
| SleighObjects.SolvePartTwo | day07.py:209-286 | the elves' clock, within the fuel bound, returns exactly the reference part-two answer of the table it was given, with 2 elves and no extra time for up to 10 steps and 5 elves with 60 extra seconds otherwise; a solved table has every step completed |
| SleighObjects.FinishedKept | day07.py:254 | when the table still holds every original step object and every step of it is completed, so is every original step |
| TreeNodes.Missing | day08.py:31-32 | a node still needs metadata iff some entries are missing |
| TreeNodes.NeedsMetadata | day08.py:31-32 | `needsMetadata`: fewer metadata entries than announced; Missing states that this means entries are still to be read |
| TreeNodes.ChildrenDiscovered | day08.py:34-35 | `childrenDiscovered`: as many children as announced; LeafGather and StepOpen state when the parse sets it |
| TreeNodes.Create | day08.py:68-82 | the header part of an iteration adds a node numbered one past the count under the current node and moves the pointer on by two; when no new header is due it changes nothing |
| TreeNodes.CreateNew | day08.py:68-82 | the header part reads the two counts at the pointer and appends the new node to its parent's children, unless the parent is 0 |
| TreeNodes.Gather | day08.py:94-97 | the metadata loop moves the pointer forward within the list and keeps the set of nodes |
| TreeNodes.GatherFills | day08.py:94-97 | the metadata loop fills exactly the missing entries of the current node with the next list entries and changes no other node |
| TreeNodes.Step | day08.py:67-99 | one iteration keeps the numbering and parent invariant and makes progress, so the loop ends |
| TreeNodes.CreateLinks | day08.py:68-82 | the header part keeps every node's children and parent links consistent |
| TreeNodes.StepLinks | day08.py:67-99 | one iteration keeps every node's children and parent links consistent |
| TreeNodes.Parse | day08.py:58-101 | the outer reading loop from a parser state to the end of the list, `None` where it raises; ParseWellLinked, ParseWellFormed, ParseEnd and ParseTrailing state what it leaves behind |
| TreeNodes.ParseWellLinked | day08.py:48-101 | the table the loop leaves behind is numbered 1, 2, ... without gaps, and every child lists its parent and is numbered after it |
| TreeNodes.ReadMetadata | day08.py:94-97 | the inner `while` loop equals the reference metadata pass |
| TreeNodes.Iterate | day08.py:67-99 | the body of the outer loop equals one reference iteration |
| TreeNodes.ReadNodes | day08.py:58-101 | the outer loop equals the reference reading from the empty table |
| TreeNodes.ProcessInput | day08.py:48-101 | the input is a list of integers separated by whitespace, or None, and the table is the reference reading of that list |
| TreeNodes.ReadTree | day08.py:48-101 | the recursive reading of a tree (header, children, metadata) consumes at least its two header numbers and stays within the list |
| TreeNodes.ReadChildren | day08.py:48-101 | reading `n` children gives `n` trees and stays within the list |
| TreeNodes.FlatKeys | day08.py:70 | numbering a tree in reading order uses exactly the numbers `k` to `k + size - 1` |
| TreeNodes.ParseWellFormed | day08.py:48-101 | on a list that encodes one tree exactly, the flat reading loop gives the tree numbered in reading order |
| TreeNodes.AfterRoot | day08.py:48-101 | after the root's metadata the loop has moved the whole tree into the table and climbed to parent 0 |
| TreeNodes.ParseEnd | day08.py:67 | the loop stops when the pointer reaches the end of the list |
| TreeNodes.ParseTrailing | day08.py:48-101 | entries left after the root tree make the loop raise |
| TreeNodes.MetaOverRemove | day08.py:103-114 | summing the metadata of a set of nodes takes each node's sum once |
| TreeNodes.MetaOverUnion | day08.py:103-114 | the metadata sum over two disjoint sets of nodes is the sum of the two |
| TreeNodes.MetaOverAgree | day08.py:103-114 | the metadata sum depends only on the nodes' metadata |
| TreeNodes.SolvePartOne | day08.py:103-114 | the loop's total is the sum of all metadata entries of all nodes |
| TreeNodes.FlatMeta | day08.py:103-114 | the flat table's metadata sum is the tree's metadata sum |
| TreeNodes.PartOneTree | day08.py:103-114 | on a list encoding one tree exactly, part one is the sum of all the tree's metadata |
| TreeNodes.PickChild | day08.py:21-28 | as written, an entry above the child count is skipped, entries up to it pick child `entry - 1` with 0 and negatives counting from the end, and entries below `1 - count` raise; as intended, only entries 1 to the count pick a child |
| TreeNodes.ValueOf | day08.py:13-29 | `getValue` on the table: a childless node is worth the sum of its metadata, any other the sum of the values of the children its entries pick, under either rule; ValueFlat and ExampleValue state its values |
| TreeNodes.GetValue | day08.py:13-29 | the recursive `getValue` equals the reference value of the node |
| TreeNodes.SolvePartTwo | day08.py:116-123 | the answer is the value of node 1, and None (the source's KeyError) when the table has no node 1 |
| TreeNodes.ParsedOrdered | day08.py:48-101 | in the parsed table every child is numbered after its parent, so `getValue` terminates |
| TreeNodes.ValueFlat | day08.py:13-29 | a node's value in the table is the value of its subtree |
| TreeNodes.ChildValuesFlat | day08.py:19-28 | the loop over a node's entries sums the same child values as on the subtree |
| TreeNodes.PartTwoTree | day08.py:116-123 | on a list encoding one tree exactly, part two is the value of the root tree |
| TreeNodes.RulesAgree | day08.py:21-28 | when every metadata entry of every inner node is at least 1, the source's rule and the intended one give the same value |
| TreeNodes.ParseComplete | day08.py:48-101 | on a list encoding one tree exactly, every node ends with all its children and all its metadata |
| TreeNodes.ExampleRead | day08.py:45 | the sample list encodes the puzzle's tree A with children B and C, and D under C |
| TreeNodes.ExampleMeta | day08.py:45 | the sample tree's metadata sum is 138 |
| TreeNodes.ExampleValue | day08.py:46 | the sample tree's value is 66 under either rule |
| TreeNodes.Example | day08.py:45-46 | the flat reading of the sample gives 138 for part one and 66 for part two |
| TreeNodes.ZeroEntryAsWritten | day08.py:22-24 | as written, entry 0 picks the last child: the root of `1 1 0 1 7 0` is worth 7 |
| TreeNodes.ZeroEntryIntended | day08.py:21-28 | with the intended rule the same root is worth 0 |
| Marbles.Wrap | day09.py:64-66 | Python's `index % len` always lands inside the list |
| Marbles.WrapUnique | day09.py:64-66 | the wrapped index is the remainder of the index by the length, also for negative indexes |
| Marbles.WrapTurn | day09.py:64-66 | going once round the circle reaches the same place |
| Marbles.WrapInRange | day09.py:64-66 | an index already inside the list is unchanged |
| Marbles.CircularList.At | day09.py:64-66 | `__getitem__` with an integer: the item at the wrapped index; Wrap states that this index lies inside the list |
| Marbles.CircularList.SliceOf | day09.py:67-79 | `__getitem__` with a slice: both ends wrapped, and running over the end to the front when the stop is not after the start; SliceClockwise states its contents |
| Marbles.SliceClockwise | day09.py:67-79 | a circular slice runs clockwise from the wrapped start to the wrapped stop, going round the end of the list when the stop is not after the start |
| Marbles.CircularList.constructor | day09.py:61-62 | a new circular list holds the given items |
| Marbles.CircularList.Set | day09.py:83-84 | setting an item replaces the one at the wrapped index, and only it |
| Marbles.InsertAt | day09.py:86-92 | inserting puts the item at the position and shifts the later items one place on |
| Marbles.CircularList.Insert | day09.py:86-92 | inserting puts the item at the wrapped index |
| Marbles.RemoveAt | day09.py:94-100 | popping drops the item at the position and shifts the later items one place back |
| Marbles.RemoveInserted | day09.py:86-100 | popping what was just inserted gives the list back |
| Marbles.CircularList.Pop | day09.py:94-100 | popping returns and removes the item at the wrapped index |
| Marbles.FirstUnplaced | day09.py:159-163 | the next marble is the lowest-numbered one not yet placed, and there is none iff all are placed |
| Marbles.HasRules | day09.py:111-116 | `Marble.hasRules`: the marble's number is a multiple of 23; TurnScores and TurnInserts state the two branches it selects |
| Marbles.Turn | day09.py:153-193 | `update` on the game as a value: the outcome and the new state; TurnOver, TurnPlacesLowest, TurnCounters, TurnScores, TurnInserts and TurnConserves state its effect |
| Marbles.TurnOver | day09.py:159-163 | a turn reports the game over iff every marble is placed, and then changes nothing |
| Marbles.TurnPlacesLowest | day09.py:159-165 | a turn marks exactly the lowest unplaced marble as placed |
| Marbles.TurnCounters | day09.py:190-191 | a turn moves the player and the turn counter on by one |
| Marbles.TurnScores | day09.py:167-177 | a multiple of 23 pops the marble 7 places before the current index, adds both numbers to the current player's score only, and moves the current index back by 6 |
| Marbles.TurnInserts | day09.py:178-188 | any other marble is inserted at the wrapped index after the current one, which becomes the current index, and scores are unchanged |
| Marbles.InsertAtEndGoesFront | day09.py:178-188 | when the current index is the last position, the new marble goes to the front of the list |
| Marbles.SumRemove | day09.py:169 | popping takes exactly the popped value out of the list's sum |
| Marbles.SumInsert | day09.py:186 | inserting adds exactly the inserted value to the list's sum |
| Marbles.SumUpdate | day09.py:174 | adding to one score changes the sum of the scores by the same amount |
| Marbles.PlacedSumSet | day09.py:165 | placing marble `m` adds `m` to the total of the placed marbles |
| Marbles.TurnConserves | day09.py:153-193 | every turn keeps the numbers of all placed marbles, either on the playfield or in a score |
| Marbles.InitialConserved | day09.py:139-151 | the starting state holds marbles 0 and 1 on the playfield and no score, the next marble being 2, and a two-marble game is already over |
| Marbles.MarbleGameState.constructor | day09.py:139-151 | a new game holds the starting state, with marbles 0 and 1 placed, every score 0, current player and current index 1 and turn 0; fewer than two marbles makes the source raise, so the constructor requires two |
| Marbles.Initial | day09.py:139-151 | the state the constructor builds; InitialConserved states that it conserves every placed marble and that the next marble is 2 when there is one |
| Marbles.MarbleGameState.Update | day09.py:153-193 | `update` changes the object exactly as one reference turn and returns that turn's flag |
| Marbles.Max | day09.py:195-199 | `max` over the scores is a score no smaller than any other |
| Marbles.MarbleGameState.WinningScore | day09.py:195-199 | `getWinningScore`: `None` iff there are no players, where `max([])` raises; otherwise one of the scores and no smaller than any other |
| Marbles.Header | day09.py:238-240 | the header is read iff there are at least two words, the first and the second-to-last are integers, and the marble count is at least 2; then it is those two numbers |
| Marbles.ProcessInput | day09.py:228-242 | a game is built iff the header can be read, with the player count from the first word and the marble count from the second-to-last; the new game is in the constructor's starting state `Initial(marbleCount, playerCount)` |
| Marbles.IntendedConserves | day09.py:153-193 | the corrected turn, like the turn as written, keeps every placed marble's number on the playfield or in a score |
| Marbles.TurnIntended | day09.py:178-188 | the puzzle's turn; IntendedConserves, IntendedInsertIsCurrent and IntendedRemovalCurrent state its effect, and FirstTurnAsWritten and RemovalAsWritten compare it with the turn as written |
| Marbles.IntendedInsertIsCurrent | day09.py:178-188 | with the corrected rule the newly placed marble is current, right after the marble one place clockwise of the old current marble |
| Marbles.IntendedRemovalCurrent | day09.py:177 | with the corrected rule, after a removal the marble that followed the removed one is current |
| Marbles.FirstTurnAsWritten | day09.py:178-188 | in a fresh game the source puts marble 2 at the front and its current index then names marble 1; the corrected rule gives `0 2 1` with marble 2 current |
| Marbles.RemovalAsWritten | day09.py:177 | on the playfield `0..8` with current index 8, marble 23 removes marble 1 and the source's current index names marble 3, where the marble after the removed one (2) is intended |

## Left out

- The `ProblemSolver` base class (`utils/__init__.py:22-113`): reading the input file, `Run`, `TestAlgorithm`, `getInputsFolder` and every `print`. It is file I/O and console output; the test dictionaries it checks appear as example lemmas instead.
- The `if not data: data = self.processed` fallbacks of every solver. They read the cached puzzle input, which is file I/O; each solver here takes its data as a parameter.
- Polymers.SolvePartTwo: the fallback also applies to each test polymer, and the model does not follow it there. `Polymer` is a list (day05.py:41), so an empty test polymer is falsy. A test polymer is empty when the input holds only one letter, in either case (for example `aAa`). `SolvePartOne(data=tests[test])` then falls back to `self.processed` (day05.py:139-140) and answers the reduced length of the whole input, 1 for `aAa`. The model answers 0 for that test.
- Every `__str__`/`__repr__`, apart from the polymer's `__str__` (modelled as `Polymers.Decode`, with its round trip) and the claim's (modelled as `Claims.Show`). They are debugging output.
- Frequency.SolvePartTwo: the search stops after `fuel` changes and then answers `None`, because the source loops forever when no total repeats. It requires a non-empty change list, because with none the source's `data[0]` raises.
- Day 2's pair search, `difflib.ndiff` over `itertools.permutations` together with its assert (`day02.py:82-90`). This is library diff logic; only the common-letter step that follows it is modelled (`Checksum.CommonLetters`).
- Claims.Day03Solver.SolvePartOne: the PIL image is a 1000 by 1000 `array2<int>` starting at 0, with no 8-bit saturation of pixel values. A claim reaching outside the image, negative coordinates included, is treated as an error (`None` or `Raised`); the model does not follow Pillow where its pixel access wraps negative coordinates the way list indexes wrap.
- The `datetime` parsing and formatting of day 4 (`day04.py:182`, `223`). They become the `Stamp` datatype with `ParseStamp`/`FormatStamp`, which read and write the fixed `[YYYY-MM-DD hh:mm` layout; calendar validation is not modelled.
- GuardLog.Guard: the rich comparison operators are modelled by the totals and peaks they compare (`Totals`, `Peaks`, `FirstOfMax`), not as Python operator methods. `Guard.AsleepTime`, `Guard.AsleepMinuteTime` and `Guard.AsleepMinute` have no contract of their own; what they compute is stated on those functions.
- GuardLog: the guards' dictionary is a sequence in order of first shift, which is Python's dict iteration order. The part-two dictionary comprehension is a sequence over the same guards.
- Day 6's `voroni`, its `ProcessInput` and `SolvePartOne` (`day06.py:31-135`). They draw random colours into a PIL image and compute no value; only `sign` and `pointInTriangle` are modelled.
- Sleigh.PartTwo and SleighObjects.SolvePartTwo: bounded by `fuel` seconds. The source has no guard against a cycle of steps and then loops forever.
- SleighObjects.SolvePartOne and SleighObjects.SolvePartTwo require every named step to be in the dictionary (`Closed`) and the steps to be distinct objects (`Separate`). `SleighObjects.ProcessInput` establishes both. The source's `defaultdict` would otherwise insert fresh steps during a lookup.
- TreeNodes.GetValue and TreeNodes.SolvePartTwo require every child to be numbered after its parent (`Ordered`). That is the termination measure of the recursion, and `TreeNodes.ParsedOrdered` proves it holds for every table that `ProcessInput` builds.
- Day 9's `SolvePartOne` debug loop, which raises "Bonk", and the empty `SolvePartTwo` (`day09.py:244-273`). They return no answer.
- Marbles: the `Player` and `Marble` objects become the `scores` sequence and the `placed` flags. Taking an index modulo an empty list, which raises in Python, gives `None`.
- Strings: `isspace`, `lower`, `upper` and `int()` are modelled on ASCII characters only, and `int()` here accepts no `_` between digits and no non-ASCII digits, both of which Python's `int` accepts; the puzzle inputs use neither.
- Marbles.MarbleGameState.constructor requires at least two marbles, because with fewer the source's setup raises.
- `CircularList.__str__` and the other formatters of day 9. They are debug output.

## Findings

| source | as written | input that shows it | evidently intended | confidence | as-written member | corrected member |
|---|---|---|---|---|---|---|
| day03.py:146 | the column loop of `CheckIfClaimIsClean` runs up to `claim.w + claim.y` | claims `#1 @ 0,5: 1x1`, `#2 @ 1,5: 1x1`, `#3 @ 1,5: 1x1`: claim 1 is scanned over columns 0 to 5 and meets the doubly claimed cell (1, 5), so no claim is found | columns up to `claim.x + claim.w`, which finds claim 1 | not executed | Claims.Day03Solver.CheckIfClaimIsCleanAsWritten, Claims.ScanBugExample | Claims.Day03Solver.CheckIfClaimIsClean, Claims.CleanIffNoOverlap |
| day04.py:109 | a nap is recorded only when `asleepTime > 0 and awakeTime > 0` | a guard who falls asleep at 00:00, wakes at 00:10, sleeps again at 00:20 and wakes at 00:30: neither nap is counted | every nap counted, those starting at 00:00 included | not executed | GuardLog.MidnightNapAsWritten | GuardLog.IntendedCountsEveryNap, GuardLog.IntendedMidnightNap |
| day08.py:22-24 | a metadata entry 0 passes the `<= len(children)` test and reads `children[-1]`, the last child | the number list `1 1 0 1 7 0`: the root is worth 7 | entry 0 refers to no child, so the root is worth 0 | not executed | TreeNodes.ZeroEntryAsWritten | TreeNodes.ZeroEntryIntended, TreeNodes.RulesAgree |
| day09.py:186-188 | the marble is inserted at the wrapped `currentMarble + 1` and the current index becomes the unwrapped `currentMarble + 1` | a fresh game with 3 marbles and 9 players: marble 2 goes to the front (`2 0 1`) and the current index names marble 1 | the marble goes between the marbles one and two places clockwise and becomes current (`0 2 1`) | not executed | Marbles.FirstTurnAsWritten | Marbles.IntendedInsertIsCurrent, Marbles.IntendedConserves |
| day09.py:177 | after a removal the current index moves back by 6 from the old one | playfield `0 1 2 3 4 5 6 7 8`, current index 8, marble 23: marble 1 is removed and the current index names marble 3 | the marble that followed the removed one (2) becomes current | not executed | Marbles.RemovalAsWritten | Marbles.IntendedRemovalCurrent |
