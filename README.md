# Advent of Code 2025 solvers, days 1–6 and 10, modelled in Dafny

This project models seven of the repository's puzzle solvers. Each one
reads a puzzle input from text and computes an answer from it:

- **Day 1** (`Safe`, `Rotation`): a dial with positions 0 to 99 starts at
  50 and is turned left or right by the given distances. The first
  password counts the rotations that leave the dial at 0. The second
  counts every click that lands on 0.
- **Day 2** (`IdRange`): finds the "invalid" ids in comma-separated ranges.
  An invalid id is one whose decimal digits are some number written twice,
  like `6464`. The answer is the sum of those ids.
- **Day 3** (`BatteryBank`): from a row of digits, chooses `k` of them in
  order so that the number they form is as large as possible. Then sums
  that number over all rows.
- **Day 4** (`Warehouse`): in a grid of paper rolls, counts the rolls that
  have fewer than four rolls among their eight neighbours.
- **Day 5** (`IngredientDatabase`): given ranges of fresh ids and a list of
  ids, counts the listed ids that are fresh. Then counts the distinct ids
  the ranges cover, by sorting the ranges and merging them.
- **Day 6** (`MathHomework`): columns of numbers, each with an operator
  (`+` or `*`) below it. The answer is the sum of the column results.
- **Day 10** (`Machine`): each machine has buttons that toggle sets of
  indicator lights. A uniform-cost search finds the fewest presses that
  turn on exactly the target lights. The answer sums this over all
  machines.

There is one Dafny module per source file, `Day01` to `Day10`, plus a module
`Text` for the parts of Rust's standard library the solvers rely on:

- `str::parse` for unsigned integers;
- `split`, `splitn(2, _)`, `split_whitespace` and `lines`;
- collecting an iterator of `Result`s, and summing `u64` values.

Every fallible call returns a `Text.Result`, which has three outcomes:

- `Ok` is a value;
- `Err` is an error the Rust code returns;
- `Panic` is an abrupt stop. That covers an `expect`, an `assert!`, an
  out-of-bounds index, and an arithmetic overflow, which panics in a debug
  build.

Integers are unbounded `nat`s. `u16`, `u32` and `u64` limits are written
out wherever the code's arithmetic can reach them. Day 10's lights are
`bv16`.

Code that loops and updates variables is modelled as a `method` with a
loop. Each such method is proved against a specification function, and
the properties are proved about that function. Day 10's search keeps its
distance table as an `array` of 65535 slots. Parsers and other
expression-style code are modelled as functions.

## Model

| member | source | states |
|---|---|---|
| Text.Collected | src/bin/day01.rs:31-35 | collecting outcomes succeeds exactly when every outcome is a value, and then keeps them all in order; otherwise some outcome failed |
| Text.ParseDecimal | src/bin/day02.rs:79-80 | reading the decimal text of a number below the type's limit gives the number back |
| Text.SplitJoinWords | src/bin/day06.rs:55 | splitting at whitespace the words joined by spaces gives back the words |
| Text.JoinSplit | src/bin/day02.rs:23 | joining the pieces of `split(',')` with commas restores the text |
| Text.SplitJoin | src/bin/day02.rs:23 | splitting joined comma-free pieces gives back the pieces |
| Text.SplitOnce | src/bin/day05.rs:45 | `splitn(2, '-')` has two parts exactly when the text has a `-`, and the first part has none |
| Text.LinesUnlines | src/bin/day06.rs:50 | `lines()` of newline-terminated lines gives back those lines |
| Text.SumOutcomesOk | src/bin/day05.rs:91-94 | a `u64` sum is the sum of the values when each is a value and the sum fits; it is an error only if some summand is one |
| Day01.Apply | src/bin/day01.rs:91-99 | turning the dial always leaves it at a position from 0 to 99 |
| Day01.ApplyIsOffset | src/bin/day01.rs:91-99 | a turn moves the dial by the signed distance modulo 100 |
| Day01.LeftUndoesRight | src/bin/day01.rs:91-99 | turning left by `d` undoes turning right by `d`, and the other way round |
| Day01.ApplyExamples | src/bin/day01.rs:144-151 | the six turns of the unit test end where the test expects |
| Day01.DialsPositions | src/bin/day01.rs:44-45 | the `k`-th recorded position is the dial after the first `k + 1` rotations from 50 |
| Day01.StopsPassword | src/bin/day01.rs:40-53 | the password is the number of rotations after which the dial rests at 0 |
| Day01.ClicksEndAtApply | src/bin/day01.rs:91-99 | turning one click at a time ends where `apply` puts the dial |
| Day01.PassesCountsZeroClicks | src/bin/day01.rs:60-74 | the closed-form counts of `passes_password` equal the number of single clicks that land on 0 |
| Day01.RightZeroClicks | src/bin/day01.rs:72-74 | a right turn lands on 0 `(position + d) / 100` times |
| Day01.LeftZeroClicks | src/bin/day01.rs:61-71 | a left turn lands on 0 as often as the truncating-division formula says, with one more when it starts above 0 |
| Day01.PassesPassword | src/bin/day01.rs:55-81 | the password is the total number of clicks that land on 0 over all rotations |
| Day01.PasswordExamples | src/bin/day01.rs:123-165 | the test's ten rotations give passwords 3 and 6 |
| Day01.RotationFromStr | src/bin/day01.rs:105-113 | a line reads exactly when it is `L` or `R` followed by a `u32`; an empty line or a multi-byte first character panics at the slice |
| Day01.RotationRoundTrip | src/bin/day01.rs:105-113 | reading a written rotation gives it back |
| Day01.RotationExamples | src/bin/day01.rs:137-141 | `L68` and `R14` read as in the test, and `Not a rotation` is an error |
| Day01.SafeFromLinesReads | src/bin/day01.rs:30-38 | the safe reads exactly when every line does, one rotation per line in order; otherwise it fails as the first unreadable line does |
| Day02.Log10 | src/bin/day02.rs:41 | `ilog10` is the exponent of the largest power of ten not above the number |
| Day02.DoubledDigits | src/bin/day02.rs:52 | the candidate built from a half is the half's digits written twice |
| Day02.InvalidIds | src/bin/day02.rs:35-66 | with the corrected start, the loop returns what the specification of the search gives, including its overflow panic |
| Day02.ScanSound | src/bin/day02.rs:51-63 | every id the search reports is in the range and is some half written twice |
| Day02.ScanIncreasing | src/bin/day02.rs:51-63 | the ids are reported in strictly increasing order |
| Day02.ScanComplete | src/bin/day02.rs:51-63 | every doubled id in the range whose half is at least the starting half is reported |
| Day02.InvalidIdsExactly | src/bin/day02.rs:35-66 | with the corrected start, the ids reported are exactly the invalid ids of the range, in increasing order |
| Day02.ScanNeverErr | src/bin/day02.rs:51-63 | the search never returns an error |
| Day02.ScanPanics | src/bin/day02.rs:52 | the search panics exactly when the range reaches the largest doubled id that fits a `u64` |
| Day02.InvalidIdsPanics | src/bin/day02.rs:35-66 | for `u64` bounds and with the corrected start, the search panics exactly when the end reaches the largest doubled id that fits |
| Day02.InvalidIdsAsWritten | src/bin/day02.rs:38-40 | as written, a one-digit start is used as the first half, and a start of 0 panics in `ilog10` |
| Day02.AsWrittenSkipsEleven | src/bin/day02.rs:38-40 | as written, a start from 2 to 9 misses the invalid id 11; the corrected search reports it |
| Day02.AsWrittenExample | src/bin/day02.rs:38-40 | as written, `2-11` has no invalid ids; the corrected search gives `[11]` |
| Day02.Range1To19 | src/bin/day02.rs:92 | test range `1-19` has invalid ids `[11]` |
| Day02.Range11To22 | src/bin/day02.rs:93 | test range `11-22` has `[11, 22]` |
| Day02.Range95To115 | src/bin/day02.rs:94 | test range `95-115` has `[99]` |
| Day02.Range998To1012 | src/bin/day02.rs:95 | test range `998-1012` has `[1010]` |
| Day02.Range1188511880To1188511890 | src/bin/day02.rs:96 | test range `1188511880-1188511890` has `[1188511885]` |
| Day02.Range222220To222224 | src/bin/day02.rs:97 | test range `222220-222224` has `[222222]` |
| Day02.Range1698522To1698528 | src/bin/day02.rs:98 | test range `1698522-1698528` has none |
| Day02.Range446443To446449 | src/bin/day02.rs:99 | test range `446443-446449` has `[446446]` |
| Day02.Range38593856To38593862 | src/bin/day02.rs:100 | test range `38593856-38593862` has `[38593859]` |
| Day02.Range565653To565659 | src/bin/day02.rs:101 | test range `565653-565659` has none |
| Day02.Range824824821To824824827 | src/bin/day02.rs:102 | test range `824824821-824824827` has none |
| Day02.Range2121212118To2121212124 | src/bin/day02.rs:103 | test range `2121212118-2121212124` has none |
| Day02.RangeFromStr | src/bin/day02.rs:72-83 | a piece reads exactly when it splits at its first `-` into two `u64`s, and the range holds them |
| Day02.RangeRoundTrip | src/bin/day02.rs:72-83 | reading a written range gives it back |
| Day02.ReadableRangesKeep | src/bin/day02.rs:24 | the ranges kept are exactly those of the pieces that read |
| Day02.IdSum | src/bin/day02.rs:25-26 | summing over the ranges never errs, and a value fits a `u64` |
| Day02.IdSumOutcome | src/bin/day02.rs:25-26 | the sum is a value exactly when every search, with the corrected start, succeeds and the total of every id fits a `u64`, and then it is that total |
| Day02.InvalidIdSumOfText | src/bin/day02.rs:22-27 | for a written list of ranges, the text's answer is the sum over those ranges |
| Day02.InvalidIdSumExample | src/bin/day02.rs:108 | the test's ranges sum to 1227775554 |
| Day03.FirstMaxIn | src/bin/day03.rs:48-55 | the battery chosen lies inside the window |
| Day03.FirstMaxInIsFirstMax | src/bin/day03.rs:48-55 | it is a largest digit of the window, and no earlier digit is as large |
| Day03.MaxJoltage | src/bin/day03.rs:41-63 | the loop returns the specified choice of digits as a number, or panics on the assertion or an overflow |
| Day03.SelectIsSubsequence | src/bin/day03.rs:47-60 | the chosen digits are a subsequence of the bank at increasing positions |
| Day03.SelectIsMax | src/bin/day03.rs:47-60 | no other subsequence of the same length forms a larger number |
| Day03.JoltageIsMax | src/bin/day03.rs:41-63 | the joltage is the largest number that any `k` batteries in order form |
| Day03.JoltagePanics | src/bin/day03.rs:45 | it panics exactly when more batteries are asked for than there are, or the number does not fit a `u64`; up to 19 batteries always fit |
| Day03.BatteryFromChar | src/bin/day03.rs:72 | a character reads exactly when it is a decimal digit, and gives its value |
| Day03.BankFromStrReads | src/bin/day03.rs:69-76 | a line reads exactly when all its characters are digits, and the bank holds them in order |
| Day03.BankRoundTrip | src/bin/day03.rs:69-76 | reading a written bank gives it back |
| Day03.JoltageSumOutcome | src/bin/day03.rs:27-34 | the sum is of every line's joltage when all lines read and it fits; an error means some line is not all digits |
| Day04.HeightIsQuotient | src/bin/day04.rs:55-57 | the height is the tile count divided by the width |
| Day04.Index | src/bin/day04.rs:82-90 | with the corrected slot, indexing gives the tile at column `x` of row `y`, and panics exactly off the map |
| Day04.IndexAsWritten | src/bin/day04.rs:89 | as written, the slot is `x + y * height` |
| Day04.AsWrittenAgreesOnSquare | src/bin/day04.rs:89 | on a square map, the written slot agrees with the corrected one |
| Day04.AsWrittenMisreads | src/bin/day04.rs:89 | on a 3-by-2 map, the written slot reads the wrong tile |
| Day04.AsWrittenPanicsOnMap | src/bin/day04.rs:89 | on a 1-by-3 map, the written slot panics for a position on the map |
| Day04.NeighborPositionsExactly | src/bin/day04.rs:62-73 | the positions visited are exactly the on-map positions adjacent to `(x, y)` |
| Day04.NeighborPositionsDistinct | src/bin/day04.rs:67-73 | no position is visited twice |
| Day04.NeighborPositionsAtMostEight | src/bin/day04.rs:67-73 | at most eight positions are visited |
| Day04.Neighbors | src/bin/day04.rs:59-76 | the neighbour list holds the tiles of those positions, column by column |
| Day04.ColumnNeighbors | src/bin/day04.rs:68-72 | the inner loop adds the tiles of one column, skipping `(x, y)` |
| Day04.TestTile | src/bin/day04.rs:38-47 | a position counts exactly when it holds a roll with fewer than four rolls among its neighbours |
| Day04.MovableMeans | src/bin/day04.rs:38-47 | that test is the same as fewer than four adjacent roll positions |
| Day04.RollCountOfDistinct | src/bin/day04.rs:42-43 | counting the rolls among distinct positions counts the roll positions among them |
| Day04.CountBeforeIsCard | src/bin/day04.rs:36-50 | the running count is the number of qualifying positions visited so far |
| Day04.MovableRolls | src/bin/day04.rs:33-53 | the answer is the number of movable roll positions |
| Day04.MovableAreRolls | src/bin/day04.rs:33-53 | the movable positions are rolls, so there are no more of them than rolls |
| Day04.WarehouseFromStr | src/bin/day04.rs:96-117 | reading a map never panics |
| Day04.WarehouseFromStrReads | src/bin/day04.rs:96-117 | a map fails exactly for empty text or a tile count that is not a multiple of the first line's byte length; otherwise it keeps every tile with that width |
| Day04.RowsFillMap | src/bin/day04.rs:112-114 | a map that was read is filled by whole rows |
| Day04.GridRoundTrip | src/bin/day04.rs:96-117 | reading written rows of equal length gives their tiles and width |
| Day04.GridIndex | src/bin/day04.rs:82-90 | with the corrected slot, indexing a written map gives each row's tile, and panics outside it |
| Day05.UnionMembers | src/bin/day05.rs:62 | an id is covered exactly when some range contains it |
| Day05.UnionOfPermutation | src/bin/day05.rs:69-71 | reordering the ranges does not change the ids they cover |
| Day05.FreshCountPositions | src/bin/day05.rs:59-64 | the count is the number of list positions holding a fresh id |
| Day05.FreshIngredientsCounts | src/bin/day05.rs:59-64 | the answer counts the listed ids, with repeats, that some range covers |
| Day05.InsertByStartSorted | src/bin/day05.rs:70 | inserting into ranges sorted by start keeps them sorted |
| Day05.SortByStartSorted | src/bin/day05.rs:70 | the sorted ranges are in order of start, and they are a permutation of the input |
| Day05.RangeSize | src/bin/day05.rs:93 | a range's size is `end - start + 1`; a reversed range panics |
| Day05.MergeRange | src/bin/day05.rs:74-88 | one step of the merge keeps the covered ids and keeps the merged ranges separated |
| Day05.MergeSorted | src/bin/day05.rs:73-89 | merging sorted ranges keeps the covered ids; for well-formed ranges the result is separated and increasing |
| Day05.IntervalSize | src/bin/day05.rs:93 | a range covers `end - start + 1` ids |
| Day05.SeparatedSum | src/bin/day05.rs:91-94 | for separated ranges, summing the sizes gives the number of covered ids, or panics when that number does not fit a `u64` |
| Day05.PossibleFreshIngredients | src/bin/day05.rs:66-95 | for well-formed ranges, the answer is the number of distinct ids they cover |
| Day05.TryFromLines | src/bin/day05.rs:32-57 | the loop returns what the specification of the reading gives |
| Day05.ReadDatabase | src/bin/day05.rs:38-54 | the flag-driven loop reads ranges up to the first blank line and ids after it, skipping later blank lines |
| Day05.DatabaseRead | src/bin/day05.rs:38-56 | when every line before the first blank reads as a range and every later non-blank line as an id, the database holds them in order |
| Day05.RangeLineFails | src/bin/day05.rs:45-49 | a line before the first blank that is not a range makes the read fail |
| Day05.IdLineFails | src/bin/day05.rs:52 | a non-blank line after the first blank that is not an id makes the read fail |
| Day05.RangeLineReads | src/bin/day05.rs:45-46 | a written range line reads back as the range |
| Day05.DatabaseRoundTrip | src/bin/day05.rs:32-57 | reading a written database gives it back |
| Day05.ExampleFreshIngredients | src/bin/day05.rs:119-126 | the test database has 3 fresh ids |
| Day05.ExampleCoveredCount | src/bin/day05.rs:129-135 | the test's ranges cover 14 ids |
| Day06.ColumnSumValue | src/bin/day06.rs:37 | a column's sum is its value when it fits a `u64`, and panics otherwise |
| Day06.ColumnProductValue | src/bin/day06.rs:38 | a column's product is its value when each running product fits a `u64`, and panics otherwise |
| Day06.ProductsFitWithoutZero | src/bin/day06.rs:38 | without a zero, the running products fit exactly when the whole product fits |
| Day06.OverflowBeforeZero | src/bin/day06.rs:38 | a running product can overflow before a later 0 brings it back down |
| Day06.ShortRowPanics | src/bin/day06.rs:37-38 | a row too short for the column panics at the index |
| Day06.ColumnTotalValue | src/bin/day06.rs:36-39 | a column's result is its operator applied to its numbers, or a panic when that overflows |
| Day06.GrandTotal | src/bin/day06.rs:32-44 | the loop returns the `u64` sum of the column results, or the panic that stops it |
| Day06.GrandTotalValue | src/bin/day06.rs:32-44 | the grand total is the sum of every column value, and panics exactly when a column or the sum does not fit |
| Day06.OperationReads | src/bin/day06.rs:96-102 | an operator reads exactly from `+` or `*`; anything else is an error |
| Day06.FromStr | src/bin/day06.rs:49-85 | it panics exactly on text with no line, and what it reads is rectangular |
| Day06.FromStrOutcome | src/bin/day06.rs:49-85 | it succeeds exactly when the last line reads as operators, the other lines as rows, and the rows and operators form a rectangle; otherwise it is an error |
| Day06.RowReads | src/bin/day06.rs:59-64 | a written row reads back as the row |
| Day06.OperationsRead | src/bin/day06.rs:52-57 | a written operator line reads back as the operators |
| Day06.HomeworkRoundTrip | src/bin/day06.rs:49-85 | reading a written worksheet gives it back |
| Day06.ExampleGrandTotal | src/bin/day06.rs:118-124 | the test worksheet's grand total is 4277556 |
| Day10.PressTwiceCancels | src/bin/day10.rs:52 | pressing a button twice has no effect |
| Day10.WithinSound | src/bin/day10.rs:51-56 | a state within `k` search layers is shown by at most `k` presses of the buttons |
| Day10.WithinComplete | src/bin/day10.rs:51-56 | every state shown by at most `k` presses is within `k` layers |
| Day10.Compare | src/bin/day10.rs:130-135 | an entry is greater exactly when it has fewer presses, so the heap pops the fewest presses first |
| Day10.FoundIsFewest | src/bin/day10.rs:44-49 | the first popped entry at the target has the fewest presses that show it |
| Day10.ExhaustedMeansNoPath | src/bin/day10.rs:58-61 | when the queue runs empty, no presses show the target |
| Day10.PushNeighbours | src/bin/day10.rs:51-57 | the loop queues the neighbours whose slots are empty, keeping the search invariant; it meets the state without a slot only when that state can be shown |
| Day10.ShortestButtonSequence | src/bin/day10.rs:38-62 | the search returns the fewest presses that show the pattern; it panics on running dry only when none do, and by indexing past the table only when the unslotted state is reachable |
| Day10.IndicatorLightsFromStr | src/bin/day10.rs:64-76 | a diagram reads exactly when it is bracketed `.` and `#`, and light `i` is on exactly when character `i` is `#` |
| Day10.WithLight | src/bin/day10.rs:86 | adding a light keeps the lights that were on and turns that one on |
| Day10.ButtonMaskLights | src/bin/day10.rs:84-88 | a button's lights are exactly the positions it lists |
| Day10.ButtonMaskFailure | src/bin/day10.rs:84-88 | an unreadable position or a position from 16 up makes the button fail as the first such entry does |
| Day10.ButtonLights | src/bin/day10.rs:78-89 | a button reads exactly when it is parenthesised and every comma piece is a light position, and its lights are those positions |
| Day10.MachineFromStrCases | src/bin/day10.rs:95-115 | no words or a bad diagram is an error, a lone diagram panics at the `expect`, and otherwise the buttons between the first and last word are read in order |
| Day10.DiagramRoundTrip | src/bin/day10.rs:64-76 | reading a written diagram turns on exactly its `#` lights |
| Day10.ButtonRoundTrip | src/bin/day10.rs:78-89 | reading a written button turns on exactly its listed lights |
| Day10.MachineRoundTrip | src/bin/day10.rs:95-115 | reading a written machine gives its pattern and its buttons in order |
| Day10.FewestPressesUnique | src/bin/day10.rs:38-62 | the fewest presses of a machine are unique |
| Day10.NoSlotNeedsHighLight | src/bin/day10.rs:54 | when no button touches light 15, the state without a slot cannot be reached |
| Day10.SumFewest | src/bin/day10.rs:28-29 | the sum is of every machine's fewest presses; otherwise it is the first failure among the lines, or a panic for a machine the search fails on |
| Day10.MinButtonPressesToConfigure | src/bin/day10.rs:24-30 | the answer for the input's lines carries those same outcomes, and is reached when every machine can be configured |
| Day10.DiagramExample | src/bin/day10.rs:152 | the diagram `[.##.]` reads as lights 1 and 2 |
| Day10.FirstTestFewest | src/bin/day10.rs:150-155 | the first test machine needs 2 presses |
| Day10.SecondTestFewest | src/bin/day10.rs:157-162 | the second test machine needs 3 presses |
| Day10.ThirdTestFewest | src/bin/day10.rs:164-169 | the third test machine needs 2 presses |

## Left out

- The `main` functions are not modelled. That covers the command-line
  arguments, opening and reading files, and `println!`: they are I/O.
- Reading through `BufRead` is not modelled. Each solver gets the input
  text, or its lines, as a value. So read errors cannot happen:
  - the `map_while(|r| r.ok())` of days 1, 3 and 10 never stops early;
  - the `line?` of day 5 never fails.
- Error values carry no message. `Box<dyn Error>` becomes `Err`.
- Strings are sequences of characters, not UTF-8 bytes. Byte lengths are
  modelled only where the code depends on them:
  - day 4's `str::len`;
  - day 1's `s[1..]`, which panics when the first character is more than
    one byte long.
- Day01.Apply, Day01.StopsPassword: the `u32` sum `position + distance`
  of a right turn is required to fit, or has no overflow outcome. Apply
  computes it unbounded. StopsPassword has it as a precondition rather
  than a panic outcome.
- Day01.PassesPassword: the same `u32` requirement applies. Left distances
  are also required to be below 2^31, because the code's `as i32` cast
  wraps larger ones, and that wrap is not modelled.
- Day01.StopsPassword and Day01.PassesPassword: both passwords are
  unbounded counts. An overflow of the `u32` password itself would need
  more than 2^32 landings on 0, and is not modelled.
- Day03 concrete banks: the banks of the unit tests are not restated. The
  general maximality property (Day03.JoltageIsMax) stands in for them.
- Day04 test map: the 10-by-10 map of the unit test, with its 13 movable
  rolls, is not restated.
- Day02.InvalidIds, Day02.InvalidIdsPanics, Day02.IdSum, Day02.InvalidIdSum:
  these use the corrected first half, 1 for any one-digit start (see
  Findings). As written, a start from 2 to 9 misses ids such as 11, and a
  start of 0 panics in `ilog10`. Day02.InvalidIdsAsWritten models that
  behaviour, but the sum is not restated on top of it.
- Day04.MovableRolls: the model uses the corrected slot (see Findings). On
  a non-square map the code as written can read the wrong tile or panic.
- Day04.Neighbors: requires a map at least one tile wide and one row high.
  The code calls it only for positions on the map.
- Day04: `usize` arithmetic on coordinates is unbounded in the model.
- Day05.PossibleFreshIngredients: the covered-id count is stated only for
  well-formed ranges, where start is at most end. Reversed ranges are
  still merged as the code merges them. One whose start lies inside the
  previous merged range is absorbed; ranges `4-10` and `5-3` give 7. One
  that is pushed on its own panics at the size subtraction.
- Day05.MergeSorted: separation of the result is likewise stated only for
  well-formed ranges.
- Day05 sort: `sort_by_key` is modelled by a stable insertion sort on
  start. The model proves it sorts and permutes; it does not model Rust's
  merge sort.
- Day05 text: the two unit tests are stated on the database value. The
  text round trip is proved separately (Day05.DatabaseRoundTrip).
- Day06 test text: the unit test's worksheet is stated on its value. Its
  column-aligned text, with runs of several spaces, is not restated.
- Day10 heap: `BinaryHeap` is modelled as a sequence from which any entry
  with the fewest presses is popped. Ties between such entries are broken
  arbitrarily rather than by the heap's layout. When a press count is
  returned, it does not depend on the tie-break. Whether the search first
  reaches the all-on state 0xFFFF, which has no slot in the distance table,
  and panics does depend on it. For the machine `[#] (1,2,...,15) (0)`,
  the code's heap pops the state of the first button first and panics;
  with the two buttons swapped it returns 1. The model allows either
  outcome whenever 0xFFFF is reachable.
- Day10 `1 << p`: `1 << p` with `p` of 16 or more is modelled as a panic,
  the debug-build behaviour. A release build masks the shift amount
  instead.
- Day10: `entry.presses + 1` and the `usize` sum over machines are
  unbounded in the model.
- Day10 test machines: Day10.FirstTestFewest, Day10.SecondTestFewest and
  Day10.ThirdTestFewest state the unit tests on the machines' light masks.
  The test lines are not restated as text. Reading written machines is
  proved separately (Day10.MachineRoundTrip and Day10.DiagramExample).
- Day10: the joltage component of a machine is ignored, as the code
  ignores it.

## Findings

| source | as written | input that shows it | evidently intended | confidence | as-written member | corrected member |
|---|---|---|---|---|---|---|
| src/bin/day02.rs:38-40 | a one-digit start is used as the first half itself, so the search begins at `start` written twice; a start of 0 panics in `ilog10` | range `2-11`: the search starts at 22 and reports nothing, yet 11 is an invalid id in the range | begin with half 1 for any one-digit start | not executed | Day02.InvalidIdsAsWritten, Day02.AsWrittenSkipsEleven, Day02.AsWrittenExample | Day02.InvalidIdsOf, Day02.InvalidIdsExactly |
| src/bin/day04.rs:89 | the tile of `(x, y)` is taken from slot `x + y * height` | a map 3 wide and 2 high: `(0, 1)` reads slot 2 instead of slot 3; a map 1 wide and 3 high: `(0, 2)` indexes slot 6 of 3 and panics | slot `x + y * width` | not executed | Day04.IndexAsWritten, Day04.AsWrittenMisreads, Day04.AsWrittenPanicsOnMap | Day04.Index, Day04.GridIndex |
