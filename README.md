# Advent of Code 2025 solvers, modelled in Dafny

This project models the puzzle logic of seven Rust solvers from an Advent of Code
2025 repository, and proves what that logic computes.

- **Dial solvers** (`day_one`, `day01`). A dial with marks 0 to 99 starts at 50 and
  is turned left or right by a number of clicks.
  - `day_one` counts the moves that leave the dial on 0.
  - `day01` counts every click that lands on 0.
  - Both are proved against a click-by-click reference turn (module `Dial`).
- **Product-id ranges** (`day02`). Comma-separated `a-b` ranges are parsed. An id
  whose decimal spelling is one block written twice (`6464`) is invalid, and the
  invalid ids in all ranges are summed.
- **Battery banks** (`day03`). Each line's joltage is the largest two-digit number
  formed by two of its digits in order. The scan is proved optimal.
- **Paper-roll grid** (`day04`).
  - A roll is reachable when fewer than four of its eight neighbours hold rolls.
  - Reachable rolls are counted, then cleared in rounds until none is left.
  - The grid is an `array` of rows that the removal updates in place.
- **Fresh-ingredient ranges** (`day05`).
  - Lines `a-b` become closed ranges.
  - The ranges are sorted, and overlapping or touching neighbours are merged.
  - Ids are looked up by binary search.
- **Worksheet arithmetic** (`day06`). Each line is split into numbers and `+`/`*`
  operators. Each column is summed or multiplied as its last-row operator says,
  and the column results are added up.

Shared modules:

- `Wrappers`: `Option` and `Result`.
- `Text`: the Rust standard-library string behaviour the solvers rely on.
  - Decimal spelling.
  - `parse::<u64>`.
  - `trim`.
  - `split_once`, `split`, `split_whitespace` and `lines`.
- `Interval`: `RangeInclusive`.

Strings are `seq<char>`. All integers are unbounded, so the source's `u8`, `u32`,
`i32`, `u64` and `usize` limits appear only as explicit bounds (`U64_MAX`) or
under "Left out".

Where the source panics, the model usually turns that case into a precondition.
Examples: `unwrap` on a parse, an `assert!`, or an index out of bounds. The
exception is `day05`'s underflow, which is modelled as a panic and listed under
Findings. Where the source returns `None` or `Err`, the model returns `None` or
`Err` too.

## Model

| member | source | states |
|---|---|---|
| Dial.TurnRightClosedForm | day01/src/main.rs:28-38 | Turning right click by click from `p` stops at `(p + steps) mod 100` and lands on 0 exactly `(p + steps) div 100` times. |
| Dial.TurnLeftClosedForm | day01/src/main.rs:41-61 | Turning left click by click stops at the Euclidean `(p - steps) mod 100`. It lands on 0 `steps div 100` times from 0; otherwise 0 times when `steps < p`, and `(steps - p) div 100 + 1` times when not. |
| DayOne.DialRight | day_one/src/main.rs:20-26 | `dial_right` keeps the dial within 0..=99. |
| DayOne.DialLeft | day_one/src/main.rs:29-35 | `dial_left` keeps the dial within 0..=99, taking the Euclidean remainder of a possibly negative difference. |
| DayOne.DialRightFollowsClicks | day_one/src/main.rs:20-26 | `dial_right` stops where `steps` single clicks to the right stop. |
| DayOne.DialLeftFollowsClicks | day_one/src/main.rs:29-35 | `dial_left` stops where `steps` single clicks to the left stop. |
| DayOne.NewDialPosition | day_one/src/main.rs:13-18 | `new_dial_position` moves the dial exactly as the click-by-click reference does, in both directions. |
| DayOne.WholeTurnsChangeNothing | day_one/src/main.rs:20-35 | Adding any number of whole turns (100 clicks each) to a move, left or right, leaves the dial where it would have stopped anyway. |
| DayOne.LeftUndoesRight | day_one/src/main.rs:20-35 | Turning left by `n` undoes turning right by `n`, and the other way round. |
| DayOne.DialExamples | day_one/src/main.rs:81-229 | The unit tests of `dial_left` and `dial_right`, e.g. 50 left 598 gives 52, 50 right 251 gives 1 and 50 right 258 gives 8. |
| DayOne.StopsAtZero | day_one/src/main.rs:54-72 | The count of moves ending on 0 is at most the number of moves. |
| DayOne.CountZeroStops | day_one/src/main.rs:54-72 | The loop of `main`, starting at 50, returns the number of moves after which the click-by-click dial rests on 0, and at most one per move. |
| Day01.DialRight | day01/src/main.rs:28-38 | `dial_right` keeps the dial within 0..=99. |
| Day01.DialLeft | day01/src/main.rs:41-61 | `dial_left` keeps the dial within 0..=99. |
| Day01.DialRightCountsClicks | day01/src/main.rs:28-38 | `dial_right` stops where the clicks stop, and its zero count is exactly the number of clicks that land on 0. |
| Day01.DialLeftCountsClicks | day01/src/main.rs:41-61 | `dial_left` stops where the clicks stop. Its zero count, including the correction for a start at 0, is exactly the number of clicks that land on 0. |
| Day01.NewDialPosition | day01/src/main.rs:18-26 | `new_dial_position` returns the click-by-click position and zero count of the move alone. The count carried in plays no part. |
| Day01.DialExamples | day01/src/main.rs:114-412 | The 22 distinct cases of the 25 unit tests of `dial_left` and `dial_right`, e.g. 50 left 598 gives (52, 6), 0 left 5 gives (95, 0) and 50 right 258 gives (8, 3). |
| Day01.ZerosLandedBound | day01/src/main.rs:83-105 | Over any moves, no more clicks land on 0 than there are clicks. |
| Day01.CountZerosCrossed | day01/src/main.rs:83-105 | The loop of `main`, starting at 50, returns the total number of clicks over all moves that land on 0. |
| Day02.Validate | day02/src/main.rs:25-40 | An id string is invalid exactly when it has at least two characters and its two halves are equal. The invalid result carries the parsed left half. |
| Day02.ValidateDecimal | day02/src/main.rs:25-40 | For every `u64` id, `validate` on its decimal spelling succeeds without a panic. It reports invalid exactly when the id is some `k ≥ 1` written twice (`k·10^digits(k) + k`), and then carries that `k`. |
| Day02.RepeatedDecimal | day02/src/main.rs:25-40 | The decimal spelling of `k` written twice is `k`'s spelling twice. |
| Day02.ValidateDoubled | day02/src/main.rs:25-40 | Any non-empty string that parses as a `u64`, written twice, is invalid and carries that `u64`. |
| Day02.ValidateUnequalHalves | day02/src/main.rs:25-40 | A string made of two different halves of equal length is valid. |
| Day02.ValidateTwoDigitExample | day02/src/main.rs:84-89 | `55` is invalid with number 5. |
| Day02.ValidateFourDigitExample | day02/src/main.rs:112-117 | `6464` is invalid with number 64. |
| Day02.ValidateSixDigitExample | day02/src/main.rs:119-124 | `123123` is invalid with number 123. |
| Day02.ValidateValidExamples | day02/src/main.rs:91-110 | `12`, `1`, the empty string, `101`, `16464`, `64641` and `64164` are valid (the last four are the source's unit tests at lines 126-154). |
| Day02.RangeFromString | day02/src/main.rs:42-47 | A parsed range has both bounds within `u64`. |
| Day02.RangeFromStringOfFormat | day02/src/main.rs:42-47 | `range_from_string` reads back any `u64` range written as `start-end`. |
| Day02.RangeFromStringExample | day02/src/main.rs:156-163 | `11-25` parses to `11..=25`. |
| Day02.RangesFromString | day02/src/main.rs:49-51 | One range per comma-separated piece, and at least one. |
| Day02.RangesFromStringOfJoin | day02/src/main.rs:49-51 | `ranges_from_string` reads back any non-empty list of `u64` ranges joined with commas, in order. |
| Day02.RangesFromStringExample | day02/src/main.rs:165-175 | `11-22,95-115,998-1012` parses to those three ranges, in order. |
| Day02.InvalidValue | day02/src/main.rs:56-59 | Each id contributes either 0 or itself. |
| Day02.InvalidValueIsRepeated | day02/src/main.rs:56-59 | An id contributes itself exactly when it is some number written twice, and 0 otherwise. |
| Day02.AddInvalidRange | day02/src/main.rs:53-62 | Sums `InvalidValue` over every id of `lo..=hi`: 0 for an empty range, and at least `lo` once any id is invalid. |
| Day02.AddInvalidRanges | day02/src/main.rs:53-62 | `add_invalid_ranges`: sums every range's `AddInvalidRange`, in order, and the total is at least each range's sum. |
| Day02.AddInvalidRangeIsRepeatedSum | day02/src/main.rs:53-62 | Over one range, the sum is the sum of the ids in it that are a block written twice. |
| Day02.AddInvalidRangesIsRepeatedSum | day02/src/main.rs:53-62 | `add_invalid_ranges` is the sum, over all ranges, of the ids that are a block written twice. |
| Day02.AddInvalidRangeSplit | day02/src/main.rs:53-62 | Splitting a range in two splits its sum in two. |
| Day02.ThreeDigitIdsAreValid | day02/src/main.rs:25-40 | No three-digit id is invalid, so any range within 100..=999 adds nothing. |
| Day02.EvenDigitValue | day02/src/main.rs:25-40 | A two-digit id is invalid exactly when its tens digit equals its units digit; a four-digit id exactly when its upper two digits equal its lower two. |
| Day02.EvenDigitRange | day02/src/main.rs:53-62 | Within the two-digit or the four-digit ids, a range sums exactly its ids whose two halves are equal. |
| Day02.TwoDigitExample | day02/src/main.rs:177-182 | `11..=22` adds up to 33. |
| Day02.ThreeDigitExample | day02/src/main.rs:184-189 | `99..=115` adds up to 99. |
| Day02.FourDigitExample | day02/src/main.rs:191-196 | `998..=1012` adds up to 1010. |
| Day03.FindMaximumDigitAndPosition | day03/src/main.rs:12-33 | `None` exactly for the empty string. Otherwise: the largest digit, and the position of its first occurrence. |
| Day03.FindMaximumExamples | day03/src/main.rs:73-99 | `1`, `12`, `132` and `1324` give (1, 0), (2, 1), (3, 1) and (4, 3). |
| Day03.MaxDigitIsMax | day03/src/main.rs:12-33 | The reference maximum digit is attained and bounds every digit. |
| Day03.BestPairIsMax | day03/src/main.rs:35-50 | The reference joltage is attained by some ordered pair of digits and bounds every ordered pair. |
| Day03.BestPairUnique | day03/src/main.rs:35-50 | Any value attained by an ordered pair and bounding all of them is the reference joltage. |
| Day03.TurnTwoMaxDigitsIntoInteger | day03/src/main.rs:35-50 | The result is attained by an ordered pair of digits and is at least every ordered pair, i.e. it is the largest two-digit number in order. |
| Day03.BestPairShortExamples | day03/src/main.rs:101-156 | The short unit tests: `18` gives 18, `832` gives 83, and `11`, `12`, `21` give 11, 12, 21. |
| Day03.BestPairOfMaxima | day03/src/main.rs:35-50 | When `i` is the first occurrence of the largest digit and `j` holds the largest digit after it, the joltage is the pair at `i`, `j`. |
| Day03.BestPairOfLastMaximum | day03/src/main.rs:35-50 | When the largest digit occurs only last and `i` holds the largest digit before it, the joltage is the pair at `i` and the last position. |
| Day03.BestPairAlternating | day03/src/main.rs:158-163 | `2121212121` gives 22. |
| Day03.BestPairLastIsLargest | day03/src/main.rs:122-127 | `811111111111119` gives 89. |
| Day03.BestPairLargestInside | day03/src/main.rs:164-169 | `818181911112111` gives 92. |
| Day03.BestPairDescending | day03/src/main.rs:115-120 | `987654321111111` gives 98. |
| Day03.BestPairAtEnd | day03/src/main.rs:129-134 | `234234234234278` gives 78. |
| Day03.SumJoltages | day03/src/main.rs:58-72 | The loop of `main` skips blank lines and adds up the joltage of every bank. |
| Day04.EightNeighbours | day04/src/main.rs:93-123 | The neighbour count is at most 8. |
| Day04.WindowIsEightNeighbours | day04/src/main.rs:93-123 | The row-by-row window that the loops walk, clipped at the edges and skipping the centre, counts exactly the rolls at the eight offsets around the cell. |
| Day04.NumberOfAdjacentRollsOfPaper | day04/src/main.rs:93-123 | For a non-empty grid and a position inside it, returns the number of rolls among the eight neighbours (rows of any length), at most 8. |
| Day04.CanBeAccessed | day04/src/main.rs:88-91 | True exactly when the cell holds `@` and fewer than four neighbours do. |
| Day04.NumberOfRollsThatCanBeAccessed | day04/src/main.rs:41-59 | Returns the number of accessible rolls over every row and the first row's width. The grid is a value and is left as it is. |
| Day04.CollectAccessible | day04/src/main.rs:69-78 | The first loop collects exactly the accessible positions of the grid as it is, one entry per position, and its count is the number of accessible rolls and of collected entries. |
| Day04.NumberOfRollsThatCanBeAccessedAndRemoved | day04/src/main.rs:61-86 | Returns the accessible count of the grid on entry. Afterwards each accessible cell is `.`, every other cell is unchanged, and row count and row lengths are kept. |
| Day04.ClearCell | day04/src/main.rs:79-84 | `replace_range(col..col + 1, ".")` keeps the row's length and changes only that cell, to `.`. |
| Day04.RemoveAccessibleCount | day04/src/main.rs:61-86 | One round leaves the grid well formed, and the number of `@` cells drops by exactly the count it returns. |
| Day04.NothingAccessibleNothingRemoved | day04/src/main.rs:31-32 | A round that counts nothing leaves the grid unchanged. |
| Day04.Rounds | day04/src/main.rs:30-34 | Rounds of removal until one finds nothing end. The grid they leave has no accessible roll, and the sum of their counts is the number of rolls removed. |
| Day04.RemoveRollsUntilNoneAccessible | day04/src/main.rs:30-34 | The repeat loop of `main` terminates. It leaves exactly the grid that `Rounds` gives for the grid on entry and returns that sum, so its sum is the number of rolls removed and afterwards no roll is accessible. |
| Day04.FullSquareRounds | day04/src/main.rs:30-34 | On a full 4x4 square of rolls, the loop removes the four corners, then finds nothing. It sums to 4 and leaves 12 rolls. |
| Day04.FirstRowLeftExamples | day04/src/main.rs:153-167 | Neighbour counts 2, 4, 3 and accessibility of row 0, columns 0-2, of the sample grid. |
| Day04.FirstRowMiddleExamples | day04/src/main.rs:168-177 | Neighbour counts 3, 3 and accessibility of row 0, columns 3-4, of the sample grid. |
| Day04.FirstRowRightExamples | day04/src/main.rs:178-202 | Neighbour counts 3, 3, 4, 3, 3 and accessibility of row 0, columns 5-9, of the sample grid. |
| Day04.SecondRowExamples | day04/src/main.rs:204-218 | Neighbour counts 3, 6, 6 and accessibility of row 1, columns 0-2, of the sample grid. |
| Day04.CornerExample | day04/src/main.rs:220-227 | The bottom-right cell of the sample grid has 2 neighbours and, not being a roll, is not accessible. |
| Day04.SampleAccessibleCount | day04/src/main.rs:246-247 | 13 rolls of the sample grid are accessible. |
| Day04.SampleRemoval | day04/src/main.rs:250-281 | One round on the sample grid leaves the grid the unit test expects. |
| Day05.CompareRanges | day05/src/main.rs:46-60 | `Equal` exactly for equal ranges; `Less` and `Greater` exactly as the lexicographic order on (start, end). |
| Day05.CompareRangesIsTotalOrder | day05/src/main.rs:46-60 | The comparison is transitive and antisymmetric: a strict total order. |
| Day05.TurnIntoRange | day05/src/main.rs:62-72 | `None` for a line shorter than 3 characters or without `-`. A range is returned only when the trimmed line splits at its first `-` into two fields that each parse, trimmed, as a `u64`, and its bounds are those values; so a field that does not parse gives `None`. |
| Day05.TurnIntoRangeOfFormatted | day05/src/main.rs:62-72 | Reads back any `u64` range written `start-end` with any whitespace around the line and around each field. |
| Day05.TurnIntoRangeExamples | day05/src/main.rs:143-156 | `3-5` and `12-18` parse to `3..=5` and `12..=18`. |
| Day05.TurnIntoRangeOfFields | day05/src/main.rs:62-72 | A line made of two unpadded fields around a `-`, the first field holding no `-`, gives the range of the two parsed fields exactly when both parse as `u64`, and `None` otherwise. |
| Day05.TurnIntoRangeOfBadField | day05/src/main.rs:66-69 | A line of two unpadded fields around a `-`, the first field holding no `-`, gives `None` when either field is not a `u64`. |
| Day05.TurnIntoRangeRejectsLetterEnd | day05/src/main.rs:69 | `1-x` passes the length guard and gives `None`, because `x` is not a `u64`. |
| Day05.TurnIntoRangeRejectsLetterStart | day05/src/main.rs:68 | `a-5` gives `None`, because `a` is not a `u64`. |
| Day05.TurnIntoRangeRejectsNegativeEnd | day05/src/main.rs:66-69 | `1--2` splits at its first `-` and gives `None`, because `-2` is not a `u64`. |
| Day05.TurnIntoRangeRejects | day05/src/main.rs:157-177 | The empty line, a single space and `1-` give `None`. |
| Day05.MergeOverlappingRanges | day05/src/main.rs:79-92 | `Err` exactly when one range ends more than one below the other's start. For non-empty ranges, `Ok` is min start to max end and holds exactly the values of the two inputs. |
| Day05.MergeFailsExactlyOnGap | day05/src/main.rs:79-92 | For non-empty ranges, merging fails exactly when some value between them lies in neither. |
| Day05.MergeIsSymmetric | day05/src/main.rs:79-92 | For non-empty ranges, the merge does not depend on the order of its arguments. |
| Day05.MergeExamples | day05/src/main.rs:210-256 | The unit tests: overlapping, touching in both orders, and sharing an end merge; `1..=5` with `7..=8` is an error. |
| Day05.MergeOverlappingRangesAsWritten | day05/src/main.rs:83-89 | With the `u64` subtractions as written: when both starts are at least 1 it agrees with the merge above (otherwise see Findings). |
| Day05.MergeAsWrittenPanicsAtZero | day05/src/main.rs:83 | Two overlapping ranges starting at 0 make the code as written panic, where the merge gives `0..=5`. |
| Day05.Absorb | day05/src/main.rs:100-115 | One loop turn grows the kept list by at most one range and never leaves it empty. |
| Day05.Consolidate | day05/src/main.rs:98-117 | The output is never longer than the input and is non-empty for non-empty input. |
| Day05.AbsorbSorted | day05/src/main.rs:100-115 | Folding a sorted, non-empty range into a normalized list keeps it normalized and adds exactly that range's values. |
| Day05.ConsolidateSorted | day05/src/main.rs:98-117 | For sorted, non-empty ranges, the output is normalized (increasing, with a gap between neighbours) and holds exactly the input's values. |
| Day05.NormalizedUnique | day05/src/main.rs:98-117 | Two normalized lists holding the same values are equal. |
| Day05.ConsolidateIdempotent | day05/src/main.rs:98-117 | Removing overlaps from a normalized list changes nothing. |
| Day05.SortThenConsolidate | day05/src/main.rs:28-30 | For every ordering that `sort_by(compare_ranges)` may produce, the folded list is normalized, holds exactly the raw ranges' values, and is the same list. |
| Day05.ConsolidateStep | day05/src/main.rs:100-115 | Taking one more input range into the fold is one more turn of the loop body. |
| Day05.RemoveOverlappingRanges | day05/src/main.rs:98-117 | The loop computes the fold. It is never longer than its input, and for sorted non-empty input it is normalized with the same values. |
| Day05.ConsolidateExamples | day05/src/main.rs:260-302 | The unit tests of `remove_overlapping_ranges` other than case 2, e.g. `[1..=5, 5..=8, 5..=9, 8..=10]` gives `[1..=10]`. |
| Day05.ConsolidateGapExample | day05/src/main.rs:267-272 | `[1..=5, 8..=20]` comes back unchanged. |
| Day05.SortAndRemoveExample | day05/src/main.rs:304-311 | Any sort of `[5..=7, 1..=5, 9..=11, 5..=8]` folds into `[1..=11]`. |
| Day05.IntegerPositionMergedExamples | day05/src/main.rs:314-365 | On `[1..=11]`, the values 1, 11 and 2 are found in range 0. |
| Day05.IntegerPositionShortExamples | day05/src/main.rs:366-397 | Nothing is found in no range, and 3 is found in range 0 of `[1..=5]`. |
| Day05.IntegerPositionExamples | day05/src/main.rs:398-492 | On `[1..=5, 8..=15]`: 14 and 8 are in range 1, 5 is in range 0, and 20, 0 and 6 are in none. |
| Day05.NormalizedIsSortedDisjoint | day05/src/main.rs:125-137 | The fold's output meets the binary search's needs. |
| Day05.IntegerPosition | day05/src/main.rs:125-137 | On sorted disjoint ranges: `Some(i)` only when range `i` holds the value, and it is the only one that does. `None` exactly when no range holds it. |
| Day06.TokenItem | day06/src/main.rs:70-79 | A token is `Multiplication` exactly when it starts with `*` and `Addition` exactly when it starts with `+`. Any other token is the number it parses to. |
| Day06.ToVec | day06/src/main.rs:64-81 | An empty line gives no items; otherwise one item per whitespace-separated token, in order. |
| Day06.TokenItemOfRender | day06/src/main.rs:70-79 | An item written out (operator symbol or decimal `u64`) reads back as itself. |
| Day06.ToVecOfRendered | day06/src/main.rs:64-81 | `to_vec` reads back any items written with any whitespace before and between them. |
| Day06.ToVecOfVecs | day06/src/main.rs:60-62 | One row per line of the text, in order. |
| Day06.ToVecOfVecsOfTerminated | day06/src/main.rs:60-62 | A text of lines each ended by `\r\n` reads back as exactly those lines' rows, in order. |
| Day06.ToVecOfFour | day06/src/main.rs:64-81 | Four items written with whitespace before them and between them read back as exactly those four items. |
| Day06.ToVecNumbersExample | day06/src/main.rs:83-96 | `123 328    51 64` gives four numbers. |
| Day06.ToVecOperatorsExample | day06/src/main.rs:98-111 | `* +   *    +` gives four operators. |
| Day06.ColumnValueStep | day06/src/main.rs:40-53 | Each row folds its number into the column's result with the column's operator; an operator item is skipped. |
| Day06.TotalOfRows | day06/src/main.rs:27-57 | The two loops return the sum over all columns of the sum (from 0) or product (from 1) of the numbers above each column's operator. |
| Day06.GrandTotal | day06/src/main.rs:25-58 | `grand_total` of a text is that column sum over the text's rows. |
| Day06.SampleTextRows | day06/src/main.rs:115-152 | The sample text reads into the sample rows. |
| Day06.SampleSheetTotal | day06/src/main.rs:156-165 | The sample rows total 4277556 (33210 + 490 + 4243455 + 401). |
| Day06.SampleGrandTotal | day06/src/main.rs:156-165 | The grand total of the sample text is 4277556. |
| Text.ParseU64ToDecimal | day02/src/main.rs:43-45 | `parse::<u64>` reads back the decimal spelling of every `u64`. |
| Text.SplitJoin | day02/src/main.rs:49-51 | `split(',')` recovers pieces joined with `,` when no piece holds one. |
| Text.SplitWhitespaceSpaced | day06/src/main.rs:69 | `split_whitespace` recovers the tokens however much whitespace separates them. |
| Text.LinesOfTerminated | day06/src/main.rs:61 | `lines` recovers lines each ended by `\r\n`. |
| Text.TrimPadded | day05/src/main.rs:67-69 | `trim` removes exactly the whitespace padding around a string with non-whitespace ends. |

## Left out

- Reading files or stdin, `clap` argument parsing, and all printing. The loops of
  `main` are modelled over values already read: moves, lines and text.
- Parsing a move line (`R12`, `L5`) into a `DialDirection` in the dial solvers'
  `main`. The model starts from the parsed moves.
- The lookup-and-count loop of day05's `main` (reading ids from stdin). Its parts
  are modelled: `IntegerPosition` on the output of the sort-and-fold.
- `sort_by`: the model states any permutation sorted by `compare_ranges`
  (`SortThenConsolidate`) instead of the standard library's algorithm.
- `binary_search_by`: `IntegerPosition` is a binary search of its own that meets
  the same contract, not the standard library's probe order. On sorted disjoint
  ranges at most one index can match, so the result is the same.
- The unused stub `number_of_rolls_that_can_be_removed`, which returns 0.
- Day01.DialLeft: `steps as i32` wraps to a negative number for steps above
  `i32::MAX`. The model subtracts the unbounded step count instead.
- Day01.DialRight: the `u32` sum `position + steps` can overflow for steps near
  `u32::MAX`. The model adds unbounded integers.
- DayOne.DialLeft: the same `i32` cast as in day01 is not modelled.
- DayOne.DialRight: the same `u32` overflow as in day01 is not modelled.
- Day01.CountZerosCrossed: the running total in `main` is unbounded, not a
  wrapping integer.
- Day02.AddInvalidRanges: the `u64` sum is unbounded here, so overflow of `.sum()`
  is not modelled.
- Day02.TwoDigitExample, Day02.ThreeDigitExample and Day02.FourDigitExample are
  stated on the per-range sum `AddInvalidRange`, which `AddInvalidRanges` adds up
  over the one-range lists of those unit tests.
- Day02.RangesFromStringExample: the fourth range of that unit test
  (`1188511880-1188511890`) is left out of the stated example.
  `RangesFromStringOfJoin` covers it in general.
- Day03.FindMaximumDigitAndPosition requires every character to be an ASCII digit.
  The source subtracts `b'0'` from any byte.
- Day03.SumJoltages: the `u64` sum is unbounded here.
- Day06.TotalOfRows: `+=` and `*=` on `u64` can overflow. Column results and the
  total are unbounded here.
- Panicking parses are preconditions, not failure modes. Examples: `unwrap` of
  `parse` in `validate`, `range_from_string` and `to_vec`, and of `split_once` in
  `range_from_string`. `grand_total` with a missing operator or a short row is
  excluded by `IsSheet`.
- Day05: ranges whose start exceeds their end (from `"5-3"`) are excluded by
  `AllNonEmpty` in the merge and fold properties.
- Strings are sequences of characters, not UTF-8 bytes. Byte indexing in day03 and
  day04, `replace_range`, and day02's split of an id at `len() / 2` bytes are
  modelled on single-byte (ASCII) text. On text with a multi-byte character at that
  point, `split_at` panics where `Validate` splits by characters.
- Day05.RemoveOverlappingRanges folds with the corrected merge (see Findings). On
  sorted input where a range starting at 0 overlaps the next one, it merges where
  the code as written panics.
- `parse::<u64>` accepts a leading `+`, and that is modelled. In day06 such a token
  never reaches the parser, because a leading `+` makes it `Addition`.

## Findings

| source | as written | input that shows it | evidently intended | confidence | as-written member | corrected member |
|---|---|---|---|---|---|---|
| day05/src/main.rs:83-89 | `*range2.start() - 1` and `*range1.start() - 1` on `u64` underflow when a start is 0: a panic in a debug build, a wrapped `u64::MAX` in release | `merge_overlapping_ranges(&(0..=3), &(0..=5))`, e.g. from input lines `0-3` and `0-5` | merge to `0..=5`, i.e. test `end + 1 < start` | not executed | Day05.MergeAsWrittenPanicsAtZero | Day05.MergeFailsExactlyOnGap |
