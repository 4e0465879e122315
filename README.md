# advent_2025 in Dafny

A model of the eleven puzzle solvers of `advent_2025` (one Rust module per
day under `src/days/`), each proved against a specification of what its
answers mean. Every day is one Dafny module (`Day01` … `Day11`) in the
file of the same name. `Common` holds the shared vocabulary: `Option`,
`Result`, sums, and the parts of Rust's library the solvers call
(`str::split`, `str::trim`, integer `from_str`, `map`/`collect` as `MapAll`,
sorting by a key as `SortBy`). `Bits` characterises the `u32` bit operations
of day 10 bit by bit.

How the Rust code is carried over:

- A `resolve` function that reads lines becomes a `Resolve` method over a
  sequence of strings. It returns the pair of answers. Where the Rust code
  would panic (an `unwrap` on `None` or `Err`, an `assert!`, an index out of
  range, a `u8` subtraction that underflows), it either returns
  `None`/`Panicked`/`Panics`, or a `requires` of `Resolve` excludes that
  input. Each such `requires` is listed under "## Left out" with the panic it
  stands for.
- Loops that update variables are `while`/`for` loops with invariants. Each
  such method is proved equal to a recursive specification function, and
  lemmas prove what that function means.
- Iterator chains (`map`, `filter`, `fold`, `sum`, `min`) are functions.
- Data passed as `&mut` (a memo `HashMap`, a `Vec`) is passed in and returned
  as a new value. Rust's borrow rules rule out aliasing, so this is exact.
- Day 4's fixed-size grid, mutated in place, is an `array2<char>`.
- Day 7's scratch row of beam counts is an `array<nat>`.
- Constants chosen with `cfg!(test)` (grid size, sheet width, number of
  connections) are parameters.

Per day:

- Day 1: dial rotations. Part 1 counts rotations that end on 0. Part 2 counts every click on 0, and the closed form used by the source is proved equal to counting click by click.
- Day 2: invalid IDs, a block of digits repeated. The enumeration is proved to list, in increasing order, exactly the invalid IDs of a range. Part 2's union is proved free of duplicates.
- Day 3: the greedy choice of battery digits is proved to give the largest number that keeps the digits in order.
- Day 4: the set of forklift-accessible rolls. Repeated removal ends when no roll is accessible. Part 2 counts the removed rolls.
- Day 5: inserting and merging keeps the ranges sorted, disjoint and non-adjacent, and they cover exactly the union of the inputs. Part 2 counts the covered IDs.
- Day 6: the worksheet read by rows and by columns, with operator errors.
- Day 7: the beams fall row by row, following a per-row function. A splitter with room on both sides turns each of its timelines into two.
- Day 8: the circuits always partition the boxes. Connections merge circuits in order of distance.
- Day 9: the largest rectangle, and the largest one no border edge crosses. The border segments are searched by binary search.
- Day 10: part 1 is the smallest subset of buttons that gives the light pattern. Part 2 takes each subset whose presses match the parity of the joule counts, halves what is left, and returns the least `len + 2 * m` over those candidates, where `m` is the cost of the halved counts.
- Day 11: path counts with a memo that breaks cycles. On an acyclic graph they equal the number of paths.

## Model

| member | source | states |
|---|---|---|
| Day01.PositionJump | src/days/day01.rs:17-23 | turning the dial notch by notch `k` times lands where one jump of `k` reduced Euclidean modulo 100 lands |
| Day01.HitsClosedForm | src/days/day01.rs:23-32 | `div.abs()` plus the two corrections for `L` moves (ending on 0, starting on 0) equals the number of single notches that stop on 0 |
| Day01.TurnCounts | src/days/day01.rs:11-35 | one line: the new dial is where the notches end and lies in `0..100`; part-1 increment is 1 exactly when it reads 0; part-2 increment counts the notches landing on 0 |
| Day01.RunCounts | src/days/day01.rs:9-36 | after any number of lines from dial 50, the dial is in `0..100`, part 1 counts the lines that end on 0 and part 2 counts every notch that lands on 0 |
| Day01.Resolve | src/days/day01.rs:5-39 | the pair returned is (rotations ending on 0, notches landing on 0) over all lines |
| Day02.RepeatMono | src/days/day02.rs:20 | the repeated-block number grows strictly with the block for a fixed shift and count |
| Day02.RepOfWidth | src/days/day02.rs:20 | an invalid ID has `split` times as many digits as its block |
| Day02.RepOfMono | src/days/day02.rs:20 | invalid IDs grow strictly with their block, across block widths too (so the loop produces increasing values) |
| Day02.RepOfDecimal | src/days/day02.rs:20 | the decimal writing of the generated number is the block's decimal writing repeated `split` times |
| Day02.InvalidsMembers | src/days/day02.rs:19-36 | an ID is listed exactly when it comes from a block below the bound and lies in `[min, max]` |
| Day02.InvalidsIncreasing | src/days/day02.rs:19-36 | the listed IDs are strictly increasing |
| Day02.StopAt | src/days/day02.rs:22-24 | once the current block's ID exceeds `max`, no later block adds anything (the `break` loses nothing) |
| Day02.InvalidsSpec | src/days/day02.rs:3-39 | the full list holds exactly the IDs in `[min, max]` made of one block written `split` times |
| Day02.DivRepeatBlock | src/days/day02.rs:12 | dividing `min` by `mul` `split - 1` times leaves its leading block `d` with `d * mul^(split-1) <= min < (d+1) * mul^(split-1)` |
| Day02.StartDivisible | src/days/day02.rs:9-12 | when `split` divides the digit count of `min`, the start block is its leading `digits / split` digits and every smaller block gives an ID below `min` |
| Day02.StartRounded | src/days/day02.rs:13-17 | otherwise the start block is `10^(w-1)` for the rounded-up width `w` and every smaller block gives an ID below `min` |
| Day02.NextBlock | src/days/day02.rs:31-35 | after `value += 1`, `mul` is still 10 to the digit count of `value`: it grows tenfold exactly when `value` reaches it |
| Day02.StartBlock | src/days/day02.rs:9-17 | the start block and `mul == 10^w` as the two branches compute them, with no smaller block giving an ID in range |
| Day02.FindInvalid | src/days/day02.rs:3-39 | the loop returns exactly the specified list of invalid IDs in `[min, max]`, in increasing block order |
| Day02.FindInvalidExample1 | src/days/day02.rs:52-55 | `11..22` with two copies gives `[11, 22]` |
| Day02.FindInvalidExample2 | src/days/day02.rs:67-71 | `998..1012` with two copies gives `[1010]` |
| Day02.FindInvalidExample3 | src/days/day02.rs:88-95 | `1111110..1111112` with seven copies gives `[1111111]` |
| Day02.RepOfCompose | src/days/day02.rs:109 | an ID with `a * c` copies of a block is also `c` copies of the `a`-fold block |
| Day02.PrimeSplits | src/days/day02.rs:109-111 | an ID below `10^10` repeated at least twice is repeated 2, 3, 5 or 7 times, which is why those splits suffice |
| Day02.AddNewSpec | src/days/day02.rs:122-126 | the conditional pushes keep the accumulator as a prefix, hold exactly the old and new values, and add no duplicate |
| Day02.PushNew | src/days/day02.rs:122-126 | the `contains`/`push` loop computes that list |
| Day02.AllInvalidsSpec | src/days/day02.rs:117-128 | a range's part-2 list has no duplicate and holds exactly its IDs that are a block repeated 2, 3, 5 or 7 times |
| Day02.AllRepetitions | src/days/day02.rs:109-128 | below `10^10` the part-2 list is every ID in range made of a block repeated at least twice |
| Day02.RangeSums | src/days/day02.rs:113-130 | a range contributes the sum of its split-2 IDs to part 1 and the sum of its part-2 list to part 2 |
| Day02.DecimalValueDigits | src/days/day02.rs:113-114 | a digit string without a leading zero has a value with exactly its length in digits |
| Day02.RangeRepetitions | src/days/day02.rs:106-128 | for a well-formed range line, the part-2 list holds exactly the IDs between the two bounds made of a block repeated at least twice |
| Day02.ReadRange | src/days/day02.rs:106-130 | one range piece gives its two sums, or `None` exactly where splitting on `-` or the length assertions panic |
| Day02.TotalsStep | src/days/day02.rs:105-131 | each range adds its two sums to the running totals, and a panicking range makes the prefix panic |
| Day02.TotalsNone | src/days/day02.rs:105-131 | a panic in any prefix of the ranges makes the whole line panic |
| Day02.Resolve | src/days/day02.rs:98-134 | the loop over the ranges returns the specified totals, or `None` exactly where the source panics |
| Day03.MaxAtSpec | src/days/day03.rs:12-24 | the returned max is at least every element and the index is that of its first occurrence (every earlier element is smaller); an empty or all-zero slice gives `(0, 0)` |
| Day03.FindMax | src/days/day03.rs:12-24 | the loop with the strict `>` returns that first maximum |
| Day03.DigitsAtBound | src/days/day03.rs:34 | every picked byte less `'0'` is a single digit |
| Day03.DecimalBound | src/days/day03.rs:34 | a number built from `n` digits is below `10^n` |
| Day03.GreedySelection | src/days/day03.rs:30-35 | the greedy choice picks `n` positions, strictly increasing and from `start` on, so `start_index` never passes `len - k` |
| Day03.GreedyHead | src/days/day03.rs:31-33 | each pick is the first maximum of the window that leaves room for the remaining picks, and the next window starts just after it |
| Day03.GreedyOptimal | src/days/day03.rs:26-38 | no selection of `n` increasing positions from `start` makes a larger number than the greedy one |
| Day03.JoltageOptimal | src/days/day03.rs:26-38 | the joltage is the largest number formed by any `n` batteries kept in order |
| Day03.ResumeStep | src/days/day03.rs:30-35 | one loop iteration advances `start_index` past the chosen maximum and appends its digit |
| Day03.ResumeValue | src/days/day03.rs:30-35 | finishing the loop from a prefix `acc` gives `acc * 10^n` plus the greedy number of the remaining picks |
| Day03.FindJoltage | src/days/day03.rs:26-38 | the loop returns the greedy, hence largest, `n`-digit joltage |
| Day03.PerBank | src/days/day03.rs:44-49 | one entry per line, each the two joltages of that bank (or the panic of a bank shorter than 12) |
| Day03.SumStep | src/days/day03.rs:44-49 | the fold adds each bank's two joltages and panics exactly when some bank panics |
| Day03.SumNone | src/days/day03.rs:44-49 | a panicking bank makes the whole fold panic |
| Day03.AddBank | src/days/day03.rs:48 | a bank gives `find_joltage(bank, 2)` and `find_joltage(bank, 12)`, or fails where the slice would panic |
| Day03.Resolve | src/days/day03.rs:40-50 | the sums over all banks of the 2-battery and 12-battery joltages |
| Day04.OffsetsAreNeighbours | src/days/day04.rs:17-26 | the eight offsets are distinct and are exactly the non-zero moves of at most one step in each direction |
| Day04.ScanRowSpec | src/days/day04.rs:10-42 | one row lists exactly the removable `@` cells left of `x`, in order |
| Day04.ScanRowsSpec | src/days/day04.rs:9-43 | the rows above `y` list exactly their removable cells, in row-major order |
| Day04.ScanSpec | src/days/day04.rs:6-46 | the forklift list holds exactly the `@` cells with fewer than 4 `@` among their in-grid neighbours, in row-major order |
| Day04.Adjacents | src/days/day04.rs:15-37 | the offset loop counts the `@` neighbours inside the grid, skipping (never reading) those outside |
| Day04.Forklift | src/days/day04.rs:6-46 | the nested loops return the forklift list of the grid, which they leave unchanged |
| Day04.RowCountUpdate | src/days/day04.rs:66 | overwriting one cell changes a row's `@` count by that cell only |
| Day04.CountUpdate | src/days/day04.rs:66 | replacing one row changes the grid's `@` count by that row's change |
| Day04.Clear | src/days/day04.rs:66 | clearing a cell writes `.` there and changes no other cell |
| Day04.ClearCount | src/days/day04.rs:66 | clearing a cell removes one roll exactly when it held `@` |
| Day04.Cleared | src/days/day04.rs:65-67 | clearing a list of cells writes `.` on exactly those cells |
| Day04.ClearedCount | src/days/day04.rs:65-67 | clearing distinct `@` cells removes exactly as many rolls as cells |
| Day04.ScanRemovesRolls | src/days/day04.rs:62-67 | the forklift list holds distinct in-grid `@` cells, so a non-empty list strictly lowers the number of rolls |
| Day04.Settles | src/days/day04.rs:69-83 | repeating the removal reaches a grid with no removable roll, and the rolls removed plus the rolls left are the rolls at the start |
| Day04.Filled | src/days/day04.rs:52-60 | the parsed grid is square of the given size |
| Day04.Fill | src/days/day04.rs:52-60 | writing each byte of each line at `(x, y)` over a zeroed grid gives that grid |
| Day04.Remove | src/days/day04.rs:65-67 | the loop writes `.` on the listed cells and nothing else |
| Day04.Resolve | src/days/day04.rs:48-86 | part 1 is the size of the first forklift list, part 2 the total removed until none can be, and `p1 <= p2` |
| Day05.PushMerge | src/days/day05.rs:6-14 | when the last range reaches `range.0 - 1`, only the last element changes, its end becoming the larger of the two ends; otherwise `range` is appended and nothing else changes |
| Day05.PushMergeCanonical | src/days/day05.rs:6-14 | pushing a range that starts no earlier than the last one keeps the list sorted, disjoint and non-adjacent |
| Day05.PushMergeCovers | src/days/day05.rs:6-14 | after the push the list covers exactly what it covered plus the pushed range |
| Day05.PushMergeKeeps | src/days/day05.rs:6-14 | the push keeps every element but the last, and the last one's start |
| Day05.FirstAbove | src/days/day05.rs:43 | the position found is the first whose start exceeds `range.0`, or the length when there is none |
| Day05.AddAndMerge | src/days/day05.rs:41-58 | the method (prefix copy, push of `range`, pushes of the rest) computes the specified merge |
| Day05.PushAllCanonical | src/days/day05.rs:49-51 | pushing a run of ranges with increasing starts keeps the list canonical |
| Day05.PushAllCovers | src/days/day05.rs:49-51 | and the result covers exactly the union of the list and the run |
| Day05.MergeCanonical | src/days/day05.rs:41-58 | merging a non-empty range into a sorted, disjoint, non-adjacent list gives such a list |
| Day05.MergeCovers | src/days/day05.rs:41-58 | the merged list covers exactly the old list's IDs plus the range's |
| Day05.MergeKeepsPrefix | src/days/day05.rs:43-46 | the ranges before the insertion point, but the last of them, are copied unchanged |
| Day05.CanonicalUnique | src/days/day05.rs:37-58 | two canonical lists covering the same IDs are equal |
| Day05.MergeCovered | src/days/day05.rs:41-58 | merging a range the list already covers leaves the list unchanged |
| Day05.MergeIdempotent | src/days/day05.rs:41-58 | merging the same range twice is merging it once |
| Day05.PushMergeExamples | src/days/day05.rs:16-35 | the four pushes of `check_push_merge` give the lists it expects |
| Day05.MergeExamples | src/days/day05.rs:60-78 | `(0,2)` plus `(3,4)` gives `[(0,4)]` and `(6,8)` goes between `(0,4)` and `(10,12)` |
| Day05.TotalLengthCounts | src/days/day05.rs:127-129 | for a canonical list the sum of `last - first + 1` is the number of IDs covered |
| Day05.StepRanges | src/days/day05.rs:102-125 | a line keeps the ranges canonical; an empty line ends the range block; a range line adds exactly its IDs |
| Day05.RunRanges | src/days/day05.rs:98-125 | after any lines the ranges are canonical and cover exactly the IDs of the range lines before the first empty line |
| Day05.ReadLine | src/days/day05.rs:103-124 | the loop body computes one step: empty line, merged range, or an ID counted when some range contains it; `None` where an `unwrap` or index panics |
| Day05.SumLengths | src/days/day05.rs:127-129 | the fold adds `last - first + 1` over the ranges |
| Day05.Resolve | src/days/day05.rs:94-132 | the pair (IDs contained in some range, total length of the merged ranges), or `None` where the source panics |
| Day05.RunNone | src/days/day05.rs:102-125 | a panic on some line makes the whole run panic |
| Day06.Unspaced | src/days/day06.rs:29 | the filtered operand holds only bytes of the original and no space |
| Day06.NumberIsDecimal | src/days/day06.rs:26-31 | the space-skipping fold of a row slice is the decimal value of its digits read left to right |
| Day06.ColumnOk | src/days/day06.rs:34-37 | every column read in a problem lies inside each number row and holds a digit or a space |
| Day06.RowNumbers | src/days/day06.rs:26-31 | part 1 has one operand per number row |
| Day06.Column | src/days/day06.rs:34-37 | a column is read from every number row, top to bottom |
| Day06.AllColumns | src/days/day06.rs:33-44 | one column value for each `x` of `[index, end)` |
| Day06.Nonzero | src/days/day06.rs:39-43 | `filter_map` drops every 0 and adds nothing |
| Day06.NonzeroSum | src/days/day06.rs:48-49 | dropping the zero columns does not change a sum |
| Day06.NonzeroProduct | src/days/day06.rs:52-53 | after dropping them a product of columns is never 0 |
| Day06.LastOperator | src/days/day06.rs:25 | `rposition` finds the rightmost non-space operator byte before `end`, and `None` exactly when all are spaces |
| Day06.Problem | src/days/day06.rs:46-56 | a problem panics exactly when its operator byte is neither `+` nor `*` |
| Day06.TotalsStep | src/days/day06.rs:25-59 | one scan step handles the problem at the rightmost operator and continues left of it (`end = index`) |
| Day06.TotalsFail | src/days/day06.rs:25-59 | the scan panics exactly when some rightmost-operator position holds a byte other than `+` and `*` |
| Day06.ScanStep | src/days/day06.rs:46-58 | adding one problem's sums to `p1`, `p2` and moving `end` keeps the scan on course to the totals |
| Day06.Worksheet | src/days/day06.rs:10-19 | the worksheet has exactly the fixed number of rows; when every line past them is empty, each line lies in its row and the lines past them are empty |
| Day06.BuildWorksheet | src/days/day06.rs:13-19 | pushing every byte of line `y` onto row `y` gives that worksheet; it fails exactly when a non-empty line lies past the fixed rows, where `worksheet[y]` panics |
| Day06.BlankLinesIgnored | src/days/day06.rs:13-19 | empty lines at the end of the input, such as a closing blank line, change neither the worksheet nor the answer |
| Day06.Solve | src/days/day06.rs:26-56 | the method computes one problem's sum or product of the row operands and of the non-zero column operands |
| Day06.Resolve | src/days/day06.rs:6-62 | the while-let scan returns the totals over all problems; it panics exactly on a non-empty line past the fixed rows, an operator row shorter than the width (`operations[..end]`), or an unknown operator |
| Day07.ScatteredInto | src/days/day07.rs:21-37 | after the loop has visited the first `i` columns, `tmp[j]` holds exactly the timelines arriving in `j` from those columns: straight down unless `j` is a splitter, and from a splitter beside it unless `j` is one |
| Day07.ScatteredNext | src/days/day07.rs:19-39 | after all columns, `tmp` is the next row defined column by column |
| Day07.DepositSum | src/days/day07.rs:26-36 | handling one column adds to `tmp` exactly the timelines leaving that column |
| Day07.DepositOne | src/days/day07.rs:26-36 | a column whose timelines go one way adds them to that single cell of `tmp` |
| Day07.DepositTwo | src/days/day07.rs:27-32 | a splitter with both sides free adds its timelines to both neighbours |
| Day07.ScatteredSum | src/days/day07.rs:21-37 | the total in `tmp` is the timelines leaving the visited columns |
| Day07.Row | src/days/day07.rs:19-39 | one row: the new beams are the next row, `p1` grows by the columns carrying timelines onto a splitter, and the total is what leaves the row |
| Day07.NextSum | src/days/day07.rs:19-39 | the next row carries exactly the timelines leaving this one |
| Day07.TimelinesSplit | src/days/day07.rs:26-36 | when every splitter has room on both sides, each timeline meeting a splitter becomes two and none is lost |
| Day07.OutgoingSpread | src/days/day07.rs:26-36 | with such rows, the timelines leaving the first `i` columns are those in them plus those meeting a splitter |
| Day07.Initial | src/days/day07.rs:10-12 | the start has one timeline, in the middle column |
| Day07.Beams | src/days/day07.rs:14-40 | the beams keep the row width after every row |
| Day07.Resolve | src/days/day07.rs:5-43 | part 1 is the number of splitter hits over all rows and part 2 the sum of the final beams |
| Day08.DistanceProperties | src/days/day08.rs:14-18 | the squared distance is symmetric, never negative, and zero exactly for the same junction |
| Day08.Parse | src/days/day08.rs:27-48 | a line parses exactly when it has three comma-separated fields that each parse after trimming, and then gives those three coordinates; otherwise `ParseJunctionError` |
| Day08.RowPairsSpec | src/days/day08.rs:78-82 | the inner loop lists exactly the pairs `(i, j')` with `i < j' < j`, in order |
| Day08.PairsSpec | src/days/day08.rs:77-83 | the rows before `i` list exactly the pairs whose first junction is below `i`, in order |
| Day08.ConnectionsSpec | src/days/day08.rs:77-83 | the connections hold every pair `i < j` and none twice |
| Day08.Connections | src/days/day08.rs:74-83 | the nested loops build that list |
| Day08.BoxesCount | src/days/day08.rs:75 | the boxes `0..size` each occur once |
| Day08.SingletonsPartition | src/days/day08.rs:75 | the initial singleton circuits partition the boxes |
| Day08.Disjoint | src/days/day08.rs:87-106 | in a partition a box lies in one circuit only |
| Day08.Find | src/days/day08.rs:88-94 | `position` returns the first circuit from `from` on holding `i` or `j`, or `None` when none does |
| Day08.SwapRemove | src/days/day08.rs:98 | `swap_remove` leaves one circuit fewer |
| Day08.ElemsSwapRemove | src/days/day08.rs:98 | it removes exactly the boxes of the removed circuit |
| Day08.ConnectSpec | src/days/day08.rs:88-106 | on a partition a connection never panics; it changes nothing exactly when `i` and `j` share a circuit; it leaves a single circuit exactly when they are apart and there are two; otherwise it merges their circuits, keeping a partition with one circuit fewer |
| Day08.MergeSpec | src/days/day08.rs:96-105 | appending the swap-removed circuit to the first one found keeps a partition and puts `i` and `j` together |
| Day08.SizesSpec | src/days/day08.rs:109 | the snapshot sizes are positive and add up to the number of junctions |
| Day08.StepInv | src/days/day08.rs:87-110 | one connection keeps the circuits a partition and keeps any snapshot a list of positive sizes summing to the junction count |
| Day08.PlayInv | src/days/day08.rs:87-110 | the whole loop keeps that invariant |
| Day08.StepLinked | src/days/day08.rs:87-106 | after connection `n`, the junctions of every connection up to `n` share a circuit |
| Day08.PlayLinked | src/days/day08.rs:87-110 | if the loop runs out without stopping, the junctions of every connection share a circuit |
| Day08.Apart | src/days/day08.rs:87-110 | with every pair listed, two or more circuits cannot have every connection inside a circuit |
| Day08.AlwaysConnected | src/days/day08.rs:87-110 | with two or more junctions and every pair listed, the loop always ends by leaving a single circuit, so `p2` is set |
| Day08.Reverse | src/days/day08.rs:115 | `rev` keeps the sizes and reverses their order |
| Day08.ReverseDescending | src/days/day08.rs:113-115 | an ascending sort reversed is descending |
| Day08.LargestSpec | src/days/day08.rs:113-115 | the kept sizes are the three largest (fewer if there are fewer circuits), in descending order, taken from the snapshot, and no size left out exceeds a kept one |
| Day08.LargestPositive | src/days/day08.rs:115 | the product of the kept sizes is positive |
| Day08.SortedPairs | src/days/day08.rs:77-85 | the connections sorted by distance list every pair of junctions |
| Day08.SolvePanics | src/days/day08.rs:69-77 | `resolve` panics exactly on no lines or a line that fails to parse |
| Day08.FinalSpec | src/days/day08.rs:87-115 | the part-1 product is positive, and with two or more junctions the loop ends connected |
| Day08.ConnectBoxes | src/days/day08.rs:88-106 | the loop body: reports the single circuit left, leaves the circuits alone when `i` and `j` already share one, and otherwise merges them |
| Day08.Merge | src/days/day08.rs:87-111 | the loop over the sorted connections returns the specified snapshot and `p2` |
| Day08.Resolve | src/days/day08.rs:64-116 | `resolve` returns the specified outcome |
| Day09.SurfaceSpec | src/days/day09.rs:11-13 | the rectangle's tile count is the same from either corner, at least 1, and 1 exactly when the corners coincide |
| Day09.SurfaceExamples | src/days/day09.rs:20-29 | the four cases of `check_surface` |
| Day09.VectorSpec | src/days/day09.rs:15-17 | moving `a` by its vector to `b` reaches `b`, and the reverse vector is the opposite |
| Day09.Parse | src/days/day09.rs:37-48 | a line parses exactly when it has two comma-separated fields that each parse after trimming, and then gives those coordinates; otherwise `ParseTileError` |
| Day09.OverlapsSpec | src/days/day09.rs:73-87 | the two orientation tests say that the edge's span, whichever way it runs, meets `[u0, u1]` |
| Day09.Above | src/days/day09.rs:56 | the first position from `k` whose key exceeds the target |
| Day09.BinarySearchSpec | src/days/day09.rs:56 | on keys sorted ascending, `Ok(i)` gives a position holding the key, `Err(i)` the insertion point (smaller keys before, larger after), and `Ok` exactly when the key occurs |
| Day09.ScanSound | src/days/day09.rs:62-92 | the loop reports a crossing only for an edge from the start position on whose key lies in `[v0, v1]` and whose span meets `[u0, u1]` |
| Day09.ScanComplete | src/days/day09.rs:62-92 | from a position with no smaller key than `v0`, on sorted edges of more than one point, the loop neither spins nor panics and reports a crossing exactly when one lies ahead |
| Day09.AsWrittenSound | src/days/day09.rs:51-93 | the function as written never reports a crossing that is not there |
| Day09.AsWrittenMisses | src/days/day09.rs:56-60 | as written it misses the edge at the insertion point: one edge at key 5 spanning 0..10 crosses the rectangle 5..8 by 2..3, yet the result is false |
| Day09.IntersectSpec | src/days/day09.rs:51-93 | with the start at the insertion point, on sorted edges of more than one point, the result is true exactly when some edge has its key in `[v0, v1]` and meets `[u0, u1]`, and it never spins or panics |
| Day09.IsSegmentsIntersect | src/days/day09.rs:51-93 | the search and loop compute that verdict, including the spin on `v < v0` and the panic on a one-point edge |
| Day09.Modulo | src/days/day09.rs:107 | `(i + 1) % n` is the next index round the loop |
| Day09.PrevNext | src/days/day09.rs:104-130 | the incoming vector of the next corner is this corner's outgoing one |
| Day09.OutsideDiagonal | src/days/day09.rs:113-125 | at a right-angle corner the outside tile is one diagonal step from the red tile |
| Day09.RotationBound | src/days/day09.rs:111 | the rotation after `k` corners lies within `[-k, k]` |
| Day09.Turns | src/days/day09.rs:104-130 | the first loop returns every corner's outside tile and the sum of the turn signs |
| Day09.SidesDiagonal | src/days/day09.rs:138-156 | the edge loop panics exactly when some edge between consecutive outside tiles is neither vertical nor horizontal |
| Day09.SidesListed | src/days/day09.rs:138-156 | otherwise every edge is listed once, as a vertical `(x, (y0, y1))` or a horizontal `(y, (x0, x1))` |
| Day09.Borders | src/days/day09.rs:136-156 | the loop builds those two lists or reports the diagonal |
| Day09.ConsiderClean | src/days/day09.rs:167-185 | one pair: `p1` becomes the larger of it and the surface; `p2` is kept or becomes a surface above it whose rectangle is clean, and a clean rectangle always leaves `p2` at least its surface |
| Day09.ConsiderStep | src/days/day09.rs:167-185 | handling pair `(i, j)` keeps `p1` the largest surface and `p2` the largest clean surface over the pairs handled |
| Day09.RowBest | src/days/day09.rs:166-186 | the inner loop keeps that invariant to the end of the row |
| Day09.NextRow | src/days/day09.rs:165-187 | a finished row leaves the invariant ready for the next |
| Day09.RowsBest | src/days/day09.rs:165-187 | the outer loop ends with the invariant over all pairs |
| Day09.PairsBest | src/days/day09.rs:165-189 | when the loops finish, `p1` is the largest surface of any two red tiles and `p2 <= p1` the largest whose rectangle is clean (0 for none) |
| Day09.ProperPermutation | src/days/day09.rs:158-159 | sorting keeps the edges free of one-point edges |
| Day09.ConsiderAnswer | src/days/day09.rs:173-182 | on sorted edges of more than one point no pair spins or panics |
| Day09.RowsAnswer | src/days/day09.rs:165-187 | so the loops run to the end |
| Day09.CleanSpec | src/days/day09.rs:173-182 | a rectangle is clean exactly when no vertical edge within its columns meets its rows and no horizontal edge within its rows meets its columns |
| Day09.SolveSpec | src/days/day09.rs:95-190 | `resolve` panics on a bad line, no tile, a rotation other than 4 or a diagonal edge; otherwise, with no one-point edge, it returns the largest surface and the largest clean surface |
| Day09.Rectangle | src/days/day09.rs:167-185 | the inner-loop body computes one pair's step, including the two `continue`s |
| Day09.Pairs | src/days/day09.rs:165-189 | the nested loops compute the specified fold over all pairs |
| Day09.Resolve | src/days/day09.rs:95-190 | `resolve` returns the specified outcome |
| Day10.Digits | src/days/day10.rs:29-40 | the lights read from a button token are single digits |
| Day10.MaskOfBits | src/days/day10.rs:35-36 | bit `i` of the mask is set exactly when light `i` is listed |
| Day10.MaskOfSnoc | src/days/day10.rs:35-36 | adding a light ORs `1 << d` into the mask |
| Day10.ScanLights | src/days/day10.rs:26-42 | the loop succeeds exactly when every inner byte is a comma or a digit, and then `leds` lists the digits in order and `mask` is the OR of their bits |
| Day10.ValidInnerSnoc | src/days/day10.rs:29-39 | each byte is accepted exactly when it is a comma or a digit, and a rejected byte makes the whole token fail |
| Day10.ParseButton | src/days/day10.rs:18-43 | `from_str` fails when the token does not start with `(` and end with `)`, and otherwise is the scan of the inner bytes |
| Day10.ExampleDigits | src/days/day10.rs:48-55 | `1,2,3,5` lists the lights `[1, 2, 3, 5]` |
| Day10.ExampleMask | src/days/day10.rs:48-55 | their mask is `0b101110` |
| Day10.ButtonExamples | src/days/day10.rs:46-61 | `(1,2,3,5)` parses to that button and `(1,2,a,5)` fails |
| Day10.PushAll | src/days/day10.rs:77 | `push(index)` appends the button to every combination and keeps their number |
| Day10.FindCombinations | src/days/day10.rs:65-92 | the search never returns an empty list: `None` stands for no combination |
| Day10.ToggledLights | src/days/day10.rs:74-76 | the lights written `(leds & !mask) \| ((leds & mask) ^ mask)` for the pressed branch give the same search as `leds ^ mask`, which the model uses |
| Bits.ToggleIsXor | src/days/day10.rs:74 | on `u32` values, keeping the lights outside `mask` and flipping those inside is the exclusive or |
| Day10.XorOfSnoc | src/days/day10.rs:74 | pressing one more button XORs its mask into the lights |
| Day10.FindCombinationsSound | src/days/day10.rs:65-92 | every returned combination lists distinct buttons from `index` on in strictly decreasing order, and its masks take `leds` to `objective` |
| Day10.FindCombinationsComplete | src/days/day10.rs:65-92 | every such set of buttons is returned |
| Day10.FindCombinationsSpec | src/days/day10.rs:65-92 | `None` exactly when no subset of `buttons[index..]` reaches the objective; otherwise the list holds exactly the subsets that do |
| Day10.FindCombinationsDistinct | src/days/day10.rs:72-85 | no combination is returned twice |
| Day10.CombinationsExample1 | src/days/day10.rs:94-108 | with the six buttons of `check_find_combinations` and pattern `0b110`, the list holds `[5, 4]` |
| Day10.CombinationsExample2 | src/days/day10.rs:94-108 | it holds `[3, 1]` |
| Day10.ExampleFiveToggles | src/days/day10.rs:94-108 | buttons 5, 4, 3, 2 and 0 toggle `0b110` |
| Day10.CombinationsExample3 | src/days/day10.rs:94-108 | it holds `[5, 4, 3, 2, 0]` |
| Day10.CombinationsExample4 | src/days/day10.rs:94-108 | it holds `[2, 1, 0]` |
| Day10.FindCombinationsCached | src/days/day10.rs:110-124 | a hit returns the stored value and leaves the cache alone; a miss returns `find_combinations(buttons, 0, 0, objective)` and stores it under `objective`, changing no other key; a cache holding only uncached answers stays so |
| Day10.ParityMaskBits | src/days/day10.rs:140-143 | bit `i` of the parity fold is set exactly when count `i` is odd |
| Day10.ParityMaskBound | src/days/day10.rs:140-143 | the parity mask has no bit beyond the counts |
| Day10.PressedBound | src/days/day10.rs:150-151 | every light a valid combination presses is a count index |
| Day10.SubtractSpec | src/days/day10.rs:148-158 | the decrements succeed exactly when no count would go below zero, and then each count drops by the times its light is pressed |
| Day10.SubtractNoneAppend | src/days/day10.rs:152-156 | once a decrement fails the candidate is dropped whatever follows |
| Day10.Halve | src/days/day10.rs:160-163 | each count is halved (rounding down) |
| Day10.PressedParity | src/days/day10.rs:140-161 | a light's bit in the XOR of a combination is set exactly when it is pressed an odd number of times |
| Day10.SubtractEven | src/days/day10.rs:160-161 | after subtracting a combination matching the parity every count is even, as asserted before halving |
| Day10.OptMin | src/days/day10.rs:167 | `min` over optional costs ignores the dropped candidates and picks the least |
| Day10.FoundMatching | src/days/day10.rs:145 | every combination found for the parity mask toggles exactly the odd counts |
| Day10.CandidateDecreases | src/days/day10.rs:145-165 | a kept candidate halves to a smaller total count, so the recursion terminates |
| Day10.BestCandidateSpec | src/days/day10.rs:145-168 | the result is `None` exactly when every candidate is dropped, and otherwise the least cost of a candidate |
| Day10.CandidateKept | src/days/day10.rs:150-163 | a kept candidate leaves even counts with a smaller halved total |
| Day10.CandidateCost | src/days/day10.rs:165 | a kept candidate costs `combi.len() + 2 * m`, `m` the presses for the halved counts, and fails when those fail |
| Day10.JoulesNone | src/days/day10.rs:145-168 | no combination for the parity gives no answer |
| Day10.JoulesSome | src/days/day10.rs:145-168 | otherwise the answer is the best candidate |
| Day10.AllZeroScan | src/days/day10.rs:136 | the `all` test holds exactly when every count is 0 |
| Day10.ParityFold | src/days/day10.rs:140-143 | the reversed fold gives the parity mask |
| Day10.FindJoules | src/days/day10.rs:131-169 | the recursion returns `Joules`: 0 for all-zero counts, otherwise the least `combi.len() + 2 * m` over the parity-matching combinations, `m` being the value for the halved remaining counts; it keeps the cache coherent |
| Day10.MinCandidate | src/days/day10.rs:145-168 | the `filter_map(..).min()` over the combinations returns the best candidate |
| Day10.Decrement | src/days/day10.rs:148-158 | the nested loops decrement the pressed counts or drop the candidate |
| Day10.DecrementButton | src/days/day10.rs:151-157 | the inner loop subtracts one from the count of each light of one button, or reports that a count would go below zero |
| Day10.HalveAll | src/days/day10.rs:160-163 | the loop halves every count |
| Day10.TryCandidate | src/days/day10.rs:147-166 | one candidate of the `filter_map` computes its cost or drops it |
| Day10.PatternMaskBits | src/days/day10.rs:191-195 | bit `i` of the pattern is set exactly when the `i`-th lamp, brackets ignored, is `#` (leftmost lamp is bit 0) |
| Day10.PatternExample | src/days/day10.rs:238 | `[.##.]` gives pattern 6 |
| Day10.JoltagesSplit | src/days/day10.rs:200-213 | there is one count per comma-separated field, each the value of its digits |
| Day10.ParseJoltages | src/days/day10.rs:200-213 | the byte loop builds those counts |
| Day10.ParseMachine | src/days/day10.rs:187-216 | one line gives its pattern, buttons and counts, or `None` where an index or `unwrap` panics |
| Day10.MinLength | src/days/day10.rs:228 | the minimum length is the length of some combination and no longer than any |
| Day10.FewestPresses | src/days/day10.rs:225-228 | part 1 of a machine is the fewest distinct buttons whose toggles give the pattern, and has no answer exactly when no set of buttons gives it |
| Day10.SolveMachine | src/days/day10.rs:223-231 | one machine with a fresh cache shared by both parts: `ok` is false exactly when a part has no answer, otherwise `(p1, p2)` is the specified pair |
| Day10.TotalsNone | src/days/day10.rs:219-233 | one machine without an answer makes the total panic |
| Day10.TotalsAppend | src/days/day10.rs:219-233 | totals over two runs of machines add up, so the parallel fold and reduce equal the sequential sum |
| Day10.AddPairAssoc | src/days/day10.rs:233 | the reduction is associative |
| Day10.SolveAll | src/days/day10.rs:219-233 | the loop over the machines returns the totals |
| Day10.Resolve | src/days/day10.rs:182-234 | `resolve` parses every line and returns the totals, or `None` where it panics |
| Day11.ToWord | src/days/day11.rs:12-17 | `u32_to_string` gives three byte characters |
| Day11.LettersBound | src/days/day11.rs:4-6 | the packing of up to three byte letters fits in `256^n`, so three letters fit in 24 bits |
| Day11.LettersThree | src/days/day11.rs:4-6 | three letters pack as `c0 * 65536 + c1 * 256 + c2` |
| Day11.You | src/days/day11.rs:19-23 | `word_to_u32("you")` is `0x796f75` |
| Day11.WordRoundTrip | src/days/day11.rs:19-25 | `u32_to_string(word_to_u32(w)) == w` for every three-letter byte word |
| Day11.NumberRoundTrip | src/days/day11.rs:4-17 | `word_to_u32(u32_to_string(n))` keeps the low 24 bits of `n` |
| Day11.Branches | src/days/day11.rs:50-52 | the counts of the outputs, one per output in order |
| Day11.PathsCached | src/days/day11.rs:27-63 | a cached device answers its count, or 0 while it is being expanded; otherwise the count is 1 at `end`, 0 without outputs, and is stored as resolved; existing entries are never changed; on an acyclic graph with a coherent cache it is the number of paths and the cache stays coherent |
| Day11.PathsNumber | src/days/day11.rs:65-67 | with a fresh cache, 1 when `start == end`, 0 from a device without outputs, and on an acyclic graph the number of paths |
| Day11.Outputs | src/days/day11.rs:80-83 | one packed name per space-separated output, in order |
| Day11.CablesDefined | src/days/day11.rs:75-86 | building the map panics exactly when some line is shorter than 5 bytes |
| Day11.CablesKeys | src/days/day11.rs:79-85 | the devices of the map are exactly the entries named by the lines |
| Day11.CablesLast | src/days/day11.rs:85 | a device named by several lines keeps the outputs of the last one, as `insert` overwrites |
| Day11.BuildCables | src/days/day11.rs:73-86 | the loop builds that map, or reports the panic |
| Day11.CablesNone | src/days/day11.rs:75-86 | a panic on a prefix of the lines is a panic of the whole loop |
| Day11.Resolve | src/days/day11.rs:69-101 | on an acyclic graph part 1 is the number of paths `you -> out` and part 2 the product of the paths `svr -> fft`, `fft -> dac` and `dac -> out` |

## Left out

- Reading input: `Lines<T>`, `line.unwrap()` on I/O errors, UTF-8 decoding, `inventory::submit!` and `resolve_string` are not modelled. A solver takes its lines as a sequence of strings, and a string's characters stand for its bytes.
- Fixed-width integers (`u32`, `u64`, `i64`, `usize`) are unbounded here. Overflow, and any wrap-around it would cause in release builds, is not modelled.
- Sorting: `sort`, `sort_unstable` and `sort_by_key` are modelled by one stable sort by key (`Common.SortBy`). It is proved sorted and a permutation. Rust's unstable sorts may order equal keys differently. Day 8's part 1 can depend on the order of connections of equal length, and the model fixes one.
- `slice::binary_search_by_key` is modelled as returning the last matching index when several keys match. Rust allows any matching index; from an earlier one, day 9's search would `continue` on a key below `v0` and never end. The model takes the last match, so it never hangs there.
- The worked examples of the `#[test]` functions are stated only where the Model table lists them. The whole-input examples of each `check` test are not restated.
- The rayon parallel `fold`/`reduce` of day 10 is modelled as a sequential sum. `Day10.TotalsAppend` and `Day10.AddPairAssoc` show the split sums agree.
- Day01.Resolve: requires every line to be a direction byte followed by ASCII digits. On an empty line the source panics at `bytes[0]` (`src/days/day01.rs:17`). After the first byte it folds `b - b'0'` without checking for a digit (`src/days/day01.rs:15`), so a non-digit byte underflows or adds a value above 9. Neither case is modelled.
- Day01.Resolve: the totals `(3, 6)` of the `check` test on its example are not restated.
- Day02.Resolve: requires every range to have digit-only bounds and a non-empty lower bound without a leading zero. The source subtracts `b'0'` from every byte, and it takes the byte length of the lower bound as its number of digits.
- Day03.Resolve: requires every line to consist of ASCII digits. The source subtracts `b'0'` from every byte.
- Day04.Resolve: requires at most `n` lines of at most `n` bytes. The source would index past its fixed `SIZE` array otherwise.
- Day05.Resolve: requires `first <= last` in every range line. The source computes `last - first + 1` in `u64`, which underflows otherwise.
- Day05.Resolve: the totals `(3, 14)` of the `check` test are not restated.
- Day06.Resolve: when every line fits the worksheet and the operator row reaches the sheet width, requires the number rows to reach that width and to hold only digits and spaces, unless the operator row is blank. Otherwise the source panics slicing a short number row (`line[index..end]`, `line[x]`), or `c - b'0'` underflows or adds a value above 9. Lines past the worksheet and a short operator row are modelled as `Panics`.
- Day07.Resolve: requires every row to cover the width and to hold no splitter in the last column. The source writes to column `index + 1` there.
- Day09.IsSegmentsIntersect: after a miss of `v0 - 1` the search starts at the insertion point `i`, the corrected start of the Findings row. It does not use the `i + 1` written at `src/days/day09.rs:59`. Written as in the source, the search can miss an edge that crosses the rectangle (`Day09.AsWrittenMisses`).
- Day09.CleanSpec: the rectangle test it characterises is built on the corrected start. With the source's `i + 1` start, a rectangle whose first edge at or after `v0` crosses it is wrongly taken as clean.
- Day09.ConsiderClean: decides cleanness with the corrected start. It is not the verdict of the source's `i + 1` start.
- Day09.Rectangle: decides cleanness with the corrected start. It is not the verdict of the source's `i + 1` start.
- Day09.Pairs: folds the corrected verdicts. With the source's start, its `p2` may count a rectangle that an edge crosses.
- Day09.PairsBest: the largest clean surface it proves is for the corrected start. The source's `p2` may be larger, because a missed edge lets a crossed rectangle through.
- Day09.SolveSpec: part 2 is stated for the corrected start. The source's part 2 may be larger for the reason given under `Day09.PairsBest`.
- Day09.Resolve: runs the pipeline with the corrected start. It does not reproduce the source's part 2 on inputs where the `i + 1` start misses an edge.
- Day09.SolveSpec: that the border has no edge of a single point (`Proper`) is a hypothesis of the answer's meaning, not derived from the input. Without it the source may panic or loop. The model reports `Panicked` or `Hung` for those runs.
- Day10.Resolve: requires at most 32 counts per machine, and buttons whose lights index existing counts. Otherwise the source's `u32` masks overflow or its count indexing panics.
- Day10.Resolve: also requires each button to list distinct lights. `Button::from_str` accepts a button such as `(1,1)` (`src/days/day10.rs:26-42`). Its mask toggles light 1 once, but `find_joules` decrements that count twice. The counts left can then be odd, and the source panics at `assert_eq!(*joule % 2, 0)` (`src/days/day10.rs:161`). Such input is not modelled.
- Day10.Resolve: the totals `(7, 33)` of the `check` test are not restated.
- Day10.CombinationsExample1: with its three companions it states that each of the four combinations of `check_find_combinations` is listed. The exact list, with its order and the absence of other entries, is not restated. Evaluating it unfolds the search over all 64 subsets. That no other subset is listed, and none twice, follows from `Day10.FindCombinationsSpec` and `Day10.FindCombinationsDistinct` in general.
- Day10.FindJoules: the value `Some(10)` for the counts `[3, 5, 4, 7]` of `check_find_joules` (`src/days/day10.rs:171-180`) is not restated. Evaluating it unfolds the whole halving recursion over all candidates.
- Day10.FindJoules: requires the cache to hold only correct answers. `resolve` always starts from an empty cache, which satisfies this.
- Day11.Resolve: the totals of the two `check` tests, `(5, 0)` and `(0, 2)`, are not restated.
- Day11.Resolve: the path counts are proved equal to the number of paths only on an acyclic graph, witnessed by a ranking of the devices. On a cyclic graph the memo's `None` cut is modelled, but the count is not characterised. Device names are packed without the `u32` limit. Three-letter names fit in 24 bits (`Day11.LettersBound`).

## Findings

| source | as written | input that shows it | evidently intended | confidence | as-written member | corrected member |
|---|---|---|---|---|---|---|
| src/days/day09.rs:56-60 | after a miss of `v0 - 1`, the scan starts at `i + 1`, skipping the first edge at or after line `v0` | one edge at line 5 spanning 0..10, rectangle lines 5..8, span 2..3: the edge crosses, yet the search returns `false` | start at the insertion point `i` after a miss | not executed | Day09.AsWrittenMisses | Day09.IntersectSpec |
