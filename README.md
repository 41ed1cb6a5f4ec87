# Advent of Code 2024 solvers, modelled in Dafny

A model of the algorithmic core of a set of Rust solutions to Advent of
Code 2024 puzzles. Each source file gets one Dafny module:

- `Day6` (`rust/src/day6.rs`): a guard walks a grid. It turns right before
  every obstacle and stops once it steps off the grid. Part 1 counts the
  cells it visits. Part 2 counts the visited cells where one more obstacle
  makes the guard walk in a loop for ever. The model covers the
  direction type (`turn`, `step`, `parse`, `char::from`), the recursive
  `Board::step`, the walk iterator (`IterState`, a class whose `guard` field
  is stepped in place), the history-set loop detector `pred`, both parts and
  the grid reader. The walk is specified by a function `Iterate` (the state
  after `k` steps). Looping is "some state repeats" and leaving is "some
  state is `None`". The methods are proved against these, and `Pred` is
  proved to terminate: every state after the first lies in the finite set
  `States` of on-grid states, so the history set cannot grow for ever.
- `Day5` (`rust/src/day5.rs`): page-ordering rules `x|y` and updates. It
  covers the predecessor index, the `forbidden`-set check, `reverse`,
  `restrict_index`, Kahn's topological sort over hash sets (each pop is an
  arbitrary choice), the position map of `from_vec`, the sort of an update
  by that order, and both parts. The two sort tests are proved for every
  order in which the hash sets could hand out their elements.
- `Day7` (`rust/src/day7.rs`): calibration equations. The model covers line
  parsing, the backward `+`/`*` search `pred`, and its meaning: for positive
  operands, some choice of operators evaluated left to right gives the test
  value.
- `SolutionsDay2` (`rust/src/solutions/day2.rs`): report safety, removing one
  level, and "nearly safe".
- `Day1` and `SolutionsDay1` (`rust/src/day1.rs`, `rust/src/solutions/day1.rs`):
  sort two lists in place and add up the distances, and a frequency-map
  similarity score.
- `Day4` (`rust/src/day4.rs`): an eight-direction word search over a byte
  grid.
- `Day3` (`rust/src/day3.rs`): the `do()`/`don't()`/`mul(x,y)` instruction
  machine, run over the instructions that the regular expression finds.

Shared helpers: `Wrappers` (Rust's `Option`), `Text` (`str::split` on a
character, decimal parsing and printing), `Seqs` (`rev`), `Sets` (picking a
set member, subset sizes) and `Sorting`. `Sorting` is one verified in-place
insertion sort by an integer key. It stands for Rust's `sort` (identity key)
and `sort_by` (position key), since the source only relies on their result
being a sorted permutation.

Integers (`u32`, `u64`, `usize`, `i64`) are unbounded `int`/`nat`. Where the
source calls `unwrap` on a parse or indexes an element that might be
missing, the model has a precondition. Where the source returns `Option`,
the model returns `Option`.

Where the code and the puzzle statement differ, the model follows the code:
- `Dir::parse` knows `'V'` (upper case) for Down, not `'v'`
  (rust/src/day6.rs:71).
- The candidate pool of day 6 part 2 includes the start cell
  (rust/src/day6.rs:217-225). `Day6.Part2` models that pool as written.
  "## Findings" shows an input where this makes part 2 diverge, and
  `Day6.Part2WithoutStart` leaves the start cell out.

## Model

| member | source | states |
|---|---|---|
| Day6.TurnsCycle | rust/src/day6.rs:55-62 | turn goes Up, Right, Down, Left, Up: four turns give the direction back, one to three turns never do, and the four turns visit every direction |
| Day6.TurnRotates | rust/src/day6.rs:55-62 | a turn rotates the direction's (row, column) offset a quarter turn clockwise |
| Day6.StepDir | rust/src/day6.rs:34-53 | the next cell is `None` exactly when moving Up from row 0 or Left from column 0; otherwise exactly one coordinate changes by the direction's offset |
| Day6.StepBack | rust/src/day6.rs:34-53 | stepping after two turns leads back to the cell stepped from |
| Day6.ParseAmong | rust/src/day6.rs:25-32 | the loop over `Dir::VALUES` returns a direction drawn as `c`, and `None` only when no candidate is drawn as `c` |
| Day6.ParseMeans | rust/src/day6.rs:25-32 | parse inverts `char::from` (rust/src/day6.rs:65-74) and returns `None` exactly for characters other than `^ > V <` |
| Day6.Advance | rust/src/day6.rs:117-134 | the recursive step equals one plain move (leave or advance) in the first direction, clockwise from the guard's own, that is not blocked; each retry is one more turn |
| Day6.Step | rust/src/day6.rs:117-134 | a `None` guard stays `None` |
| Day6.StepLands | rust/src/day6.rs:117-134 | after a step the guard stands on a free cell of the board, next to its old cell, facing the way it moved |
| Day6.IterState.constructor | rust/src/day6.rs:140-145 | walk builds the iterator state from the board and the start guard |
| Day6.IterState.StepGuard | rust/src/day6.rs:117-134 | the in-place step (take, turn and recurse, or move) leaves the guard field equal to `Step` of its old value |
| Day6.IterState.Next | rust/src/day6.rs:106-114 | next yields the guard held before the call and then steps the held guard |
| Day6.FreeStart | rust/src/day6.rs:117-134 | a guard that starts on a free cell that is not boxed in never reaches a boxed-in cell, so every step of its walk returns |
| Day6.DefinedIterate | rust/src/day6.rs:106-114 | the walk's state after `k + 1` elements is one step from the state after `k` |
| Day6.GoneStaysGone | rust/src/day6.rs:117-118 | once the guard has left, every later state is `None` |
| Day6.LoopsNeverLeave | rust/src/day6.rs:201-211 | a walk in which some state repeats never leaves the board |
| Day6.VisitedCells | rust/src/day6.rs:194-197 | the visited-set loop collects exactly the cells of the walk's states until the guard leaves |
| Day6.Part1 | rust/src/day6.rs:191-199 | part1 is the number of distinct cells the guard stands on before leaving |
| Day6.WithObstacle | rust/src/day6.rs:202 | the trial board has the same size and one more obstacle |
| Day6.OnGrid | rust/src/day6.rs:117-134 | every state after the first lies on the board, in the finite set `States` of (cell, direction) pairs |
| Day6.Record | rust/src/day6.rs:203-209 | a new state added to `history` leaves fewer unseen states in the finite state space, so the detection loop ends |
| Day6.Pred | rust/src/day6.rs:201-211 | pred returns true exactly when some whole `(pos, dir)` state repeats, and false exactly when the guard leaves; it always terminates |
| Day6.Part2 | rust/src/day6.rs:213-226 | part2 counts the visited cells, the start included, whose obstruction makes the guard loop; the count is at most the number of visited cells |
| Day6.FindRepeat | rust/src/day6.rs:203-210 | the history loop returns true exactly when some state of the walk repeats; when it returns false the guard has left the board |
| Day6.CountLooping | rust/src/day6.rs:222-225 | the filter-and-count over a candidate set equals the number of candidates whose trial loops, and is at most the number of candidates |
| Day6.StartTrialBoxesIn | rust/src/day6.rs:213-225 | on a 3×3 board the unobstructed guard leaves and visits its start cell, but the trial with an obstacle on that cell boxes the guard in, so its walk is not defined; the start cell is open on two sides |
| Day6.AddedObstacleLeavesOpen | rust/src/day6.rs:117-134 | a cell with two unblocked sides is not boxed in after any one obstacle is added, so `Board::step` returns there |
| Day6.CandidatesDefined | rust/src/day6.rs:213-225 | with the start cell free and open on two sides, every trial over the visited cells other than the start has a walk whose steps all return |
| Day6.Part2WithoutStart | rust/src/day6.rs:213-226 | part2 with the start cell left out counts the other visited cells whose obstruction makes the guard loop; every trial terminates, and the count is at most the number of those cells |
| Day6.ObstructionsAdd | rust/src/day6.rs:222-225 | adding one candidate adds it to the count exactly when its trial loops, whatever the order of trials |
| Text.Utf8Len | rust/src/day6.rs:178 | `str::len` counts UTF-8 bytes: at least the number of characters and at most four times it, and equal to it exactly when every character is ASCII |
| Day6.Read | rust/src/day6.rs:154-188 | reading lines gives height = number of lines and width = the UTF-8 byte length of the last line (`str::len`), which is its character count exactly when it is ASCII; the obstacles are exactly the `#` cells; the guard is the last marker in reading order, or `None` when there is none; the guard never stands on an obstacle |
| Day5.CreateIndex | rust/src/day5.rs:36-50 | the keys are exactly the pages some rule mentions, and `index[y]` is exactly the set of `x` with a rule `(x, y)` |
| Day5.IsCorrect | rust/src/day5.rs:52-62 | the forbidden-set scan returns false exactly when some later page is in the predecessor set of an earlier page |
| Day5.InOrderMeans | rust/src/day5.rs:52-62 | over the index of the rules, that scan accepts exactly the updates in which no later page has a rule putting it before an earlier page |
| Day5.Part1 | rust/src/day5.rs:64-73 | part1 sums `update[len / 2]` over the updates that respect every rule |
| Day5.Pop | rust/src/day5.rs:83-87 | pop gives `None` on an empty set; otherwise some member, and the set loses exactly that member |
| Day5.Reverse | rust/src/day5.rs:90-104 | `x` is in `reversed[y]` exactly when `y` is in `index[x]`; the keys are the keys of `index` and every predecessor |
| Day5.AddSuccessor | rust/src/day5.rs:93-100 | the inner loop of reverse records `x` as a successor of each page of its set and changes nothing else |
| Day5.RestrictIndex | rust/src/day5.rs:106-116 | keeps exactly the keys that occur in the update, each with its predecessor set intersected with the update's pages |
| Day5.TopologicalSort | rust/src/day5.rs:118-143 | the order has no repeats, holds only keys, and emits each page after all of its original predecessors; a key is left out only when one of its predecessors is never emitted |
| Day5.InitialPending | rust/src/day5.rs:119-125 | the sort starts from exactly the keys with no predecessors |
| Day5.Release | rust/src/day5.rs:131-140 | removing an emitted page from its successors' sets makes pending exactly the keys whose predecessors have all been emitted |
| Day5.FromVec | rust/src/day5.rs:145-152 | the position map has the order's pages as keys, and maps each page to a position holding it (the last one) |
| Day5.SortByIndex | rust/src/day5.rs:151-171 | sorting an update by position in the topological order gives a permutation with no page after one that must precede it; the comparator's `unwrap` panic (`None`) happens exactly when there are two or more pages and one of them lies in a set of pages whose predecessors never run out |
| Day5.BlockedNeverEmitted | rust/src/day5.rs:118-143 | no page of a set whose predecessors never run out appears in an order that puts predecessors first |
| Day5.BlockedFromStuck | rust/src/day5.rs:151-171 | stuck pages of an update are such a set for the index restricted to the update, so its sort panics |
| Day5.SortedFixes | rust/src/day5.rs:163-171 | a rule-breaking update sorted without a panic keeps every rule, keeps its length, and has no stuck pages |
| Day5.Part2 | rust/src/day5.rs:158-176 | part2 sums the middle page of each rule-breaking update, reordered so that it keeps every rule; it panics (`None`) exactly when some such update has pages that no topological sort can place |
| Day5.RestrictedRespectsRules | rust/src/day5.rs:162-172 | an update sorted by the restricted index keeps every rule |
| Day5.FixIsUnique | rust/src/day5.rs:163-171 | when the rules compare every two pages of an update without repeats, there is only one reordering that keeps the rules, so part2 does not depend on the sort |
| Day5.ChainIsOnlyFix | rust/src/day5.rs:199-230 | a chain of rules has exactly one reordering that keeps every rule: itself |
| Day5.ExampleSmall | rust/src/day5.rs:199-207 | rules `(29,13),(61,13),(61,29)` sort `[29,13,61]` to `[61,29,13]`, in whatever order the hash sets pop |
| Day5.ExampleLarge | rust/src/day5.rs:209-230 | the twelve rules sort `[97,13,75,29,47]` to `[75,97,47,29,13]`, in whatever order the hash sets pop |
| Day7.ParseRender | rust/src/day7.rs:14-26 | parsing a written equation gives back the number before the colon and the operands after it, stored reversed |
| Day7.PredWitness | rust/src/day7.rs:34-45 | a successful backward search yields operators under which the reversed operands evaluate to the target |
| Day7.PredComplete | rust/src/day7.rs:34-45 | for positive operands, the backward search finds every choice of operators |
| Day7.PredMeans | rust/src/day7.rs:34-45 | for positive operands, pred holds exactly when some choice of operators over the reversed operands gives the target |
| Day7.PossibleMeans | rust/src/day7.rs:33-48 | for positive operands, possible holds exactly when some `+`/`*` choice, evaluated left to right over the operands as written, equals the test value |
| Day7.EvalReversedIsEval | rust/src/day7.rs:33-48 | evaluating the reversed storage from its head is left-to-right evaluation of the operands as written |
| Day7.Part1 | rust/src/day7.rs:51-57 | part1 adds the test values of the possible equations, so it is at most the sum of all test values |
| Day7.Part1Append | rust/src/day7.rs:51-57 | the total of a concatenation of equation lists is the sum of the totals |
| SolutionsDay2.ParseRender | rust/src/solutions/day2.rs:8-13 | parsing a report written with single spaces gives the report back |
| SolutionsDay2.HasStrictBoundedIncs | rust/src/solutions/day2.rs:20-27 | holds exactly when every neighbouring pair satisfies `x < y <= x + 3`, so it holds for reports shorter than two |
| SolutionsDay2.SafeMeans | rust/src/solutions/day2.rs:29-31 | safe exactly when all levels rise, or all fall, by one to three per step |
| SolutionsDay2.SafeReversed | rust/src/solutions/day2.rs:29-31 | a report and its reverse are equally safe |
| SolutionsDay2.SkipOver | rust/src/solutions/day2.rs:33-40 | for `i < len` the report without position `i`, one shorter; for `i >= len` the report unchanged |
| SolutionsDay2.SafeAfterSkipFrom | rust/src/solutions/day2.rs:46-51 | the search from `i` succeeds exactly when removing some position `j >= i` leaves a safe report |
| SolutionsDay2.IsNearlySafe | rust/src/solutions/day2.rs:42-53 | nearly safe exactly when safe, or safe after removing some one position |
| SolutionsDay2.Part1 | rust/src/solutions/day2.rs:55-57 | part1 counts the safe reports, at most all of them |
| SolutionsDay2.Part2 | rust/src/solutions/day2.rs:59-61 | part2 counts the nearly safe reports, at most all of them |
| SolutionsDay2.Part2AtLeastPart1 | rust/src/solutions/day2.rs:55-61 | part2 is never below part1 |
| SolutionsDay2.ExamplePart1 | rust/src/solutions/day2.rs:79-89 | two of the six example reports are safe |
| Sorting.SortBy | rust/src/day1.rs:27-28 | the slice ends up sorted ascending by the key, a permutation of what it held |
| Day1.DistanceSum | rust/src/day1.rs:29 | the sum of absolute differences of paired elements is never negative, and zero when either list is empty (`zip` truncates) |
| Day1.Part1 | rust/src/day1.rs:26-30 | both lists end up sorted ascending and permutations of their inputs, and the result is the distance sum of the sorted lists |
| Day1.Part1IgnoresOrder | rust/src/day1.rs:26-30 | the result depends only on the elements of each list, not on their order |
| Day1.SortedUnique | rust/src/day1.rs:27-28 | two ascending lists with the same elements are equal, so the sorted lists are determined by the inputs |
| Day1.CountOccurrences | rust/src/day1.rs:33-37 | the counting loop maps each value of `ys`, and nothing else, to its number of occurrences |
| Day1.WeightedSumIsSimilarity | rust/src/day1.rs:38 | with such a map, the weighted sum (absent values count 0) is the sum of `x` times the occurrences of `x` in `ys` |
| Day1.Part2 | rust/src/day1.rs:32-39 | part2 is the sum over `xs` of each value times its occurrences in `ys` |
| Day1.SimilarityIgnoresAbsent | rust/src/day1.rs:38 | a value that is absent from `ys` adds nothing |
| Day1.ExamplePart1 | rust/src/day1.rs:56-61 | the example lists give 11 |
| Day1.ExamplePart2 | rust/src/day1.rs:63-68 | the example lists give 31 |
| SolutionsDay1.ComputeResult | rust/src/solutions/day1.rs:23-27 | both vectors end up sorted ascending and permutations of their inputs, and the result is the distance sum of the sorted vectors |
| SolutionsDay1.Example | rust/src/solutions/day1.rs:38-43 | the example lists give 11 |
| Day4.HasWord | rust/src/day4.rs:22-35 | holds exactly when every letter `k >= 1` of the word lies `k` steps along the direction inside the board; `word[0]` is not compared, so a one-letter word always matches |
| Day4.DirectionsAreTheNeighbours | rust/src/day4.rs:37-39 | the directions are the eight pairs of `{-1,0,1}²` other than `(0,0)`, each once |
| Day4.DirectionsInOrder | rust/src/day4.rs:37-39 | the directions come in row-major product order with `(0,0)` filtered out |
| Day4.CountDirections | rust/src/day4.rs:46-50 | the direction loop counts the directions in which the word lies at the cell |
| Day4.CellCount | rust/src/day4.rs:45-51 | a cell adds at most 8 matches, and none unless it holds the first letter |
| Day4.Part1 | rust/src/day4.rs:41-55 | part1 counts the (cell holding the first letter, direction) pairs where the word lies, at most 8 per cell |
| Day3.FromCaptures | rust/src/day3.rs:21-27 | the whole match `do()` gives Do, `don't()` gives Dont, anything else gives Mul of the two groups |
| Day3.FromCapturesInverse | rust/src/day3.rs:21-27 | reading back the text and groups of an instruction gives the instruction |
| Day3.State.Init | rust/src/day3.rs:36-41 | the machine starts with total 0 and multiplications enabled |
| Day3.Part2 | rust/src/day3.rs:44-61 | the fold adds each product exactly when multiplications are enabled before it; toggles set `enabled` and leave the total alone |
| Day3.EnabledAfterMeans | rust/src/day3.rs:49-58 | after a prefix, multiplications are enabled exactly when it has no `don't()`, or a `do()` with no `don't()` after it |
| Day3.NoTogglesIsPart1 | rust/src/day3.rs:44-71 | on instructions without toggles, the part2 fold equals the plain sum of products of part1 |
| Day3.EnabledSumAtMostPart1 | rust/src/day3.rs:44-71 | with non-negative operands, part2 never exceeds part1 |
| Day3.ExamplePart2 | rust/src/day3.rs:94-98 | `mul(2,4), don't(), mul(5,5), mul(11,8), do(), mul(8,5)` folds to 48 |
| Day3.ExamplePart1 | rust/src/day3.rs:88-92 | the four multiplications of the part1 example sum to 161 |

## Left out

- File, argument and console handling: every `main`/`run`/`result`, `File::open`, `BufReader::lines`, `args`, `exit`, `println!`, and the stream readers (`read`, `read_input`, `read_rules`, `read_updates`, `Equation::read`). The parsers that remain take a line or a sequence of lines. `rust/src/main.rs` only dispatches to modules and is not part of this model.
- The `regex` crate in day 3 (`Regex::new`, `captures_iter`, `extract`). `Day3.Part2` and `Day3.Part1` take the instructions the scan finds; `Day3.FromCaptures` takes a match's text and groups.
- Rayon's `par_iter` in day 6 part 2: the trials are counted one after another. Each trial works on its own copy of the board, and `Day6.ObstructionsAdd` shows that the order does not matter.
- Hash set and hash map iteration order (day 5 `pop`, the loops over keys, the day 6 visited set): each is an arbitrary choice (`:|`), so every proved property holds for every order.
- Rust's `sort`/`sort_by` algorithm and stability: `Sorting.SortBy` promises only a sorted permutation. Stability cannot be observed here: `sort` works on integers, and the `sort_by` comparator orders distinct pages strictly.
- `Dir::to_string` (rust/src/day6.rs:76-80) and `Guard::turn` (rust/src/day6.rs:89-91) are wrappers around `char::from` and `Dir::turn`; `Day6.IterState.StepGuard` writes the turn into the guard directly.
- Day6.Part2: the `Board::step` recursion never ends when all four neighbours of a cell are in-bounds obstacles. The model requires every trial's walk to be defined (`Defined`) instead of claiming an outcome. `Day6.FreeStart` shows that this holds whenever the start cell is free and not boxed in. `Day6.Pred` has the same requirement. `Day6.Part1`, `Day6.VisitedCells`, `Day6.Part2` and `Day6.Part2WithoutStart` require more, `Leaves`: the walk on the board as read must leave it, since the `for guard in walk` loop (rust/src/day6.rs:194-197, 217-220) never ends otherwise.
- Day6.Part2WithoutStart: requires the start cell to be free and open on at least two sides (`OpenStart`). A start cell with three blocked sides could be boxed in by one trial obstacle, and `Board::step` would then recurse without end in that trial too.
- Day6.Read: it reads a sequence of line strings instead of a stream, so an I/O error is not modelled. The width is the UTF-8 byte length of the last line, as in the source, while columns count characters.
- Day7.PredMeans: the search requires every operand but the last to be non-zero (`Searchable`). The source divides by an operand only when the subtraction branch fails, so with a zero operand it panics on some inputs and not others. The meaning of the search is proved for positive operands, as the puzzle input has them.
- Day5.Part1: requires every update to be non-empty, because `update[update.len() / 2]` panics on an empty update.
- Day4.HasWord: requires no row to be shorter than row 0 (`RowsCoverFirst`). The bounds check uses row 0's width and then indexes the row it stepped to.
- Day4.Part1: the 18 matches of the 10×10 example board (rust/src/day4.rs:73-88) are not proved. Evaluating 100 cells in 8 directions symbolically is beyond what the model's proofs keep cheap.
- Fixed-width overflow of `u32`, `u64`, `usize` and `i64` is not modelled, and neither are `unwrap` panics on malformed numbers: numbers are unbounded, and the parsers require well-formed text. In particular a number with a leading `+` (which `str::parse::<u64>` accepts) and an operand word made only of whitespace other than spaces (which the `trim` filter of rust/src/day7.rs:21 drops) are outside the well-formed text of `Day7.Parse`.

## Findings

| source | as written | input that shows it | evidently intended | confidence | as-written member | corrected member |
|---|---|---|---|---|---|---|
| rust/src/day6.rs:217-225 | part2 tries an obstacle on every visited cell, the guard's start cell included | a 3×3 grid with rows `.#.`, `#.#`, `.^.`: the guard walks up one cell, turns twice and leaves downward, visiting its start; with an obstacle on the start cell it steps to the centre, which is then blocked on all four sides, so `Board::step` recurses without end | the start cell is not a candidate, as the puzzle forbids an obstruction there, and every trial terminates | not executed | Day6.StartTrialBoxesIn | Day6.Part2WithoutStart |
