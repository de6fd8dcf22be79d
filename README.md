# Advent of Code 2021, days 1 to 7, in Dafny

This project models the puzzle kernels of the `aoc-rust` repository for
days 1 to 7 of Advent of Code 2021. Each kernel parses a small
line-oriented text and computes one number from it.

- **Day 1**: count the strict increases in a list of depths. Part 2 does the
  same for the sums of the windows of three produced by a circular buffer.
- **Day 2**: the submarine command parser (`forward`/`up`/`down` and an
  amount), and the two navigation folds.
- **Day 3**: per-position bit counters giving the gamma and epsilon
  rates. Part 2 is the bisection that finds the oxygen generator and CO2
  scrubber ratings.
- **Day 4**: bingo. Each board keeps its marks as per-row and per-column
  bit masks that `open` updates in place. Two game drivers find the first
  winner and the last winner, and a block parser reads the game.
- **Day 5**: the line rasterizer, the histogram of visited points and the
  dangerous points, with the point, line and field parsers.
- **Day 6**: the lanternfish recurrence and its memoised evaluation,
  including the memo's real defect. `fish_num` and the parser are also
  modelled.
- **Day 7**: the crab alignment cost (linear or accumulative) and the
  brute-force search for its minimum.

Each Rust source file is one module (`Day01` … `Day07`; the part-two
files are `Day01Part2`, `Day02Part2` and `Day03Part2`). Day 4 is split
into four modules:
- `Day04` holds the board as a value and the specification of both games;
- `Day04Board` holds the `Board` class, whose row and column masks are
  updated in place;
- `Day04Game` holds the `BingoGame` class and its two drivers;
- `Day04Parse` holds the parsers.

`Common` models the Rust string and integer-parsing operations that the
parsers use:
- `trim`, `split`, `splitn(2, ..)`, `lines` and `to_lowercase`;
- `str::parse` for unsigned and signed integers, with a range bound.

The code's own form is kept:
- **Folds and recursion** are functions, and lemmas relate them to
  independent reference definitions.
- **Loops** that update variables are methods with loop invariants, proved
  against those functions:
  - day 3's counters and rates;
  - day 5's histogram;
  - day 6's `fish_num`;
  - day 7's `optimal_cost`;
  - day 1's circular buffer.
- **Objects that change in place** are classes with `modifies` clauses:
  - day 4's `Board` and `BingoGame`;
  - day 5's `LineIterator`.
- **Day 6's memo** is a map threaded through methods. They return the
  new map.

Integers are unbounded. The Rust widths enter only where the code checks
them, in parsing (u8, u64, i64 and usize ranges) and in day 7's
`u64::MAX` start value. Every overflow the model does not reproduce is
listed under "Left out".

## Model

| member | source | states |
|---|---|---|
| Day01.FoldCounts | aoc-rust/src/y2021/day01.rs:19-27 | from any state, the fold adds the number of strict adjacent increases; a `prev` already seen counts against the first element |
| Day01.SolveInnerCountsIncreases | aoc-rust/src/y2021/day01.rs:15-28 | `solve_inner` equals the number of indices i with s[i-1] < s[i] |
| Day01.ShortInputCountsNothing | aoc-rust/src/y2021/day01.rs:19-27 | an empty or one-element input gives 0; the first element only seeds `prev` |
| Day01.SolveInnerAppend | aoc-rust/src/y2021/day01.rs:20-26 | appending x adds 1 exactly when the last element is below x, else nothing |
| Day01.IncreasesBound | aoc-rust/src/y2021/day01.rs:19-27 | the count is at most max(0, len-1) |
| Day01.IncreasesStrict | aoc-rust/src/y2021/day01.rs:22 | only strict increases count: a non-increasing list gives 0, a strictly increasing one gives len-1 |
| Day01.ExampleCount | aoc-rust/src/y2021/day01.rs:34-51 | the test's ten depths give 7 |
| Day01Part2.Windowed | aoc-rust/src/y2021/day01_2.rs:31-40 | the circular buffer written at slot i % N yields max(0, len-N+1) buffers, and the k-th is window k..k+N-1 rotated by k % N |
| Day01Part2.SlotIsMod | aoc-rust/src/y2021/day01_2.rs:36 | the slot the loop writes element i to is i % N |
| Day01Part2.SlotPeriodic | aoc-rust/src/y2021/day01_2.rs:36 | element k and element k+N land in the same slot |
| Day01Part2.FullBufferIsWindow | aoc-rust/src/y2021/day01_2.rs:35-39 | once N elements have been written, the buffer holds only input elements (no initial zero) and is the rotated window |
| Day01Part2.RotatedSum | aoc-rust/src/y2021/day01_2.rs:20 | a rotated window has the same sum as the window, so the buffer's sum is the window's sum |
| Day01Part2.SolveInner | aoc-rust/src/y2021/day01_2.rs:15-29 | the count equals the strict increases of the window sums of 3, and fewer than 4 inputs give 0 |
| Day01Part2.WindowGrowsIff | aoc-rust/src/y2021/day01_2.rs:20-23 | window sum k+1 exceeds window sum k exactly when a[k] < a[k+3] |
| Day01Part2.WindowIncreasesAreGaps | aoc-rust/src/y2021/day01_2.rs:19-28 | the answer equals the number of k with a[k] < a[k+3] |
| Day01Part2.ExampleCount | aoc-rust/src/y2021/day01_2.rs:49-66 | the test's ten depths give 5 |
| Day02.SetAmount | aoc-rust/src/y2021/day02.rs:36-42 | the variant (and so the keyword) is kept and only the amount is replaced |
| Day02.Parse | aoc-rust/src/y2021/day02.rs:53-79 | a parsed amount fits in usize |
| Day02.ParseCommand | aoc-rust/src/y2021/day02.rs:53-79 | any casing of the keyword, one space and the decimal amount parse to that command |
| Day02.ParseShow | aoc-rust/src/y2021/day02.rs:53-79 | every command with a usize amount round-trips through its text |
| Day02.ParseSound | aoc-rust/src/y2021/day02.rs:54-75 | an accepted text is exactly a keyword (in any case), one space and an unsigned amount |
| Day02.RejectsOuterSpaces | aoc-rust/src/y2021/day02.rs:54-75 | a leading or a trailing space is rejected |
| Day02.RejectsMissingOrUnknown | aoc-rust/src/y2021/day02.rs:55-71 | a single token is rejected, and so is any unknown keyword |
| Day02.ExampleForward | aoc-rust/src/y2021/day02.rs:88 | "forward 10" parses to Forward(10) |
| Day02.ExampleUp | aoc-rust/src/y2021/day02.rs:89 | "UP 20" parses to Up(20) |
| Day02.ExampleDown | aoc-rust/src/y2021/day02.rs:90 | "Down 30" parses to Down(30) |
| Day02.ExampleSpaces | aoc-rust/src/y2021/day02.rs:91-98 | the test's texts with an extra space are rejected |
| Day02.ExampleNegative | aoc-rust/src/y2021/day02.rs:99-102 | "forward -1" is rejected |
| Day02.ExampleUnknown | aoc-rust/src/y2021/day02.rs:103-106 | "hoge 0" is rejected |
| Day02.Step | aoc-rust/src/y2021/day02.rs:19-23 | Forward never changes depth, Up and Down never change pos; Up needs the depth to cover it |
| Day02.FoldSums | aoc-rust/src/y2021/day02.rs:19-23 | the final pos is the start plus the sum of Forward; the final depth is the start plus the sum of Down minus the sum of Up |
| Day02.SolveInnerIsProduct | aoc-rust/src/y2021/day02.rs:15-26 | the answer is (sum Down - sum Up) x sum Forward |
| Day02.NeverAboveIff | aoc-rust/src/y2021/day02.rs:21 | the usize subtraction never goes below zero exactly when, in every prefix, the Ups total at most the start plus the Downs |
| Day02.ExampleAnswer | aoc-rust/src/y2021/day02.rs:109-119 | the six-command example gives 150 |
| Day02Part2.Step | aoc-rust/src/y2021/day02_2.rs:21-25 | Up and Down change only the aim; Forward x adds x to pos and aim times x to depth and keeps the aim |
| Day02Part2.FoldMatchesPart1 | aoc-rust/src/y2021/day02_2.rs:20-25 | the aim follows part one's depth, pos equals part one's pos, and depth is the sum over Forward moves of amount x aim at that moment |
| Day02Part2.SolveInnerIsProduct | aoc-rust/src/y2021/day02_2.rs:16-28 | the answer is that depth x sum Forward |
| Day02Part2.ExampleAnswer | aoc-rust/src/y2021/day02_2.rs:34-44 | the example gives 900 |
| Day03.ParseLine | aoc-rust/src/y2021/day03.rs:52-61 | a line parses exactly when it holds only '0' and '1'; the bits keep the line's length, '1' gives 1 and '0' gives 0 |
| Day03.ParseAll | aoc-rust/src/y2021/day03.rs:15-19 | the lines fail exactly when some line fails, else every line's bits in order |
| Day03.SolveInner | aoc-rust/src/y2021/day03.rs:8-45 | a malformed line gives the error; otherwise the answer is gamma x epsilon of the counters |
| Day03.CountRow | aoc-rust/src/y2021/day03.rs:21-31 | one row grows the counters to its length and adds its votes, giving the counters of the rows so far |
| Day03.Tally | aoc-rust/src/y2021/day03.rs:25-31 | each counter goes up by one for a 1 and down by one for a 0 at its position |
| Day03.CounterCounts | aoc-rust/src/y2021/day03.rs:25-31 | counter i is the number of rows with a 1 at i minus the number with a 0 at i |
| Day03.Width | aoc-rust/src/y2021/day03.rs:21-23 | the counters grow to the length of the longest row, and rows may differ in length |
| Day03.CounterBeyond | aoc-rust/src/y2021/day03.rs:21-23 | positions past every row have counter 0 |
| Day03.WidthSnoc | aoc-rust/src/y2021/day03.rs:21-23 | a new row widens the counters only if it is longer |
| Day03.GammaEpsilon | aoc-rust/src/y2021/day03.rs:34-42 | the rates read the gamma and epsilon bits most significant first: position i has weight 2^(L-1-i) |
| Day03.Complementary | aoc-rust/src/y2021/day03.rs:38 | at each position exactly one of gamma and epsilon has the bit, and a zero counter gives it to epsilon |
| Day03.GammaPlusEpsilon | aoc-rust/src/y2021/day03.rs:34-42 | gamma + epsilon = 2^L - 1 |
| Day03.EmptyAnswer | aoc-rust/src/y2021/day03.rs:34-44 | no rows give 0 |
| Day03.ExampleParse | aoc-rust/src/y2021/day03.rs:68-78 | "010101" and "101" parse to their bits, and "012" is rejected |
| Day03.ExampleAnswer | aoc-rust/src/y2021/day03.rs:80-97 | the twelve example rows give 198 |
| Day03Part2.ToU64IsValue | aoc-rust/src/y2021/day03_2.rs:51-57 | `to_u64` reads the bits most significant first |
| Day03Part2.ToU64FoldValue | aoc-rust/src/y2021/day03_2.rs:52-56 | the fold from shift i adds the bits' value times 2^i |
| Day03Part2.SelectMembers | aoc-rust/src/y2021/day03_2.rs:72-73 | has1 holds exactly the rows with a 1 at pos, has0 exactly the others |
| Day03Part2.SelectSplits | aoc-rust/src/y2021/day03_2.rs:72-73 | has1 and has0 together are the rows, as a multiset |
| Day03Part2.SelectConcat | aoc-rust/src/y2021/day03_2.rs:72-73 | the partition keeps the input's order |
| Day03Part2.Choose | aoc-rust/src/y2021/day03_2.rs:74-88 | oxygen keeps the larger group and CO2 the smaller; on a tie oxygen keeps the 1s and CO2 the 0s |
| Day03Part2.SmallInputs | aoc-rust/src/y2021/day03_2.rs:68-70 | no rows give no rating; one row is the rating whatever pos is |
| Day03Part2.FoundIsMember | aoc-rust/src/y2021/day03_2.rs:67-91 | a rating found is one of the input rows |
| Day03Part2.OxygenNeverEmpty | aoc-rust/src/y2021/day03_2.rs:74-80 | from rows that are not empty, oxygen never ends with no candidate |
| Day03Part2.CO2AllAlike | aoc-rust/src/y2021/day03_2.rs:74-78 | CO2 ends with no candidate when two or more rows all share the bit at pos |
| Day03Part2.Step | aoc-rust/src/y2021/day03_2.rs:71-88 | with two or more rows long enough, the search goes on with the chosen group at pos+1 |
| Day03Part2.SolveInnerIsProductOfRows | aoc-rust/src/y2021/day03_2.rs:27-32 | an answer is the product of two input rows read as binary numbers |
| Day03Part2.ExampleAnswer | aoc-rust/src/y2021/day03_2.rs:98-132 | the example gives 230 (23 x 10) |
| Day04.BitIsShift | aoc-rust/src/y2021/day04.rs:69-70 | the mask bit for index k is 1 << k |
| Day04.PosBounds | aoc-rust/src/y2021/day04.rs:43-54 | an index below 25 has row and column below 5, and index = 5 row + col |
| Day04.PosRowCol | aoc-rust/src/y2021/day04.rs:43-54 | row and col invert 5 row + col |
| Day04.FirstIndexIsFirst | aoc-rust/src/y2021/day04.rs:116-123 | `find_pos` returns the first index holding the number, and nothing exactly when the board lacks it |
| Day04.OpenMarks | aoc-rust/src/y2021/day04.rs:64-72 | `open` marks exactly the first cell holding the number, and nothing if it is absent |
| Day04.OpenConsistent | aoc-rust/src/y2021/day04.rs:69-70 | `open` keeps the invariant: bit c of rows[r] is set iff bit r of cols[c] is set |
| Day04.OpenIdempotent | aoc-rust/src/y2021/day04.rs:64-72 | opening the same number twice is opening it once |
| Day04.OpenMonotone | aoc-rust/src/y2021/day04.rs:69-70 | `open` never clears a mark |
| Day04.MarkCell | aoc-rust/src/y2021/day04.rs:69-70 | marking (row, col) marks that cell and no other |
| Day04.MarkedAtRow | aoc-rust/src/y2021/day04.rs:90-103 | under the invariant, the two checks of `is_marked_at` agree with the row mask alone |
| Day04.RowFullIff | aoc-rust/src/y2021/day04.rs:74-79 | rows[r] == 31 exactly when every cell of row r is marked |
| Day04.ColFullIff | aoc-rust/src/y2021/day04.rs:81-85 | cols[c] == 31 exactly when every cell of column c is marked |
| Day04.WinningIff | aoc-rust/src/y2021/day04.rs:74-88 | a board wins exactly when some row or some column is fully marked |
| Day04.BlankEmpty | aoc-rust/src/y2021/day04.rs:126-131 | a freshly parsed board is consistent, has no mark and does not win |
| Day04.AfterMarks | aoc-rust/src/y2021/day04.rs:64-72 | after a run of draws, the marks are the first positions of the drawn numbers present on the board |
| Day04.AfterKeepsWinning | aoc-rust/src/y2021/day04.rs:64-88 | a winning board stays winning whatever is drawn next |
| Day04.AfterConsistent | aoc-rust/src/y2021/day04.rs:69-70 | the mask invariant holds after any run of draws |
| Day04.TimesIsProduct | aoc-rust/src/y2021/day04.rs:178 | the score's multiplication by the draw is the product |
| Day04.FirstWinIsFirst | aoc-rust/src/y2021/day04.rs:172-184 | the first win is at the earliest draw at which any board wins, and within it at the lowest board index |
| Day04.PlayFindsFirstWin | aoc-rust/src/y2021/day04.rs:172-184 | `play` scores that first winner (sum of unmarked x draw), and gives nothing (the panic) when no board ever wins |
| Day04.PlayBoards | aoc-rust/src/y2021/day04.rs:172-184 | the boards after `play` have the same number and shape |
| Day04.FirstWinAt | aoc-rust/src/y2021/day04.rs:172-180 | the first board to win at the first winning draw is the first win |
| Day04.WinnersLosersPartition | aoc-rust/src/y2021/day04.rs:195-204 | winners and remains split the boards still playing |
| Day04.SortRoundSplits | aoc-rust/src/y2021/day04.rs:195-204 | one draw of `play_part2` opens every board still playing and sorts each into winners or remains |
| Day04.StillPlayingMembers | aoc-rust/src/y2021/day04.rs:187-214 | the boards still playing before a draw are exactly those that have not won |
| Day04.LosersAreStillPlaying | aoc-rust/src/y2021/day04.rs:214 | the remains of a draw are the boards still playing at the next draw |
| Day04.DrawSorts | aoc-rust/src/y2021/day04.rs:191-214 | each draw of `play_part2` leaves every board stopped at the draw it won, and keeps playing exactly the others |
| Day04.LastToWinUnique | aoc-rust/src/y2021/day04.rs:206 | at most one board, at one draw, wins last |
| Day04.SoleWinnerIsLast | aoc-rust/src/y2021/day04.rs:206 | a draw with no remains and one winner makes that board the last to win |
| Day04.PlayLastFindsLastWinner | aoc-rust/src/y2021/day04.rs:186-218 | `play_part2` gives a score exactly when one board wins alone after all others, and then that board's score; boards winning together at the end give nothing |
| Day04Parse.ParseBytes | aoc-rust/src/y2021/day04.rs:155-159 | the tokens parse exactly when each is a u8, and then to their values in order |
| Day04Parse.NumbersRoundTrip | aoc-rust/src/y2021/day04.rs:30-38 | any u8 list written with commas parses back to itself |
| Day04Parse.NumbersSound | aoc-rust/src/y2021/day04.rs:30-38 | the numbers are one per non-empty piece, each at most 255 |
| Day04Parse.NumbersOfPieces | aoc-rust/src/y2021/day04.rs:31-35 | the numbers are the non-empty comma pieces, trimmed, parsed as u8 |
| Day04Parse.NumbersEmpty | aoc-rust/src/y2021/day04.rs:258-262 | "" gives no numbers |
| Day04Parse.NumbersRejectLetter | aoc-rust/src/y2021/day04.rs:272-273 | "a" is rejected |
| Day04Parse.RowIff | aoc-rust/src/y2021/day04.rs:143-159 | a row parses exactly when it has 5 non-empty space-separated u8 tokens, and then to their values |
| Day04Parse.CardIff | aoc-rust/src/y2021/day04.rs:129-163 | a board parses exactly when it has 5 non-empty lines that each parse, and its cells are the rows in row-major order |
| Day04Parse.RowRoundTrip | aoc-rust/src/y2021/day04.rs:143-159 | five u8 values written with spaces parse back to themselves |
| Day04Parse.CardRoundTrip | aoc-rust/src/y2021/day04.rs:129-163 | any 25 u8 cells written as five lines parse back to an unmarked board of them |
| Day04Parse.CardsIff | aoc-rust/src/y2021/day04.rs:232-246 | the blocks give boards exactly when every block parses as a board |
| Day04Parse.CardsRoundTrip | aoc-rust/src/y2021/day04.rs:232-246 | boards written as blank-separated blocks parse back in order, the last block unterminated |
| Day04Parse.GameRoundTrip | aoc-rust/src/y2021/day04.rs:224-249 | a game written as the number line then the boards parses back to the same numbers and boards |
| Day04Board.Board.constructor | aoc-rust/src/y2021/day04.rs:56-61 | the default board: 25 zero cells and no mark |
| Day04Board.Board.FromStr | aoc-rust/src/y2021/day04.rs:126-164 | succeeds exactly when the text parses as a board, and then holds the parsed cells with no mark |
| Day04Board.Board.FromRows | aoc-rust/src/y2021/day04.rs:142-162 | filling the cells row by row succeeds exactly when every row parses |
| Day04Board.Board.FillRow | aoc-rust/src/y2021/day04.rs:143-159 | writes row `row`'s five cells after those read so far, and fails exactly when the row does not parse |
| Day04Board.Board.FindPos | aoc-rust/src/y2021/day04.rs:116-123 | returns the first index holding the number |
| Day04Board.Board.Open | aoc-rust/src/y2021/day04.rs:64-72 | the masks after the call are those of opening the number on the old board |
| Day04Board.Board.Mark | aoc-rust/src/y2021/day04.rs:66-70 | sets bit col of rows[row] and bit row of cols[col] |
| Day04Board.Board.IsWinning | aoc-rust/src/y2021/day04.rs:74-88 | true exactly when the board wins |
| Day04Board.Board.IsMarkedAt | aoc-rust/src/y2021/day04.rs:90-103 | true exactly when both masks mark the position |
| Day04Board.Board.AllUnmarked | aoc-rust/src/y2021/day04.rs:105-114 | the unmarked cells' values in index order |
| Day04Board.Board.ScoreAt | aoc-rust/src/y2021/day04.rs:178 | the sum of the unmarked cells times the draw |
| Day04Game.BingoGame.FromStr | aoc-rust/src/y2021/day04.rs:221-250 | succeeds exactly when the game text parses, with the first line's numbers and one board per block |
| Day04Game.BingoGame.ReadBoards | aoc-rust/src/y2021/day04.rs:232-246 | reads one board per blank-separated block, including a final unterminated one, and fails exactly when a block fails |
| Day04Game.BingoGame.Play | aoc-rust/src/y2021/day04.rs:172-184 | returns the first winner's score (nothing for the panic), and leaves the boards as `play` leaves them |
| Day04Game.BingoGame.PlayDraw | aoc-rust/src/y2021/day04.rs:174-180 | one draw: the boards open in turn until one wins, whose score is returned |
| Day04Game.BingoGame.PlayPart2 | aoc-rust/src/y2021/day04.rs:186-218 | returns the last winner's score (nothing for the panic), and leaves every board as it stood at the last draw played |
| Day04Game.BingoGame.LastDraw | aoc-rust/src/y2021/day04.rs:191-215 | one draw of `play_part2`: either the last winner's score, or the boards still playing |
| Day04Game.BingoGame.SortDraw | aoc-rust/src/y2021/day04.rs:192-204 | opens the draw on every board still playing and returns the winners and remains in order |
| Day04Game.BingoGame.OpenOn | aoc-rust/src/y2021/day04.rs:196-199 | opens one board, leaves the others, and reports whether it now wins |
| Day04Game.PlayStops | aoc-rust/src/y2021/day04.rs:177-178 | the boards stay as they were when the first winner returns |
| Day04Game.WonRoundsStay | aoc-rust/src/y2021/day04.rs:177-178 | once a board has won, later draws change nothing |
| Day04Game.LastRoundsSorted | aoc-rust/src/y2021/day04.rs:206-214 | a draw with no remains and one winner ends the game with its score; otherwise the remains play on |
| Day04Game.BuiltCards | aoc-rust/src/y2021/day04.rs:232-246 | the boards built so far are the parsed blocks read so far |
| Day04Game.BlockFails | aoc-rust/src/y2021/day04.rs:232-246 | one block that does not parse fails the whole game |
| Day04Game.GatherEnd | aoc-rust/src/y2021/day04.rs:244-246 | a final block without a blank line after it still becomes a board |
| Day05.UnitIsSign | aoc-rust/src/y2021/day05.rs:28-33 | each component of `unit` is in {-1, 0, 1}, with the sign of the component |
| Day05.AddSub | aoc-rust/src/y2021/day05.rs:36-54 | `+` and `-` on points undo each other |
| Day05.WalkStep | aoc-rust/src/y2021/day05.rs:99-108 | a walk with len >= 0 yields the current point, then the walk from current + delta with len - 1 |
| Day05.LineIterator.constructor | aoc-rust/src/y2021/day05.rs:147-151 | the iterator holds the current point, the delta and the length |
| Day05.LineIterator.Next | aoc-rust/src/y2021/day05.rs:99-108 | gives nothing exactly when len < 0; otherwise yields the current point, steps by delta and decrements len, and the points left are the rest of the walk |
| Day05.IterWithOptions | aoc-rust/src/y2021/day05.rs:131-152 | the iterator yields exactly the line's rasterization |
| Day05.SinglePointEmpty | aoc-rust/src/y2021/day05.rs:135 | a zero-length segment yields no points |
| Day05.AxisLine | aoc-rust/src/y2021/day05.rs:136-137 | a horizontal or vertical segment yields abs(d)+1 points from start to end, whatever the flag |
| Day05.DiagonalLine | aoc-rust/src/y2021/day05.rs:138-144 | a segment with both deltas nonzero yields points only with the flag and abs(dx) = abs(dy), then from start to end |
| Day05.HistCounts | aoc-rust/src/y2021/day05.rs:191-202 | the histogram has a key for exactly the visited points, counting each one's visits |
| Day05.Histogram | aoc-rust/src/y2021/day05.rs:191-202 | the map built over the field's lines is the histogram of all their points |
| Day05.CountLine | aoc-rust/src/y2021/day05.rs:196-200 | counting one more line's points gives the histogram with those points added |
| Day05.HistSnoc | aoc-rust/src/y2021/day05.rs:198-199 | one more point bumps its entry, starting from zero |
| Day05.DangerousPoints | aoc-rust/src/y2021/day05.rs:204-212 | a point is dangerous exactly when the lines visit it at least twice |
| Day05.PointRoundTrip | aoc-rust/src/y2021/day05.rs:63-88 | an i64 point written "x,y" parses back |
| Day05.PointSpaceAfter | aoc-rust/src/y2021/day05.rs:66-87 | trailing spaces are trimmed |
| Day05.PointSpaceBefore | aoc-rust/src/y2021/day05.rs:66-87 | leading spaces are trimmed |
| Day05.PointNeedsComma | aoc-rust/src/y2021/day05.rs:77-79 | a text without a comma is rejected |
| Day05.LineRoundTrip | aoc-rust/src/y2021/day05.rs:155-172 | a line written "x1,y1 -> x2,y2" parses back |
| Day05.LineNeedsArrow | aoc-rust/src/y2021/day05.rs:165-167 | a text without "->" is rejected |
| Day05.LinesIff | aoc-rust/src/y2021/day05.rs:219-222 | the field parses exactly when every line parses, to the lines in order |
| Day05.FieldRoundTrip | aoc-rust/src/y2021/day05.rs:215-229 | a field written one line per row parses back with the flag of its type |
| Day05.VerticalExample | aoc-rust/src/y2021/day05.rs:255-262 | 1,0 -> 1,2 yields its three points |
| Day05.HorizontalExample | aoc-rust/src/y2021/day05.rs:264-271 | 0,1 -> 2,1 yields its three points |
| Day05.EmptyExamples | aoc-rust/src/y2021/day05.rs:273-282 | a single point, a diagonal without the flag and a slope other than 45 degrees yield nothing |
| Day05.DiagonalExamples | aoc-rust/src/y2021/day05.rs:284-300 | both diagonals of the test yield their points |
| Day05.ParseExamples | aoc-rust/src/y2021/day05.rs:235-251 | "1,2" and "1,2 -> 3,4" parse as the tests expect |
| Day06.CountIsPopulation | aoc-rust/src/y2021/day06.rs:27-50 | the recurrence counts the fish a timer grows into, simulated day by day |
| Day06.NotYetSpawned | aoc-rust/src/y2021/day06.rs:32-49 | within t days a fish with timer t is still one fish |
| Day06.CountDown | aoc-rust/src/y2021/day06.rs:47-49 | a timer t > 0 only counts down: count(t, d) = count(0, d - t) |
| Day06.Period | aoc-rust/src/y2021/day06.rs:38-45 | a spawning fish's count follows count(0, d) = count(0, d-7) + count(0, d-9) |
| Day06.SimulateAppend | aoc-rust/src/y2021/day06.rs:62-64 | fish grow independently of each other |
| Day06.TotalIsPopulation | aoc-rust/src/y2021/day06.rs:58-67 | the sum of the counts is the simulated school's size |
| Day06.Memo | aoc-rust/src/y2021/day06.rs:27-50 | a key not in the memo gives the recurrence's value; a key in it gives what is stored, the wrong value for a spawning key |
| Day06.Spawn | aoc-rust/src/y2021/day06.rs:38-45 | a spawning fish returns count(6, d-1) + count(8, d-1) but leaves only count(8, d-1) stored at (0, d) |
| Day06.CountDownOne | aoc-rust/src/y2021/day06.rs:47-49 | a fish with timer > 0 returns and stores count(t-1, d-1) |
| Day06.TheNumberOfFish | aoc-rust/src/y2021/day06.rs:22-25 | with a fresh memo the answer is the recurrence's value |
| Day06.FishNum | aoc-rust/src/y2021/day06.rs:58-67 | the loop adds each fish's answer from the shared memo, as written |
| Day06.Shortfall | aoc-rust/src/y2021/day06.rs:38-67 | each timer-0 fish after the first is undercounted by count(6, days-1) |
| Day06.AsWrittenRight | aoc-rust/src/y2021/day06.rs:58-67 | with no days or at most one timer-0 fish, `fish_num` is right |
| Day06.NoDaysRight | aoc-rust/src/y2021/day06.rs:58-67 | after 0 days the answer is the number of fish |
| Day06.TwoZerosUndercount | aoc-rust/src/y2021/day06.rs:39-44 | two timer-0 fish after one day give 3, where the school has 4 fish |
| Day06.MemoFixed | aoc-rust/src/y2021/day06.rs:27-50 | with the sum stored at (0, d), every answer is the recurrence's value and the memo only grows with right entries |
| Day06.FishNumFixed | aoc-rust/src/y2021/day06.rs:58-67 | with the corrected memo, the total is the sum of the counts, the school's size |
| Day06.TimersIff | aoc-rust/src/y2021/day06.rs:74-77 | the pieces parse exactly when each trimmed piece is a u64, and then to their values |
| Day06.EmptyFails | aoc-rust/src/y2021/day06.rs:73-79 | empty input is rejected (one empty piece) |
| Day06.FishRoundTrip | aoc-rust/src/y2021/day06.rs:73-79 | a non-empty u64 list written with commas parses back |
| Day06.CountExamples | aoc-rust/src/y2021/day06.rs:99-137 | the seven (timer, days, count) cases of the test |
| Day06.SchoolTotal | aoc-rust/src/y2021/day06.rs:140-143 | the example school has 26 fish after 18 days |
| Day06.SchoolExample | aoc-rust/src/y2021/day06.rs:140-143 | `fish_num` as written also gives 26 for it (no fish starts at 0) |
| Day07.AbsDiff | aoc-rust/src/y2021/day07.rs:61-67 | the smaller plus the result is the larger, so the subtraction never underflows |
| Day07.AbsDiffIsDistance | aoc-rust/src/y2021/day07.rs:61-67 | `abs_diff` is abs(a-b), symmetric, and zero exactly on equal values |
| Day07.TriangleClosed | aoc-rust/src/y2021/day07.rs:69-77 | 1 + ... + d = d(d+1)/2 |
| Day07.AccDiffIsTriangle | aoc-rust/src/y2021/day07.rs:69-77 | both parity branches of `acc_diff` give 1 + 2 + ... + abs(a-b) |
| Day07.CostZeroIff | aoc-rust/src/y2021/day07.rs:61-77 | either cost is zero exactly when the crab is at the target |
| Day07.ComputeCostAppend | aoc-rust/src/y2021/day07.rs:56-58 | the cost of two groups of crabs is the sum of their costs |
| Day07.ComputeCostZeroIff | aoc-rust/src/y2021/day07.rs:56-58 | the total cost is zero exactly when every crab is at the target |
| Day07.CostCalculator.OptimalCost | aoc-rust/src/y2021/day07.rs:46-54 | the result is at most the cost at every index target and is one of them, or u64::MAX |
| Day07.BestIsLeast | aoc-rust/src/y2021/day07.rs:47-53 | the running minimum is at most every cost seen and is one of them or u64::MAX |
| Day07.BestAttained | aoc-rust/src/y2021/day07.rs:46-54 | if some target costs at most u64::MAX, the result is the cost of a target |
| Day07.NoDataNoCandidate | aoc-rust/src/y2021/day07.rs:47-53 | no data gives u64::MAX |
| Day07.IndicesNotValues | aoc-rust/src/y2021/day07.rs:49 | the targets are the indices: one crab at 5 costs 5, although target 5 would cost 0 |
| Day07.LinearAt1 | aoc-rust/src/y2021/day07.rs:88 | linear cost at target 1 is 41 |
| Day07.LinearAt2 | aoc-rust/src/y2021/day07.rs:89 | linear cost at target 2 is 37 |
| Day07.LinearAt3 | aoc-rust/src/y2021/day07.rs:90 | linear cost at target 3 is 39 |
| Day07.LinearAt10 | aoc-rust/src/y2021/day07.rs:91 | linear cost at target 10 is 71 |
| Day07.LinearOptimum | aoc-rust/src/y2021/day07.rs:94-100 | the linear optimum of the example is 37 |
| Day07.AccumulativeOptimum | aoc-rust/src/y2021/day07.rs:102-108 | the accumulative optimum of the example is 168 |

## Left out

- Every `solve`/`solve_part2` and `main.rs`: standard input, `unwrap` on the input and `println!` are I/O and dispatch.
- Error messages: each parser gives `Err` without the message text; only which inputs fail is modelled.
- `panic!` and `unwrap` aborts become results. `play` and `play_part2` give `None` where they panic (day04.rs:183,217). Day 3 part 2 gives `None` for a missing rating (day03_2.rs:31). `Bits::nth` on a short row gives `OutOfRange`.
- `HashMap` becomes a Dafny `map`. The order in which `dengerous_points` iterates is not modelled: the result is the set of dangerous points.
- The iterator plumbing (`scan`, `skip`, `flat_map`, `Box<dyn Iterator>`) becomes sequences.
- `Common.Lower`: only ASCII letters are lowered, where Rust's `to_lowercase` is Unicode-wide. No other character lowers to a letter of "forward", "up" or "down", so the accepted keywords are the same.
- `Line::new`, `Line::iter` and `Field::new` (day05.rs:117-129,184-190) are constructors and a wrapper used only by the tests; `IterWithOptions` and the `Field` datatype cover them.
- Day01Part2.SolveInner: the usize sum of each window (day01_2.rs:20) is unbounded; overflow is not modelled.
- Day02.FoldSums: `pos + x` and `depth + x` and the product `depth * pos` (day02.rs:20-25) are unbounded; overflow is not modelled.
- Day02.NeverAbove: the usize underflow of `depth - x` (day02.rs:21) and `aim - x` (day02_2.rs:23) is a panic in the source; the folds require that it does not happen.
- Day02Part2.Step: `aim * x`, `depth + aim * x` and `depth * pos` (day02_2.rs:22,27) are unbounded; overflow is not modelled.
- Day03.SolveInner: the i32 counters (day03.rs:14,27-28), `dg << i` for lines longer than 64 bits, and `gamma * epsilon` (day03.rs:40-44) are unbounded; overflow is not modelled.
- Day03Part2.ToU64IsValue: the u64 shift `x << i` for rows longer than 64 bits (day03_2.rs:56) and the product (day03_2.rs:31) are unbounded; overflow is not modelled.
- Day05.Add: i64 `+`, `-` and `abs` (day05.rs:40,50,136) are unbounded; parsing keeps the points in i64 range, and overflow of the arithmetic is not modelled.
- Day06.FishNum: the u64 sums (day06.rs:44,63) are unbounded, so the answers past u64 are not wrapped.
- Day07.CostCalculator.OptimalCost: the u64 sums of `compute_cost` and `(1 + d) * d` in `acc_diff` (day07.rs:57,73) are unbounded; overflow is not modelled.
- The example results of day 4 (4512 and 1924, day04.rs:346-402) are not proved, because of the verifier cost of evaluating the model on the literal example input. The bingo rules they exercise are proved in general (`Day04.PlayFindsFirstWin`, `Day04.PlayLastFindsLastWinner`).
- The example results of day 5 (5 and 12, day05.rs:335-369) and the `field_from_str` test (day05.rs:303-333) are not proved, for the same verifier cost. The single-line examples and the parsing round trips are proved.
- The day 6 results at 80 and 256 days (5934 and 26984457539, day06.rs:144,152) are not proved, for the same verifier cost. The 18-day result (26) and the per-fish counts of the tests are proved.
- The day 4 parse tests of `board_from_str`, `find_pos` and `board_open` (day04.rs:276-344) are covered by the general lemmas about those functions, not by their literal boards.

## Findings

| source | as written | input that shows it | evidently intended | confidence | as-written member | corrected member |
|---|---|---|---|---|---|---|
| aoc-rust/src/y2021/day06.rs:40-43 | a spawning fish's key (0, d) is stored twice; the second insert leaves count(8, d-1) there instead of the returned sum, so a later lookup of (0, d) from the shared memo in `fish_num` undercounts | `fish_num` of fish [0, 0] after 1 day: the first fish stores 1 at (0, 1) and the second reads it, total 3 where the school has 4 fish | store count(6, d-1) + count(8, d-1) at (0, d), so `fish_num` is the sum of the per-fish counts | not executed | Day06.TwoZerosUndercount | Day06.FishNumFixed |
