# Advent of Code solvers: a verified model

This project models, in Dafny, a collection of Advent of Code puzzle solvers. Each solver reads a puzzle text and computes two answers. The model covers:

- **The shared helpers.**
  - A bounds-checked grid `Grid<T>` with points, the eight compass directions, `walk` and `iter_adjacent`, `update`, `swap`, and parsing from text (`grid.dfy`).
  - A disjoint-set structure whose pairwise `insert` creates, extends or merges clusters (`disjointset.dfy`).
  - A directed acyclic graph with a stack-based path counter (`dag.dfy`).
  - A counting map (`countmap.dfy`).
  - Line-by-line parsing (`parse.dfy`).
- **Days 1, 2, 4 and 5 of 2024:** list distance and similarity, report safety, word search, and page-ordering rules.
- **Days 1 to 11 of 2025:**
  - dial rotations;
  - repeated-digit ids;
  - greedy battery selection;
  - paper-roll removal;
  - fresh-id ranges;
  - a column worksheet;
  - tachyon beams;
  - junction-box circuits;
  - the largest rectangle;
  - light-toggling machines;
  - counting paths through a cable rack.

Supporting modules model the Rust standard-library behaviour the solvers rely on:

- `wrappers.dfy`: `Option` and `Result`.
- `strings.dfy`:
  - `str::split`, `trim` and `split_ascii_whitespace`;
  - `FromStr` for integers.
- `decimal.dfy`: decimal arithmetic.
- `sorting.dfy`: a stable sort.

Each source file is one module, and each solver is one file: `y2024_dayN.dfy` or `y2025_dayN.dfy`.

The model follows the form of the code:

- **Objects updated in place are classes.** These are `Grid`, `DisjointSet`, `DirectedAcyclicGraph`, `CountMap`, day 5's `Rules`, day 10's `Machine` and day 8's heap. Their methods state their whole new state.
- **Loops are methods with invariants.** Each is proved against a specification function. The properties the code promises are proved as lemmas about that function, except where "## Left out" names a property that is not stated.
- **Panics become preconditions.** Examples are `unwrap`, `expect`, an index out of range, `panic!` and `u64` overflow in debug builds.
- **Handled errors become `Result`.**
- **Hash-set iteration order is a parameter.** Where the result could depend on it, the model either proves that it does not (the beams of day 7) or states the result for any order (day 5's `fix`).

## Model

| member | source | states |
|---|---|---|
| Grids.Offset | src/helpers/grid.rs:63-84 | each direction's step moves at most one cell along each axis and is never the zero step |
| Grids.OffsetsAreNeighbours | src/helpers/grid.rs:86-100 | `Direction::iter` yields eight distinct unit steps, and every non-zero step of at most one cell per axis is one of them |
| Grids.Grid.New | src/helpers/grid.rs:121-133 | succeeds exactly when every row is as long as the first, then holding the rows unchanged; otherwise fails with `MismatchedColumns` |
| Grids.Grid.Get | src/helpers/grid.rs:146-161 | `None` exactly for a point outside the grid; otherwise the value stored at row `y`, column `x` |
| Grids.Grid.RowWalk | src/helpers/grid.rs:164-170 | one row of `walk`: each column of the row once, west to east, with the value `get` returns there |
| Grids.Grid.Walk | src/helpers/grid.rs:163-171 | `rows * cols` pairs, each an in-grid point with the value `get` returns for it |
| Grids.Grid.WalkRowMajor | src/helpers/grid.rs:163-171 | `walk` visits points in strictly increasing row-major order and lists every in-grid cell |
| Grids.Grid.AdjacentMembers | src/helpers/grid.rs:173-178 | `iter_adjacent(p)` lists exactly the in-grid cells one step from `p`, each with its value |
| Grids.AdjacentAlongAppend | src/helpers/grid.rs:173-178 | the filtered map over two runs of directions is the filtered map of the first run followed by that of the second |
| Grids.InteriorHasEightNeighbours | src/helpers/grid.rs:173-178 | a cell strictly inside the border has all eight neighbours |
| Grids.CornerHasThreeNeighbours | src/helpers/grid.rs:173-178 | the top-left cell of a grid of at least 2 x 2 has exactly the east, south-east and south neighbours, in that order |
| Grids.Grid.Update | src/helpers/grid.rs:180-189 | outside the grid fails with `PointNotInGrid` and writes nothing; inside, writes `v` at `p`, and every other cell keeps its value |
| Grids.Grid.Swap | src/helpers/grid.rs:191-205 | fails and changes nothing when either point is outside; otherwise the two values are exchanged and every other cell is unchanged |
| Grids.ParseCharGrid | src/helpers/grid.rs:208-221 | the rows are the trimmed `'\n'`-separated lines; it fails exactly when their lengths differ |
| Grids.CharRowsJoin | src/helpers/grid.rs:208-221 | trimmed rows written one per line read back as the same rows |
| Grids.DigitRows | src/helpers/grid.rs:226-235 | one row per `'\n'`-separated line, each as long as its line, each entry the digit whose character is at that place |
| Grids.ParseDigitGrid | src/helpers/grid.rs:223-238 | the rows are the lines read digit by digit, untrimmed; it fails exactly when their lengths differ |
| DisjointSets.FirstMatch | src/helpers/disjointset.rs:14-20 | the index of the first cluster holding `x` or `y`, and no earlier cluster holds either |
| DisjointSets.RemoveAt | src/helpers/disjointset.rs:40 | `Vec::remove`: one element shorter, the others kept in order |
| DisjointSets.DisjointSet.constructor | src/helpers/disjointset.rs:9-11 | starts with no clusters |
| DisjointSets.DisjointSet.Insert | src/helpers/disjointset.rs:13-41 | the clusters become `Inserted(old, x, y)`, and the clusters stay pairwise disjoint |
| DisjointSets.InsertedDisjoint | src/helpers/disjointset.rs:13-41 | `insert` keeps the clusters pairwise disjoint |
| DisjointSets.InsertedJoins | src/helpers/disjointset.rs:13-41 | after `insert(x, y)`, `x` and `y` share a cluster |
| DisjointSets.InsertedCovers | src/helpers/disjointset.rs:13-41 | after `insert(x, y)`, an element is in some cluster exactly when it was before or is `x` or `y` |
| DisjointSets.InsertedFrom | src/helpers/disjointset.rs:13-41 | every element of a cluster afterwards, other than `x` and `y`, was in some cluster before |
| DisjointSets.InsertedKeeps | src/helpers/disjointset.rs:13-41 | two elements that shared a cluster still share one |
| DisjointSets.InsertedLen | src/helpers/disjointset.rs:13-41 | at most two clusters meet `{x, y}`; the count becomes one more, the same or one fewer as none, one or two do |
| DisjointSets.MatchCountCases | src/helpers/disjointset.rs:20-40 | the number of clusters meeting `{x, y}` in each of the branches `insert` takes |
| DisjointSets.InsertedIdempotent | src/helpers/disjointset.rs:13-41 | repeating an `insert` changes nothing |
| DisjointSets.NoSecondMatch | src/helpers/disjointset.rs:26-29 | when the first matching cluster holds both `x` and `y`, no later cluster meets either |
| DisjointSets.NoThirdMatch | src/helpers/disjointset.rs:31-40 | no cluster after the second matching one meets `{x, y}` |
| DisjointSets.DisjointSet.Sort | src/helpers/disjointset.rs:47-49 | the clusters are replaced by their stable sort, largest first, and stay pairwise disjoint |
| DisjointSets.SortBySize | src/helpers/disjointset.rs:47-49 | sorting by size is a permutation with non-increasing sizes, and clusters of equal size keep their order |
| DisjointSets.SortKeepsDisjoint | src/helpers/disjointset.rs:47-49 | sorting keeps the clusters pairwise disjoint |
| Dags.Dag.constructor | src/helpers/dag.rs:9-13 | starts with no nodes |
| Dags.Dag.Insert | src/helpers/dag.rs:15-17 | sets the children of `v`, replacing an earlier list; no other node changes |
| Dags.Dag.GetChildren | src/helpers/dag.rs:19-24 | `None` exactly for a node never inserted; otherwise its stored list |
| Dags.Dag.CountPaths | src/helpers/dag.rs:26-41 | on a graph whose part reachable from `start` is acyclic and has no missing entry, the stack loop returns `Paths(start)`, the number of paths to `end` |
| Dags.PathsAtEnd | src/helpers/dag.rs:31-32 | from `end` itself there is exactly one path, whatever its children |
| Dags.PathsThroughChildren | src/helpers/dag.rs:33-37 | a node other than `end` has at least as many paths as any of its children |
| Dags.TallyRankFree | src/helpers/dag.rs:26-41 | the path count does not depend on which rank witnesses acyclicity |
| CountMaps.CountMap.constructor | src/helpers/hashmap.rs:7 | starts with no counts |
| CountMaps.CountMap.InsertOrIncrement | src/helpers/hashmap.rs:8-11 | adds `v` to the count under `k`, starting from 0 for a new key; every other key is unchanged |
| CountMaps.IncrementedSum | src/helpers/hashmap.rs:8-11 | `insert_or_increment(k, v)` raises the sum of all counts by exactly `v` |
| Parse.ParseLines | src/helpers/parse.rs:3-12 | returns `ParsedLines` of the `'\n'`-separated lines; on success, one value per `'\n'`-separated line, in order, each parsed from the trimmed line; on failure, the error of the first line that does not parse, after lines that all parse |
| Parse.ParsedLinesOk | src/helpers/parse.rs:3-12 | `parse_lines` succeeds exactly when every trimmed line parses, and then holds one element per line, in order |
| Parse.ParsedLinesErr | src/helpers/parse.rs:3-12 | a failure carries the error of a line that does not parse, every earlier line having parsed |
| Parse.ParseLinesEmpty | src/helpers/parse.rs:3-12 | for any parser, empty input is one empty line: the result is the parse of `""` as the only element, or that parse's error |
| Strings.Split | src/y2025/day11.rs:12 | `str::split`: at least one piece, no piece holds the separator, and the pieces joined by the separator give back the input |
| Strings.SplitJoin | src/y2025/day11.rs:14 | splitting a join of separator-free pieces gives back the pieces |
| Strings.Trim | src/y2025/day11.rs:13 | `str::trim`: the slice of the input between its leading and trailing whitespace, which neither starts nor ends with whitespace and keeps every non-whitespace char |
| Strings.NonEmptyMembers | src/y2025/day11.rs:16 | `.filter(\|x\| !x.is_empty())` keeps exactly the non-empty pieces |
| Strings.TokensAreWords | src/y2024/day2.rs:10 | `split_ascii_whitespace` yields only non-empty tokens without ASCII whitespace |
| Strings.TokensJoin | src/y2024/day1.rs:27 | words joined by single spaces split back into the same words |
| Strings.ParseUnsigned | src/y2025/day10.rs:112 | `FromStr` for unsigned integers: a result is within the type's maximum and comes from an optional `+` and digits |
| Strings.ParseShow | src/y2025/day10.rs:112 | parsing the decimal rendering of an in-range number gives the number back |
| Strings.ParseSigned | src/y2024/day2.rs:11 | `FromStr` for signed integers: a result lies in the type's range |
| Strings.ParseShowSigned | src/y2024/day2.rs:11 | parsing the rendering of an in-range signed number gives the number back |
| Sorting.Sort | src/y2024/day1.rs:6-7 | the sort is a permutation of its input |
| Sorting.SortInPlace | src/y2024/day1.rs:6-7 | `slice::sort` leaves the array holding `Sort` of its old contents |
| Sorting.SortSorted | src/y2024/day1.rs:6-7 | the result of `Sort` is ordered |
| Sorting.SortStable | src/helpers/disjointset.rs:47-49 | `Sort` is stable: elements that compare equal keep their relative order |
| Sorting.SortedUnique | src/y2024/day1.rs:6-7 | two sorted permutations of the same elements under an antisymmetric order are equal, so any correct sort gives this result |
| Y2024Day1.Distance | src/y2024/day1.rs:5-12 | both vectors end up sorted in place, and the result is the sum of `\|a[i] - b[i]\|` over the sorted vectors |
| Y2024Day1.PairedDistanceZero | src/y2024/day1.rs:8-11 | two lists of equal length are at distance 0 exactly when they are equal |
| Y2024Day1.PairedDistancePrefix | src/y2024/day1.rs:8-11 | the distance reads only the first `\|a\|` entries of `b` |
| Y2024Day1.DistanceZeroIffSameIds | src/y2024/day1.rs:5-12 | two columns of the same length are at total distance 0 exactly when they hold the same ids with the same multiplicities |
| Y2024Day1.Similarity | src/y2024/day1.rs:14-23 | the memoised loop returns the sum, over the left ids `x`, of `x` times the number of occurrences of `x` on the right |
| Y2024Day1.SimilarityAddRight | src/y2024/day1.rs:14-23 | one more id `x` on the right adds `x` once per occurrence of `x` on the left |
| Y2024Day1.SimilaritySymmetric | src/y2024/day1.rs:14-23 | the similarity score is the same with the columns exchanged |
| Y2024Day1.ParseLine | src/y2024/day1.rs:27-33 | token 0 of a line is pushed on `col1`, token 1 on `col2` |
| Y2024Day1.Parse | src/y2024/day1.rs:25-35 | each column receives, in line order, the ids of that position on every line that has one |
| Y2024Day1.ParseLines | src/y2024/day1.rs:26-34 | the outer loop over the lines appends each line's ids to the columns |
| Y2024Day1.RenderLineIds | src/y2024/day1.rs:27-33 | a line written as two ids separated by a space is accepted and carries exactly those two ids |
| Y2024Day1.RenderColumns | src/y2024/day1.rs:25-35 | parsing lines written from two columns gives the columns back |
| Y2024Day1.RenderParse | src/y2024/day1.rs:25-35 | the whole text, lines joined by newlines, round-trips through `parse` |
| Y2024Day1.SampleDistance | src/y2024/day1.rs:59-66 | on the example the distance is 11 |
| Y2024Day1.SampleSimilarity | src/y2024/day1.rs:68-75 | on the example the similarity is 31 |
| Y2024Day2.IsSafe | src/y2024/day2.rs:16-44 | the loop answers true exactly when every step between neighbouring levels is 1 to 3 in size and has the sign of the first step |
| Y2024Day2.SafeIffMonotone | src/y2024/day2.rs:16-44 | a report is safe exactly when its levels all rise, or all fall, by 1 to 3 at a time |
| Y2024Day2.ShortIsSafe | src/y2024/day2.rs:25-43 | a report of fewer than two levels has no differences and is safe |
| Y2024Day2.Remove | src/y2024/day2.rs:57 | `Vec::remove`: one level shorter, the others kept in order |
| Y2024Day2.IsSafeWithRemoval | src/y2024/day2.rs:50-64 | true exactly when the report is safe, or is safe once some single level is removed |
| Y2024Day2.SafeImpliesSafeWithRemoval | src/y2024/day2.rs:51-53 | a safe report stays safe with the dampener |
| Y2024Day2.Count | src/y2024/day2.rs:46-48 | never more reports counted than there are |
| Y2024Day2.CountIndices | src/y2024/day2.rs:46-48 | `filter(..).count()` is the number of indices whose report passes the test |
| Y2024Day2.CountMonotone | src/y2024/day2.rs:46-68 | counting with a weaker test never counts fewer reports |
| Y2024Day2.CountSafeAtMostWithRemoval | src/y2024/day2.rs:46-68 | the dampener never lowers the count |
| Y2024Day2.FromLine | src/y2024/day2.rs:6-14 | `Report::from`: one level per whitespace-separated token, each the token read as an `i32` |
| Y2024Day2.Parse | src/y2024/day2.rs:71-75 | one report per `'\n'`-separated line, in order |
| Y2024Day2.RenderFromLine | src/y2024/day2.rs:6-14 | a report written as its levels separated by single spaces reads back as the same report |
| Y2024Day2.EmptyLineIsSafe | src/y2024/day2.rs:6-44 | an empty line parses to an empty report, which is safe |
| Y2024Day2.Sample1 | src/y2024/day2.rs:99 | `7 6 4 2 1` is safe, also with the dampener |
| Y2024Day2.Sample2 | src/y2024/day2.rs:100 | `1 2 7 8 9` is unsafe, and no single removal makes it safe |
| Y2024Day2.Sample3 | src/y2024/day2.rs:101 | `9 7 6 2 1` is unsafe, and no single removal makes it safe |
| Y2024Day2.Sample4 | src/y2024/day2.rs:102 | `1 3 2 4 5` is unsafe, but safe with the dampener |
| Y2024Day2.Sample5 | src/y2024/day2.rs:103 | `8 6 4 4 1` is unsafe, but safe with the dampener |
| Y2024Day2.Sample6 | src/y2024/day2.rs:104 | `1 3 6 7 9` is safe |
| Y2024Day2.SampleCounts | src/y2024/day2.rs:110-138 | on the example two reports are safe, and four with the dampener |
| Y2024Day4.DirectionIsWord | src/y2024/day4.rs:39-58 | true exactly when every letter of the word sits on the grid one, two, … steps from `p` along `d`; the empty word always matches |
| Y2024Day4.CountDirections | src/y2024/day4.rs:34-36 | at most one count per direction offered |
| Y2024Day4.FindWordsAtPoint | src/y2024/day4.rs:33-37 | at most eight directions match at a point |
| Y2024Day4.WordAtSplit | src/y2024/day4.rs:19-31 | the whole word reads from `p` exactly when `p` holds its first letter and the rest follows along `d` |
| Y2024Day4.SumStartsReadings | src/y2024/day4.rs:21-30 | summing per start cell the directions in which the rest follows counts (cell, direction) readings of the whole word |
| Y2024Day4.FindWordsCountsReadings | src/y2024/day4.rs:19-31 | `find_words` is the number of (cell, direction) pairs from which the whole word reads |
| Y2024Day4.Reverse | src/y2024/day4.rs:19-31 | letter `i` of the reversed word is letter `\|w\| - 1 - i` of the word |
| Y2024Day4.AlongBack | src/y2024/day4.rs:45-55 | stepping `i` times back along the opposite direction from `p + n·d` lands on `p + (n - i)·d` |
| Y2024Day4.WordAtReverse | src/y2024/day4.rs:19-58 | a word reads from `p` along `d` exactly when its reverse reads from its last cell along the opposite direction, so words found backwards are counted in the other direction |
| Y2024Day4.WordAtThree | src/y2024/day4.rs:39-58 | a three-letter word reads along `d` exactly when `p`, `p + d`, `p + 2d` hold its letters |
| Y2024Day4.MasAtCorners | src/y2024/day4.rs:87-90 | `MAS` or `SAM` through `c + d`: the centre is `A` and the corners `c`, `c + 2d` hold `M` and `S` in either order |
| Y2024Day4.IsXMasIffCrossingMas | src/y2024/day4.rs:64-91 | `is_x_mas` holds exactly when `MAS` (either way) reads on both diagonals crossing at `p` |
| Y2024Day4.CountXMas | src/y2024/day4.rs:60-62 | at most one X-MAS per cell walked |
| Y2024Day4.XMasInterior | src/y2024/day4.rs:69-78 | the centre of an X-MAS is at least one cell from every border |
| Y2024Day4.CountXMasNone | src/y2024/day4.rs:60-62 | with no centre on the walk the count is 0 |
| Y2024Day4.NoXMasInThinGrid | src/y2024/day4.rs:60-91 | a grid fewer than three cells wide or high holds no X-MAS |
| Y2024Day5.Lookup | src/y2024/day5.rs:83-90 | `entry(k).or_insert(HashSet::new())`: the stored set, or the empty set when `k` is absent |
| Y2024Day5.ParseRule | src/y2024/day5.rs:93-104 | a rule line gives two `u32` page numbers, or nothing when a piece is missing or not a number |
| Y2024Day5.ParseRuleShow | src/y2024/day5.rs:93-104 | the line `b\|a` written from two `u32`s parses back to `(b, a)` |
| Y2024Day5.FindMiddleBalanced | src/y2024/day5.rs:39-41 | in an odd-length update the middle page has as many pages before it as after it |
| Y2024Day5.Rules.constructor | src/y2024/day5.rs:75-80 | `Rules::new`: both maps empty and mirrored |
| Y2024Day5.Rules.AddRule | src/y2024/day5.rs:82-91 | `b` gains `a` in `rules_before`, `a` gains `b` in `rules_after`; the rules recorded are the old ones plus `b\|a` |
| Y2024Day5.Rules.ParseAndAddRule | src/y2024/day5.rs:93-106 | panics unless the line is two `u32`s separated by `\|`; records that rule and keeps the maps mirrored |
| Y2024Day5.Rules.Validate | src/y2024/day5.rs:108-122 | true exactly when no page of the update comes after a page it must precede |
| Y2024Day5.Rules.FirstFree | src/y2024/day5.rs:124-152 | the first index from `k` whose page no remaining page must precede, or the length |
| Y2024Day5.Rules.Pick | src/y2024/day5.rs:124-152 | an index of the remaining pages, free whenever some page is free |
| Y2024Day5.Rules.Fixed | src/y2024/day5.rs:124-152 | the corrected `fix` keeps the length of the update |
| Y2024Day5.Rules.FindFree | src/y2024/day5.rs:124-152 | the scan for the next page to emit finds `Pick` |
| Y2024Day5.Rules.Fix | src/y2024/day5.rs:124-152 | the corrected `fix` returns `Fixed(input)` |
| Y2024Day5.FixedPermutation | src/y2024/day5.rs:124-152 | the corrected `fix` returns a permutation of the update |
| Y2024Day5.FixedValid | src/y2024/day5.rs:56-67 | when the rules among the pages have no cycle, the fixed update passes `validate` |
| Y2024Day5.SomeFree | src/y2024/day5.rs:124-152 | without a cycle some remaining page is free, so the corrected `fix` never falls back |
| Y2024Day5.HeadInOrder | src/y2024/day5.rs:108-122 | a page that no page of an ordered tail must precede can go in front of it |
| Y2024Day5.RejectedExamples | src/y2024/day5.rs:190-200 | the example's updates 3, 4 and 5 are rejected by the rules they break |
| Y2024Day5.SumMiddleValidSkips | src/y2024/day5.rs:43-54 | an invalid update contributes nothing to the sum of middle pages |
| Y2024Day5.PopIf | src/y2024/day5.rs:140 | `pop_if` drops the last page only, and only when it is the page named |
| Y2024Day5.PushAndPopIf | src/y2024/day5.rs:138-141 | the stack gains the pages of the remainder in iteration order |
| Y2024Day5.Remainder | src/y2024/day5.rs:133-136 | the remaining input pages that `rules_after` says must precede `current` |
| Y2024Day5.EnumerateSingle | src/y2024/day5.rs:138 | a one-page `HashSet` has one iteration order |
| Y2024Day5.ExpandSingle | src/y2024/day5.rs:137-142 | with one page to place first, it and then `current` are pushed and the input maybe popped |
| Y2024Day5.FixAsWrittenDropsPages | src/y2024/day5.rs:124-152 | as written, `[61, 29]` under `61\|29` yields `[]`: both pages are lost |
| Y2024Day5.RemainderStuck | src/y2024/day5.rs:133-140 | with `61\|29` and no `13\|29`, `61` must precede `29` but `pop_if` cannot remove it from `[61, 13]` |
| Y2024Day5.StuckStep | src/y2024/day5.rs:127-149 | one pass from the stuck state pushes one more `61` and returns to the stuck state |
| Y2024Day5.StuckForever | src/y2024/day5.rs:127-149 | from the stuck state the loop never empties the input |
| Y2024Day5.StuckStart | src/y2024/day5.rs:127-149 | the first pass on `[61, 13, 29]` reaches the stuck state |
| Y2024Day5.FixAsWrittenLoops | src/y2024/day5.rs:124-152 | as written, `fix` never ends on `[61, 13, 29]` |
| Y2024Day5.FixedStep | src/y2024/day5.rs:124-152 | the corrected `fix` emits the picked page, then fixes the rest |
| Y2024Day5.FixedExample | src/y2024/day5.rs:214-222 | the corrected `fix` turns the fifth example update into `[61, 29, 13]` |
| Y2025Day1.From | src/y2025/day1.rs:23-37 | `L`/`R` picks the direction; the turn, full spins and remainder together, is the `u32` after the letter |
| Y2025Day1.FromRender | src/y2025/day1.rs:23-37 | a rotation written as its letter and click count reads back as the same rotation |
| Y2025Day1.Rotate | src/y2025/day1.rs:39-44 | the new dial position is below 100 |
| Y2025Day1.RotateOffset | src/y2025/day1.rs:39-44 | the dial ends where the whole signed turn, full spins included, takes it modulo 100 |
| Y2025Day1.RotateCountZeroes | src/y2025/day1.rs:46-65 | the position agrees with `rotate`; the count is at least the full spins, and exactly them from 0 |
| Y2025Day1.ZeroClicksRight | src/y2025/day1.rs:46-65 | turning right `n` clicks passes 0 once per multiple of 100 reached |
| Y2025Day1.ZeroClicksLeft | src/y2025/day1.rs:46-65 | turning left `n` clicks passes 0 once per multiple of 100 reached from above |
| Y2025Day1.RightCount | src/y2025/day1.rs:53-59 | to the right: the full spins, and one more when the remainder reaches 100 |
| Y2025Day1.LeftCount | src/y2025/day1.rs:53-59 | to the left: the full spins, and one more when the remainder reaches 0 from above |
| Y2025Day1.CountZeroesIsZeroClicks | src/y2025/day1.rs:46-65 | the count `rotate_count_zeroes` returns is the number of single clicks after which the dial shows 0 |
| Y2025Day1.CalculatePassword | src/y2025/day1.rs:74-84 | from 50, the number of rotations that leave the dial on 0 |
| Y2025Day1.CalculatePasswordSecure | src/y2025/day1.rs:86-95 | from 50, the sum of the zero counts of the rotations |
| Y2025Day1.SecureCountsStops | src/y2025/day1.rs:74-95 | the secure password is never below the plain one |
| Y2025Day1.StopCounted | src/y2025/day1.rs:46-65 | a rotation of at least one click that ends on 0 counts that stop |
| Y2025Day1.Parse | src/y2025/day1.rs:68-72 | one rotation per `'\n'`-separated line |
| Y2025Day1.Cons | src/y2025/day1.rs:74-95 | both passwords are sums over the rotations in order: one more rotation adds its own stop or count |
| Y2025Day1.ExamplePasswords | src/y2025/day1.rs:112-122 | on the example rotations the password is 3 and the secure password 6 |
| Y2025Day2.Digits | src/y2025/day2.rs:19-27 | every number has at least one digit |
| Y2025Day2.DigitsBounds | src/y2025/day2.rs:19-27 | `x` lies below `10^d` and, unless zero, at or above `10^(d-1)`, `d` being its digit count |
| Y2025Day2.DigitsUnique | src/y2025/day2.rs:19-27 | a number between `10^(e-1)` and `10^e` has exactly `e` digits |
| Y2025Day2.DigitsMono | src/y2025/day2.rs:19-27 | a larger number never has fewer digits |
| Y2025Day2.CountDigits | src/y2025/day2.rs:19-27 | the loop returns the number of decimal digits, one for zero |
| Y2025Day2.RepDigits | src/y2025/day2.rs:103 | doubling a block of `e` digits gives `2e` digits |
| Y2025Day2.RepOf | src/y2025/day2.rs:103 | the candidate `base * 10^exp + base` is the block written twice |
| Y2025Day2.RepMono | src/y2025/day2.rs:102-108 | a larger block gives a larger candidate, so candidates come out increasing |
| Y2025Day2.NearestBlock | src/y2025/day2.rs:71-79 | the nearest block is positive and has exactly the length returned with it |
| Y2025Day2.NearestBelow | src/y2025/day2.rs:71-79 | no block below the nearest one repeats to an id at or above `x` |
| Y2025Day2.NearestAbove | src/y2025/day2.rs:71-79 | no block above the nearest one repeats to an id at or below `x` |
| Y2025Day2.NearestCandidate | src/y2025/day2.rs:71-79 | the method returns the nearest block and its length |
| Y2025Day2.ParseRange | src/y2025/day2.rs:44-61 | succeeds exactly when there are two `-`-separated pieces that parse; a lone number gives `InvalidRange`, a bad piece `NotInteger` |
| Y2025Day2.ParseRangeShow | src/y2025/day2.rs:44-61 | `a-b` written in decimal parses back to the range |
| Y2025Day2.ListedSound | src/y2025/day2.rs:89-113 | every listed id is an invalid id of the range, and the list increases |
| Y2025Day2.ListedComplete | src/y2025/day2.rs:89-113 | every block in the scan whose id lies in the range is listed |
| Y2025Day2.ListedExact | src/y2025/day2.rs:89-113 | scanning from the lower end's nearest block lists exactly the invalid ids of the range |
| Y2025Day2.NearestRange | src/y2025/day2.rs:90-99 | the bounds the scan starts and stops at |
| Y2025Day2.PushBlocks | src/y2025/day2.rs:102-108 | the inner loop appends the ids of the blocks up to `z` that lie in the range |
| Y2025Day2.ListInvalidIds | src/y2025/day2.rs:89-113 | the result holds exactly the invalid ids of the range (a block of digits written twice), strictly increasing |
| Y2025Day2.IncreasingTail | src/y2025/day2.rs:89-113 | the tail of an increasing list holds exactly its members above the head |
| Y2025Day2.IncreasingUnique | src/y2025/day2.rs:89-113 | an increasing list is fixed by its members, so the result is determined |
| Y2025Day2.OnlyBlock | src/y2025/day2.rs:124-136 | when the neighbouring blocks fall outside the range, one block gives its only invalid id |
| Y2025Day2.NoBlock | src/y2025/day2.rs:124-136 | between two neighbouring blocks' ids a range holds no invalid id |
| Y2025Day2.ListExampleEleven | src/y2025/day2.rs:125 | `11-22` lists `[11, 22]` |
| Y2025Day2.ListExampleNinetyFive | src/y2025/day2.rs:126 | `95-115` lists `[99]` |
| Y2025Day2.ListExampleNineNineEight | src/y2025/day2.rs:127 | `998-1012` lists `[1010]` |
| Y2025Day2.ListExampleTwos | src/y2025/day2.rs:129 | `222220-222224` lists `[222222]` |
| Y2025Day2.ListExampleNone | src/y2025/day2.rs:130 | `1698522-1698528` lists nothing |
| Y2025Day2.ListExampleLong | src/y2025/day2.rs:128 | `1188511880-1188511890` lists `[1188511885]` |
| Y2025Day2.ListExampleFours | src/y2025/day2.rs:131 | `446443-446449` lists `[446446]` |
| Y2025Day2.ListExampleEights | src/y2025/day2.rs:132 | `38593856-38593862` lists `[38593859]` |
| Y2025Day2.ParseRangeExample | src/y2025/day2.rs:125 | `from_str("11-22")` is the range 11 to 22 |
| Y2025Day2.ParseRangeMissing | src/y2025/day2.rs:58 | a string without `-` is `InvalidRange` |
| Y2025Day2.ParseRangeEmptyMax | src/y2025/day2.rs:56 | an empty second piece is `NotInteger` |
| Y2025Day3.JoltageSnoc | src/y2025/day3.rs:56-65 | appending one digit shifts the joltage one decimal place |
| Y2025Day3.JoltageBound | src/y2025/day3.rs:56-65 | `n` digits spell a number below `10^n` |
| Y2025Day3.JoltageAppend | src/y2025/day3.rs:56-65 | the joltage of `a + b` is that of `a` shifted by `\|b\|` places plus that of `b` |
| Y2025Day3.JoltageFirstDifference | src/y2025/day3.rs:28-54 | between digit sequences of one length the first difference decides the larger joltage |
| Y2025Day3.JoltageAt | src/y2025/day3.rs:56-65 | a joltage splits after any digit into the shifted prefix plus the rest |
| Y2025Day3.Slot | src/y2025/day3.rs:40-47 | the first held digit from `place` that the battery beats, or none; it beats none before it |
| Y2025Day3.SelectedLength | src/y2025/day3.rs:32-51 | the held digits never exceed `num_batteries` nor the batteries seen, and never drop so low that the rest could not fill them |
| Y2025Day3.SelectedFull | src/y2025/day3.rs:32-51 | after the whole bank, `min(num_batteries, len)` digits are held |
| Y2025Day3.LexLeTrans | src/y2025/day3.rs:28-54 | the prefix-first lexicographic order is transitive |
| Y2025Day3.LexLeJoltage | src/y2025/day3.rs:28-54 | on sequences of one length, lexicographic order is joltage order |
| Y2025Day3.InsertGrows | src/y2025/day3.rs:39-50 | placing a battery never moves the held digits down the order |
| Y2025Day3.InsertBeats | src/y2025/day3.rs:33-50 | any earlier choice at most the held digits, followed by the new battery, is at most the held digits after placing it |
| Y2025Day3.Pick | src/y2025/day3.rs:28-54 | a choice of positions picks that many batteries |
| Y2025Day3.PickReplace | src/y2025/day3.rs:40-45 | choosing battery `i` after the first `q` of an earlier choice |
| Y2025Day3.SelectedPositions | src/y2025/day3.rs:32-51 | the held digits are batteries of the bank, in bank order |
| Y2025Day3.SelectedIsGreatest | src/y2025/day3.rs:32-51 | after `k` batteries the held digits are at least every admissible choice among them |
| Y2025Day3.AdmissibleLast | src/y2025/day3.rs:33-37 | an admissible choice that takes the last battery extends one among the earlier batteries |
| Y2025Day3.FullChoiceAdmissible | src/y2025/day3.rs:33-37 | every choice of exactly `num_batteries` batteries in bank order is admissible |
| Y2025Day3.PicksGap | src/y2025/day3.rs:28-54 | increasing positions grow by at least one a step |
| Y2025Day3.SelectedIsBest | src/y2025/day3.rs:28-54 | with at least `num_batteries` batteries, the result picks exactly `num_batteries` of them in order and no other such choice has a larger joltage |
| Y2025Day3.SelectedShortBank | src/y2025/day3.rs:48-50 | with fewer batteries than `num_batteries`, every battery is held |
| Y2025Day3.ConcatDigits | src/y2025/day3.rs:56-65 | returns the number the digits spell, first digit most significant, and leaves the vector empty |
| Y2025Day3.PlaceBattery | src/y2025/day3.rs:39-50 | the loop body replaces the first smaller held digit from `place` and drops the rest, or pushes when there is room |
| Y2025Day3.CalculateJoltage | src/y2025/day3.rs:28-54 | the joltage of the digits held after the whole bank, below `10^num_batteries` |
| Y2025Day3.ParseBank | src/y2025/day3.rs:67-69 | one digit per character, each its decimal value |
| Y2025Day3.SumJoltage | src/y2025/day3.rs:17-26 | the sum over the `'\n'`-separated lines of the joltage of each trimmed line's bank |
| Y2025Day3.SelectedNonIncreasing | src/y2025/day3.rs:39-50 | while the bank does not rise and there is room, every battery is pushed |
| Y2025Day3.SelectedKeep | src/y2025/day3.rs:39-50 | once full, batteries no larger than every held digit change nothing |
| Y2025Day3.SelectedOpening | src/y2025/day3.rs:39-50 | a bank opening with `num_batteries` non-increasing digits, followed by smaller ones, keeps its opening |
| Y2025Day3.ExampleSafeFirst | src/y2025/day3.rs:86 | `987654321111111` with two batteries gives 98 |
| Y2025Day3.ExampleSafeSecond | src/y2025/day3.rs:87 | `811111111111119` with two batteries gives 89 |
| Y2025Day3.ExampleUnsafeFirst | src/y2025/day3.rs:96 | `987654321111111` with twelve batteries gives 987654321111 |
| Y2025Day4.IsRollCell | src/y2025/day4.rs:42-44 | a cell is a roll exactly when it lies in the grid and holds `@` |
| Y2025Day4.RollsAlong | src/y2025/day4.rs:39 | at most one roll per direction |
| Y2025Day4.RollsAlongCounts | src/y2025/day4.rs:39 | along distinct offsets, the count is the number of distinct rolls reached |
| Y2025Day4.RollStepsAround | src/y2025/day4.rs:39 | the eight directions reach exactly the eight cells around `p` |
| Y2025Day4.AccessibleAround | src/y2025/day4.rs:38-40 | `is_accessible` holds exactly when fewer than four of the cells around `p` are rolls |
| Y2025Day4.AccessibleAlong | src/y2025/day4.rs:28-32 | no longer than the walk, and every cell kept is an accessible roll |
| Y2025Day4.AccessibleAlongFilter | src/y2025/day4.rs:28-32 | filtering an ascending walk stays ascending and keeps every accessible roll it lists |
| Y2025Day4.AscendingCard | src/y2025/day4.rs:34-36 | a strictly ascending list has as many entries as distinct points |
| Y2025Day4.AccessibleRollsExact | src/y2025/day4.rs:28-36 | `iter_accessible_rolls` lists each accessible roll of the grid once, in row-major order, so `count_accessible_rolls` is their number |
| Y2025Day4.AccessibleRollsMembers | src/y2025/day4.rs:28-32 | the listed points are exactly the accessible rolls, in ascending order |
| Y2025Day4.CountRollsUpdate | src/y2025/day4.rs:46-48 | replacing one row changes the roll count by the difference of the two rows |
| Y2025Day4.ClearRoll | src/y2025/day4.rs:46-48 | clearing a roll leaves one roll fewer |
| Y2025Day4.RemoveRoll | src/y2025/day4.rs:46-48 | `p` becomes `.` and every other cell keeps its value |
| Y2025Day4.AscendingDistinct | src/y2025/day4.rs:53 | a row-major ascending list repeats no point |
| Y2025Day4.RemoveRolls | src/y2025/day4.rs:58-60 | the new cells are the old cells with exactly the listed rolls made `.`, and the roll count drops by their number |
| Y2025Day4.AccessibleSetCells | src/y2025/day4.rs:28-44 | the accessible rolls of a grid are the rolls of its cells with fewer than four rolls among the eight cells around |
| Y2025Day4.ClearAllRolls | src/y2025/day4.rs:46-48 | clearing a set of points removes exactly the rolls in it |
| Y2025Day4.RoundsSettle | src/y2025/day4.rs:50-65 | the rounds end with no accessible roll, and the rolls left are among the rolls at the start |
| Y2025Day4.RoundsClear | src/y2025/day4.rs:50-65 | the cells at the end are the starting cells with the removed rolls made `.` and nothing else changed |
| Y2025Day4.RoundsCount | src/y2025/day4.rs:50-65 | the count is the number of rolls removed |
| Y2025Day4.RoundsKeepBraced | src/y2025/day4.rs:50-65 | a set of rolls in which every roll has at least four rolls of the set around it survives every round |
| Y2025Day4.RoundsLeaveBraced | src/y2025/day4.rs:50-65 | the rolls left form such a set, so they are the largest one |
| Y2025Day4.RemoveAccessibleRolls | src/y2025/day4.rs:50-65 | the cells and the count are `Rounds` of the starting cells: each round clears every roll accessible at its start, until a round finds none; the count plus the rolls left is the rolls at the start, no roll is accessible at the end, and only rolls became `.` |
| Y2025Day5.RangeLeOrder | src/y2025/day5.rs:25-29 | the derived order on ranges is a total order |
| Y2025Day5.ParseRange | src/y2025/day5.rs:40-57 | succeeds exactly when there are two `-`-separated pieces that parse as `u64`; a lone number gives `InvalidRange`, a bad piece `NotInteger` |
| Y2025Day5.ParseRangeShow | src/y2025/day5.rs:40-57 | `a-b` written in decimal parses back to the range |
| Y2025Day5.CoversSnoc | src/y2025/day5.rs:61-63 | the ids covered by a list of ranges are those of all but the last, and those of the last |
| Y2025Day5.CollapseSortedFacts | src/y2025/day5.rs:87-101 | collapsing ranges sorted by `min` gives separated ranges covering exactly the ids of the input |
| Y2025Day5.MergeFacts | src/y2025/day5.rs:88-100 | one loop step keeps the collected ranges separated and adds the ids of the new range |
| Y2025Day5.MergeIntoLast | src/y2025/day5.rs:89-97 | a range starting inside the last one widens it to the union of the two |
| Y2025Day5.MergePush | src/y2025/day5.rs:98-99 | a range starting after the last one ends is pushed after it |
| Y2025Day5.SortedMinSorted | src/y2025/day5.rs:86 | sorting under the derived order sorts by `min` |
| Y2025Day5.CoversPermutation | src/y2025/day5.rs:86 | a permutation of the ranges covers the same ids |
| Y2025Day5.CollapseCorrect | src/y2025/day5.rs:84-104 | `collapse` returns separated ranges covering exactly the ids of the input ranges |
| Y2025Day5.Collapse | src/y2025/day5.rs:84-104 | the vector ends sorted in place, and the result is the merge of the sorted ranges |
| Y2025Day5.IsFresh | src/y2025/day5.rs:106-128 | on separated ranges the binary search answers true exactly when some range contains `x` |
| Y2025Day5.CountFresh | src/y2025/day5.rs:130-132 | the number of ingredients some range contains |
| Y2025Day5.SpanCard | src/y2025/day5.rs:65-67 | a range holds `1 + max - min` ids |
| Y2025Day5.CoveredMembers | src/y2025/day5.rs:61-63 | the covered set holds exactly the ids some range contains |
| Y2025Day5.TotalFreshCovered | src/y2025/day5.rs:134-136 | on separated ranges `total_fresh` is the number of distinct fresh ids |
| Y2025Day5.CollapseSnoc | src/y2025/day5.rs:87-101 | collapsing one more range merges it into the collapse of the others |
| Y2025Day5.ExampleCollapseSorted | src/y2025/day5.rs:143-146 | the example ranges collapse to `3-5` and `10-20` |
| Y2025Day5.ExampleTotalFresh | src/y2025/day5.rs:161-165 | the collapsed example holds 14 fresh ids |
| Y2025Day5.SampleFresh | src/y2025/day5.rs:148-153 | of the example ingredients 5, 11 and 17 are fresh, 1, 8 and 32 are not |
| Y2025Day5.FreshCountSnoc | src/y2025/day5.rs:130-132 | one more ingredient adds one when it is fresh |
| Y2025Day5.ExampleCountFresh | src/y2025/day5.rs:155-159 | three of the example ingredients are fresh |
| Y2025Day6.Operators | src/y2025/day6.rs:29-36 | one operator per non-empty `' '`-separated piece of the last line |
| Y2025Day6.Numbers | src/y2025/day6.rs:40-45 | one number per field of the line, a field being a non-empty `' '`-separated piece |
| Y2025Day6.Columns | src/y2025/day6.rs:48-50 | column `c` holds the `c`-th number of every row, for the first `count` columns |
| Y2025Day6.FromStr | src/y2025/day6.rs:27-52 | always `Ok` (splitting never gives no line): the operators of the last line and one column per operator, read across the rows before the last |
| Y2025Day6.RenderLines | src/y2025/day6.rs:27-52 | a worksheet is written as one line per row plus the operator line |
| Y2025Day6.JoinAvoids | src/y2025/day6.rs:27-52 | a char in no piece and not the separator is not in the join |
| Y2025Day6.ShowHasNoSpace | src/y2025/day6.rs:41-43 | a number written in decimal holds no whitespace |
| Y2025Day6.TrimWord | src/y2025/day6.rs:42-43 | trimming a word without whitespace changes nothing |
| Y2025Day6.FieldsOfShows | src/y2025/day6.rs:41-43 | the fields of written numbers are those numbers |
| Y2025Day6.NumbersOfRow | src/y2025/day6.rs:40-45 | a written row reads back as its numbers |
| Y2025Day6.NonEmptyKeepsAll | src/y2025/day6.rs:32 | a filter on non-empty pieces keeps pieces that are all non-empty |
| Y2025Day6.OperatorsOfLine | src/y2025/day6.rs:29-36 | the written operator line reads back as the operators |
| Y2025Day6.RenderLinesSingle | src/y2025/day6.rs:28 | no written line holds `'\n'` |
| Y2025Day6.SplitRender | src/y2025/day6.rs:28 | splitting the written worksheet on `'\n'` gives its lines |
| Y2025Day6.RenderParts | src/y2025/day6.rs:28-46 | the operator line and the rows of the written worksheet |
| Y2025Day6.FromStrRender | src/y2025/day6.rs:27-52 | `from_str` reads a written worksheet back exactly |
| Y2025Day6.ApplyLaws | src/y2025/day6.rs:93-95 | sum and product are associative and commutative with 0 and 1 as identities |
| Y2025Day6.CalculateColumn | src/y2025/day6.rs:90-98 | the sum of the column for `+`, its product for `*`, within `u64` |
| Y2025Day6.Calculate | src/y2025/day6.rs:100-102 | the grand total stays within `u64` |
| Y2025Day6.ReduceAppend | src/y2025/day6.rs:93-95 | folding a concatenation combines the folds of its parts |
| Y2025Day6.ReduceRemove | src/y2025/day6.rs:93-95 | taking one number out takes its term out of the fold |
| Y2025Day6.ReducePermutation | src/y2025/day6.rs:90-98 | a column's value does not depend on the order of its numbers |
| Y2025Day6.ReduceZero | src/y2025/day6.rs:90-98 | a product is 0 exactly when a number is 0; a sum exactly when every number is |
| Y2025Day6.SampleCalculate | src/y2025/day6.rs:111-115 | the example worksheet, by columns, totals 4277556 |
| Y2025Day6.ColumnValue | src/y2025/day6.rs:90-98 | a three-number column's value, with no overflow on the way |
| Y2025Day6.UpwardStep | src/y2025/day6.rs:70-77 | one step up adds the cell's char unless blank and reads on from above |
| Y2025Day6.ReversedDigits | src/y2025/day6.rs:72-73 | reversing digits gives digits |
| Y2025Day6.UpValueSpells | src/y2025/day6.rs:67-77 | the value read upwards is the number the digits spell from top to bottom |
| Y2025Day6.NonBlanks | src/y2025/day6.rs:61-64 | no operator is blank |
| Y2025Day6.OpenColumn | src/y2025/day6.rs:61-64 | a non-blank cell adds its operator and a new empty column |
| Y2025Day6.PushValue | src/y2025/day6.rs:78-80 | a non-zero value goes at the end of the last column; nothing else changes shape |
| Y2025Day6.GridSheet | src/y2025/day6.rs:56-84 | one column per operator, the operators the non-blank cells of the bottom row |
| Y2025Day6.GridReadablePrefix | src/y2025/day6.rs:60 | readability holds on every prefix of the bottom row |
| Y2025Day6.ReadColumn | src/y2025/day6.rs:67-77 | the inner loop returns the value read upwards |
| Y2025Day6.GridSheetStep | src/y2025/day6.rs:60-81 | the worksheet after one more cell of the bottom row |
| Y2025Day6.FromGrid | src/y2025/day6.rs:56-84 | returns the worksheet the bottom row and the columns above it spell |
| Y2025Day7.ListsMembers | src/y2025/day7.rs:42 | a hash-set iteration order lists exactly the set's members |
| Y2025Day7.RoundStops | src/y2025/day7.rs:42-56 | once a beam has left the grid, the rest of the round changes nothing (the `break`) |
| Y2025Day7.RoundReaches | src/y2025/day7.rs:42-56 | when no beam leaves the grid, the new beams are the cells the beams reach, whatever the iteration order |
| Y2025Day7.RoundSplits | src/y2025/day7.rs:42-56 | when no beam leaves the grid, a round over beams listed once each counts one split per beam whose next cell is `^` |
| Y2025Day7.ListsOnce | src/y2025/day7.rs:42 | iterating a hash set lists each beam once |
| Y2025Day7.RoundSplitsOrderFree | src/y2025/day7.rs:42-56 | when no beam leaves the grid, the splits of a round are the beams whose next cell is `^`, whatever the iteration order |
| Y2025Day7.RoundLevel | src/y2025/day7.rs:42-56 | all new beams sit one row down, inside the grid |
| Y2025Day7.BeamRound | src/y2025/day7.rs:41-56 | one pass yields the beams and the splits of one round in iteration order |
| Y2025Day7.CountBeamSplits | src/y2025/day7.rs:34-65 | the number of splits is `Splits` from the start cell: each round's splits (by `RoundSplitsOrderFree`, the beams whose next cell is `^` when no beam leaves the grid), round after round until a round leaves no beam |
| Y2025Day7.TimelinesFollowBeams | src/y2025/day7.rs:67-93 | timelines sit exactly where `count_beam_splits` puts the beams, and stop in the same round |
| Y2025Day7.TimelineRoundSum | src/y2025/day7.rs:75-87 | the new counts add up to what the round carries on: no timeline is lost or made up |
| Y2025Day7.SeqSumListing | src/y2025/day7.rs:123 | adding the counts in iteration order gives the sum of the map |
| Y2025Day7.SeqSumSame | src/y2025/day7.rs:123 | the sum over listed keys depends only on their counts |
| Y2025Day7.CarriedCovers | src/y2025/day7.rs:75-87 | in a round where no beam leaves the grid every timeline is carried on at least once |
| Y2025Day7.TimelinesNeverShrink | src/y2025/day7.rs:73-93 | a full round never lowers the number of timelines |
| Y2025Day7.TimelinesNext | src/y2025/day7.rs:73-93 | a round that leaves timelines goes on from them one row down, with the same final counts and the same total |
| Y2025Day7.TimelinesLast | src/y2025/day7.rs:89-91 | a round that leaves no timeline ends with the counts before it |
| Y2025Day7.CountQuantumTimelines | src/y2025/day7.rs:67-124 | the sum of the counts once a round leaves no timeline, starting from one timeline at the start cell |
| Y2025Day7.TimelineStep | src/y2025/day7.rs:74-87 | one pass builds the round's new counts through `insert_or_increment` |
| Y2025Day7.SumCounts | src/y2025/day7.rs:123 | the sum of the map's counts |
| Y2025Day7.RoundStopsTimelines | src/y2025/day7.rs:77-80 | once a timeline has left the grid, the rest of the round changes nothing |
| Y2025Day8.Distance | src/y2025/day8.rs:33-37 | the squared distance, where it does not panic, fits in `i64` |
| Y2025Day8.SquareNeg | src/y2025/day8.rs:34 | a difference and its negation square alike |
| Y2025Day8.SquareZero | src/y2025/day8.rs:34 | a square is 0 exactly for 0 |
| Y2025Day8.DistanceSymmetric | src/y2025/day8.rs:33-37 | `distance` panics for both orders of the boxes or neither, and agrees in both |
| Y2025Day8.DistanceZero | src/y2025/day8.rs:33-37 | the distance is 0 exactly between a box and itself |
| Y2025Day8.DistanceSample | src/y2025/day8.rs:194-199 | the unit test's two boxes are 103401 apart |
| Y2025Day8.WallDistanceSymmetric | src/y2025/day8.rs:39-41 | `wall_distance` does not depend on the order of the boxes |
| Y2025Day8.FromSlice | src/y2025/day8.rs:43-53 | exactly three values make a box, in the order `x`, `y`, `z`; anything else is `WrongDimension` |
| Y2025Day8.FromSliceCoords | src/y2025/day8.rs:43-53 | a box is recovered from its coordinates |
| Y2025Day8.ParseI64 | src/y2025/day8.rs:67 | a parsed value fits in `i64` |
| Y2025Day8.ParseAll | src/y2025/day8.rs:66-71 | all pieces parse, each to its value, or the result is none |
| Y2025Day8.FromStr | src/y2025/day8.rs:65-73 | `NotAnInteger` exactly when some piece fails to parse; otherwise `WrongDimension` exactly when there are not three pieces |
| Y2025Day8.FromStrRender | src/y2025/day8.rs:65-73 | `x,y,z` written from a box parses back to the box |
| Y2025Day8.ConnLeOrder | src/y2025/day8.rs:25-30 | the derived orders on boxes and on connections are total orders |
| Y2025Day8.OrderedSorted | src/y2025/day8.rs:118-126 | a queue ordered between neighbours is sorted |
| Y2025Day8.ConnectionHeap.constructor | src/y2025/day8.rs:118 | a new heap is empty |
| Y2025Day8.ConnectionHeap.Push | src/y2025/day8.rs:124 | the connection joins the queue in its place under the order |
| Y2025Day8.ConnectionHeap.Pop | src/y2025/day8.rs:135 | `None` on an empty heap, otherwise the least connection, which leaves the heap |
| Y2025Day8.PairsBeforeCount | src/y2025/day8.rs:119-122 | the pairs started by the first `i` boxes number `i(2n - i - 1)/2` |
| Y2025Day8.PairsCount | src/y2025/day8.rs:119-122 | `combinations(2)` gives `n(n - 1)/2` connections |
| Y2025Day8.PairsBeforeHas | src/y2025/day8.rs:119-122 | each pair of an earlier and a later box is listed |
| Y2025Day8.PairsBeforeFrom | src/y2025/day8.rs:119-122 | every listed connection links a box to a later one |
| Y2025Day8.PairsMembers | src/y2025/day8.rs:119-122 | the connections are exactly those from a box to a later box |
| Y2025Day8.AllPairs | src/y2025/day8.rs:117-127 | a fresh heap holding one connection per pair, which pops them in the order of the pairs sorted by the derived order |
| Y2025Day8.PushPairs | src/y2025/day8.rs:119-125 | every pair of boxes is pushed |
| Y2025Day8.PopOrderShortestFirst | src/y2025/day8.rs:117-127 | the heap hands out every pair once, shortest first |
| Y2025Day8.HeapOrder | src/y2025/day8.rs:117-127 | a sorted queue of every pair is the pop order, which is therefore determined |
| Y2025Day8.PushRow | src/y2025/day8.rs:119-125 | the connections of box `i` to every later box, in order, are pushed |
| Y2025Day8.JoinedDisjoint | src/y2025/day8.rs:159-161 | the circuits stay pairwise disjoint |
| Y2025Day8.JoinedConnects | src/y2025/day8.rs:159-161 | every connection joined leaves its two boxes in one circuit |
| Y2025Day8.JoinedCovers | src/y2025/day8.rs:159-161 | a box is in a circuit exactly when it is an end of a connection joined |
| Y2025Day8.AddConnection | src/y2025/day8.rs:159-161 | the two boxes of the connection are inserted together |
| Y2025Day8.JoinCircuits | src/y2025/day8.rs:131-140 | the first `k` connections popped are joined into fresh circuits and leave the heap |
| Y2025Day8.NeverOneStep | src/y2025/day8.rs:147-154 | one more connection that does not complete a single circuit extends the run |
| Y2025Day8.JoinAllCircuits | src/y2025/day8.rs:142-155 | `None` when the heap runs out before a single circuit holds every box; otherwise the connection whose join first completed it |
| Y2025Day8.SeqSetCard | src/y2025/day8.rs:151 | a list has at least as many entries as distinct members |
| Y2025Day8.OneCircuitSpans | src/y2025/day8.rs:151 | a single circuit of `len` boxes, joined from connections among the boxes, holds every box, and the boxes are distinct |
| Y2025Day8.ProductTopCircuits | src/y2025/day8.rs:163-166 | the circuits end sorted largest first, and the result is the product of the first `take` sizes |
| Y2025Day8.TopCircuitsLargest | src/y2025/day8.rs:163-166 | the sort keeps the circuits and puts the first `take` at least as large as every later one |
| Y2025Day8.TopProductPositive | src/y2025/day8.rs:163-166 | every factor is a circuit size: no empty circuit makes it at least 1, an empty one among the first `take` makes it 0 |
| Y2025Day9.Area | src/y2025/day9.rs:22-25 | the tiles of the rectangle, edges included: at least 1, at least each side's length, within `i64` |
| Y2025Day9.AreaSymmetric | src/y2025/day9.rs:22-25 | `area` panics for both orders of the corners or neither, and agrees in both |
| Y2025Day9.AreaSelf | src/y2025/day9.rs:22-25 | a single tile has area 1 |
| Y2025Day9.MaxWith | src/y2025/day9.rs:33-39 | the largest area with one given corner: attained, and no other corner does better |
| Y2025Day9.MaxRectangle | src/y2025/day9.rs:33-39 | the largest area over all pairs of tiles: attained by a pair, and no pair does better |
| Y2025Day9.MaxRectangleSample | src/y2025/day9.rs:46-59 | the unit test's largest rectangle covers 50 tiles |
| Y2025Day9.SampleBound | src/y2025/day9.rs:46-53 | no pair of the unit test's tiles spans more than 50 tiles |
| Y2025Day10.Xor | src/y2025/day10.rs:37 | `a ^ b`: the lights on in exactly one of the two masks |
| Y2025Day10.XorSelf | src/y2025/day10.rs:37 | toggling by the same mask twice restores the lights |
| Y2025Day10.XorAssoc | src/y2025/day10.rs:37 | toggling is associative |
| Y2025Day10.XorEmpty | src/y2025/day10.rs:37 | the empty mask toggles nothing |
| Y2025Day10.PressTwice | src/y2025/day10.rs:36-38 | pressing the same button twice in a row changes nothing |
| Y2025Day10.PressFrom | src/y2025/day10.rs:36-42 | pressing from any lights is those lights toggled by pressing from dark lights |
| Y2025Day10.PressLight | src/y2025/day10.rs:36-38 | a light ends on exactly when its start and the parity of its toggles differ, whatever the order of presses |
| Y2025Day10.PressSample | src/y2025/day10.rs:147-163 | the lights after each of the unit test's six presses |
| Y2025Day10.IncreasingCons | src/y2025/day10.rs:50 | an increasing sequence is its first index then an increasing sequence above it |
| Y2025Day10.Headed | src/y2025/day10.rs:50 | each sequence with `lo` put in front |
| Y2025Day10.HeadedHas | src/y2025/day10.rs:50 | a sequence is listed with `lo` in front exactly when it starts with `lo` and its rest is listed |
| Y2025Day10.Combinations | src/y2025/day10.rs:50 | every combination names buttons of the machine |
| Y2025Day10.CombinationsExist | src/y2025/day10.rs:50 | there is a way to choose `k` indices of `lo..n` when `lo + k <= n` |
| Y2025Day10.CombinationsSound | src/y2025/day10.rs:50 | every combination is increasing over `lo..n` and of length `k` |
| Y2025Day10.IncreasingWeaken | src/y2025/day10.rs:50 | an increasing sequence above `lo` is increasing above any lower bound |
| Y2025Day10.CombinationsComplete | src/y2025/day10.rs:50 | every increasing sequence of length `k` over `lo..n` is a combination |
| Y2025Day10.HitsDark | src/y2025/day10.rs:50-58 | from dark lights, a size succeeds exactly when one of its combinations reaches the target |
| Y2025Day10.HitsReaches | src/y2025/day10.rs:50-58 | from dark lights, size `k` succeeds exactly when some `k` distinct buttons reach the target |
| Y2025Day10.SearchLeast | src/y2025/day10.rs:48-61 | the search from size `from` finds the least size that reaches the target |
| Y2025Day10.MinPressesLeast | src/y2025/day10.rs:48-61 | from dark lights, `Some(k)` exactly when `k` is the least number of distinct buttons, below the number of buttons, that reaches the target |
| Y2025Day10.SearchNone | src/y2025/day10.rs:48-61 | the search from size `from` fails exactly when no larger size reaches the target |
| Y2025Day10.MinPressesNone | src/y2025/day10.rs:48-61 | from dark lights, `None` exactly when no set of one to all-but-one distinct buttons reaches the target |
| Y2025Day10.PressOne | src/y2025/day10.rs:36-38 | one press from dark lights gives the button's mask |
| Y2025Day10.PressTwo | src/y2025/day10.rs:36-38 | two presses give the XOR of the masks |
| Y2025Day10.PressThree | src/y2025/day10.rs:36-38 | three presses give the XOR of the three masks |
| Y2025Day10.NoneOfOne | src/y2025/day10.rs:50-58 | no single button reaches a target no mask equals |
| Y2025Day10.NoneOfTwo | src/y2025/day10.rs:50-58 | no two buttons reach a target no two masks XOR to |
| Y2025Day10.MinPressesSample1 | src/y2025/day10.rs:166 | the first example machine needs two presses |
| Y2025Day10.MinPressesSample2 | src/y2025/day10.rs:167 | the second example machine needs three presses |
| Y2025Day10.TripleSample2 | src/y2025/day10.rs:167 | three of the second machine's buttons reach its target |
| Y2025Day10.PairSample2 | src/y2025/day10.rs:167 | no two of the second machine's buttons reach its target |
| Y2025Day10.MinPressesSample3 | src/y2025/day10.rs:168 | the third example machine needs two presses |
| Y2025Day10.Machine.constructor | src/y2025/day10.rs:115-120 | a machine as `from_str` builds it: lights dark |
| Y2025Day10.Machine.PushButton | src/y2025/day10.rs:36-38 | the lights are toggled by the button's mask; nothing else changes |
| Y2025Day10.Machine.Reset | src/y2025/day10.rs:40-42 | every light off; nothing else changes |
| Y2025Day10.Machine.IsAtTarget | src/y2025/day10.rs:44-46 | true exactly when the lights equal the target |
| Y2025Day10.Machine.PushAll | src/y2025/day10.rs:51-53 | the lights after pressing every button of the combination in turn |
| Y2025Day10.Machine.TryCombinations | src/y2025/day10.rs:50-58 | succeeds exactly when some combination reaches the target, the first from the current lights and the others from dark lights; on success the lights are at the target |
| Y2025Day10.Machine.FindMinPresses | src/y2025/day10.rs:48-61 | the least set size that reaches the target, tried from 1 to all but one, or `None`; on success the lights are at the target |
| Y2025Day10.SumMinPresses | src/y2025/day10.rs:18-25 | the sum of each machine's least presses |
| Y2025Day10.LightsMaskBits | src/y2025/day10.rs:82-88 | light `j` of the target is on exactly when position `j` of the diagram is `#` |
| Y2025Day10.LightsMaskStep | src/y2025/day10.rs:84-88 | one more position of the diagram adds its light when it is `#` |
| Y2025Day10.TargetMask | src/y2025/day10.rs:82-88 | the loop builds the diagram's target mask |
| Y2025Day10.IndicesMaskBits | src/y2025/day10.rs:94-103 | a button toggles light `j` exactly when `j` is one of its indices |
| Y2025Day10.ButtonIndices | src/y2025/day10.rs:95-101 | one index per comma-separated piece, each the piece read as `u16`, all below 16 |
| Y2025Day10.IndicesMaskStep | src/y2025/day10.rs:101-103 | one more index adds its light to the mask |
| Y2025Day10.ButtonMask | src/y2025/day10.rs:94-103 | the loop builds the mask of the group's indices |
| Y2025Day10.GroupIndices | src/y2025/day10.rs:93-105 | each group's indices are below 16 |
| Y2025Day10.ButtonMasks | src/y2025/day10.rs:92-105 | one mask per button group, in order |
| Y2025Day10.FromCaptures | src/y2025/day10.rs:82-120 | a fresh machine: lights dark, the diagram's target, one mask per group, and one `u32` joltage per comma-separated piece |
| Y2025Day10.MasksSample | src/y2025/day10.rs:134-145 | the unit test's target `0b0110` and button masks |
| Y2025Day11.Name | src/y2025/day11.rs:13-15 | the name is the part of the trimmed line before the first `:`, holding none |
| Y2025Day11.Children | src/y2025/day11.rs:16 | the children are non-empty and hold no space |
| Y2025Day11.GraphKeys | src/y2025/day11.rs:10-20 | a node is in the graph exactly when some line names it |
| Y2025Day11.GraphLastLine | src/y2025/day11.rs:10-20 | a node's children come from the last line that names it |
| Y2025Day11.Parse | src/y2025/day11.rs:10-20 | a fresh graph mapping each name, taken from the lines in order, to the children of the last line naming it |
| Y2025Day11.CountPathsYouToOut | src/y2025/day11.rs:27-29 | the number of paths from `you` to `out` |
| Y2025Day11.SpacedJoin | src/y2025/day11.rs:16 | a name followed by spaced children is the space-join of them |
| Y2025Day11.SpacedLabels | src/y2025/day11.rs:13-16 | spaced labels hold no `:` nor line break and do not end in whitespace |
| Y2025Day11.NonEmptyLabels | src/y2025/day11.rs:16 | the filter on non-empty words keeps labels |
| Y2025Day11.FormatParses | src/y2025/day11.rs:13-17 | a line `name: child ...` reads back as its name and children |
| Y2025Day11.Lines | src/y2025/day11.rs:12 | one line per name, listing its children |
| Y2025Day11.ParseLines | src/y2025/day11.rs:10-20 | lines of distinct names joined by line breaks parse to a graph giving each name its children |
| Y2025Day11.SampleLower | src/y2025/day11.rs:36-45 | the sample's names are distinct lower-case words |
| Y2025Day11.SampleSplit | src/y2025/day11.rs:36-45 | the sample splits into its ten lines |
| Y2025Day11.SampleEntries | src/y2025/day11.rs:36-45 | the sample graph's entries for the nodes the walk from `you` uses |
| Y2025Day11.ParseSample | src/y2025/day11.rs:47-54 | in the parsed sample `you` has the child `bbb` |
| Y2025Day11.PathsOfOne | src/y2025/day11.rs:27-29 | a node with one child has that child's paths |
| Y2025Day11.PathsOfTwo | src/y2025/day11.rs:27-29 | a node with two children has the sum of their paths |
| Y2025Day11.PathsOfThree | src/y2025/day11.rs:27-29 | a node with three children has the sum of their paths |
| Y2025Day11.SampleExplorable | src/y2025/day11.rs:36-45 | every cable from `you` leads to a lower rank, so the walk ends |
| Y2025Day11.SamplePaths | src/y2025/day11.rs:56-60 | five paths from `you` to `out` in a graph with the sample's entries |
| Y2025Day11.CountSample | src/y2025/day11.rs:56-60 | five paths lead from `you` to `out` in the parsed sample |

## Left out

- **Program entry and inputs:** `main`, the `run` functions, the day-dispatch tables, the `include_str!` puzzle inputs, and the `test_solution*` assertions pinned to those inputs. These are I/O and glue, or depend on files outside the code.
- **Integer widths:** `usize`, `i32`, `i64`, `u16`, `u32` and `u64` are unbounded integers. An overflow panic becomes a precondition where the code computes in that width (`Distance`, `Area`, `CalculateColumn`, `Calculate`, `SumMinPresses`, `ProductTopCircuits`). Elsewhere the bound is not stated.
- **Grid's `fmt::Display`:** it is `todo!()` and has nothing to model.
- **`DisjointSet::iter` and `len`:** they are the `sets` field and its length. They need no contract beyond that.
- **Helpers not in `grid.rs`:** `Grid::walk_row`, `Grid::search` and `Point::up`, `down`, `left`, `right` are called by days 6 and 7 but are not defined in `grid.rs`. They are method parameters: the cells of the bottom row, the start cell, and functions on points.
- Y2025Day6.FromGrid: its example, 3263827, is not stated, because it depends on `walk_row`.
- Y2025Day7.CountBeamSplits: its example, 21 splits, is not stated, because it depends on `search` and `down`/`left`/`right`.
- **Beams leaving the grid at a side:** when a beam's next cell is off the grid, the `break` in `count_beam_splits` drops the beams listed after it, so the count can depend on the iteration order. `Splits` is stated for any order. Order independence is proved only for rounds in which no beam leaves (`RoundSplitsOrderFree`).
- Y2025Day7.CountQuantumTimelines: its example, 40 timelines, is not stated, for the same reason.
- **Hash-set and hash-map iteration order** is nondeterministic in Rust and is a parameter (`order`).
- **`parse_lines` used as an iterator:** days 8, 9 and 10 use the result of `parse_lines` as an iterator (`.collect()`, or returned as `impl Iterator`). But `parse_lines` returns a `Result<Vec<T>, T::Err>` (`src/helpers/parse.rs:3`), not an iterator. Their `parse` functions are not modelled. The elements they would parse are modelled (`Y2025Day8.FromStr`; `Point` parsing is not part of this model).
- Y2025Day10.FromCaptures: the regular-expression match of `Machine::from_str` (`src/y2025/day10.rs:73-81`) is done by the `regex` crate, which is not part of this model. The model starts from the captured diagram, button groups and joltages.
- **Day 10 masks:** a `u16` lights mask is the set of lights that are on, so XOR is symmetric difference and OR is union. The `1 << idx` overflow panic becomes the precondition that indices are below 16.
- Y2025Day10.SumMinPresses: the example total of 7 is not stated over parsed machines. The three per-machine answers are stated (`MinPressesSample1` to `MinPressesSample3`).
- **`BinaryHeap` and `itertools::combinations`:**
  - The heap is a queue kept sorted, and `pop` takes the least connection.
  - `combinations(k)` lists the increasing index sequences in lexicographic order.
- **Day 8 examples:** the 20-box tests (40 and 25272) are not stated. Evaluating the 190 pairs of the example is beyond what the proofs can compute.
- **Examples not stated:**
  - 2024 day 4: 18 words and 9 X-MAS shapes on the 10 x 10 example grid.
  - 2025 day 4: 13 accessible rolls and 43 removed.
  - 2024 day 5: the example's sum of 143.
  - 2025 day 2: the example's sum.
  - 2025 day 3: the example sums, and the per-bank cases beyond the three stated.

  These examples are grids or long texts that the proofs cannot evaluate within their limits. The operations are proved correct for all inputs instead.
- **Day 5 (2024) `parse` and `sum_middle_fixed_updates`:** `parse` (`src/y2024/day5.rs:13-37`) is not modelled; rule lines are modelled by `ParseRule` and `Rules.ParseAndAddRule`. `sum_middle_fixed_updates` is the function `SumMiddleFixed` with the corrected `fix`, and it has no contract of its own.
- **Day 5 (2024) `fix` examples:** the expected result for the fifth example update is proved of the corrected `fix` (`FixedExample`). The fourth and sixth are not stated.
- **Day 5 (2025) `parse`:** not modelled; its pieces are (`ParseRange`, `Collapse`).
- **Day 2 (2025) `parse` and `sum_invalid_ids`:** not modelled. They split on `,` and add up the lists that `ListInvalidIds` is proved to produce.
- Y2025Day11.CountSample: the sample rack is built as its ten lines joined by line breaks rather than written out as one string; the text is the same.
- Y2025Day1.Parse: states only that there is one rotation per line. Each rotation is the one `From` reads from the line.
- Y2025Day6.Calculate: states the `u64` bound. Its value is the sum of `CalculateColumn` over the columns, which `SampleCalculate` evaluates on the example.

## Findings

| source | as written | input that shows it | evidently intended | confidence | as-written member | corrected member |
|---|---|---|---|---|---|---|
| src/y2024/day5.rs:124-152 | `fix` pushes the pages that must come first onto a stack and removes them from the input with `pop_if`. `pop_if` removes only the last page, and only when it matches, so a page in the middle of the input stays there and is also stacked. | The rule `61\|29` with the update `[61, 29]` returns `[]`: both pages are lost. The example's fifth update `[61, 13, 29]` under rules that have `61\|29` and no `13\|29` never terminates: `61` is stacked again on every pass. | A reordering of the update in which every page comes after the pages it must follow. The test at lines 214-222 expects `[61, 29, 13]`. | not executed | Y2024Day5.FixAsWrittenDropsPages, Y2024Day5.FixAsWrittenLoops | Y2024Day5.Rules.Fix, Y2024Day5.FixedValid |
