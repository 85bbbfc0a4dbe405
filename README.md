# Advent of Code 2022 solutions, modelled in Dafny

This project models the puzzle logic of a set of Advent of Code 2022 solvers
written in Rust (one binary per day under `src/bin/`, plus the shared point
type in `src/helpers.rs`) and proves properties of that logic. Each Rust file
becomes one Dafny module (`Day01` … `Day25`, `Helpers`). Four support modules
are added:

- `Wrappers`: `Option` and `Result`.
- `Text`: the standard string operations the solvers call (`parse`,
  `split_once`, `split`, `lines`, `trim`, `split_whitespace`), defined
  on `seq<char>` and proved against their printing
  counterparts.
- `Arith`: a few division and remainder facts.
- `Helpers`: the shared `Point`. It also holds the compass direction type
  used by days 22 and 23; only `Point`'s `Add` and `Sub` of that shared
  code are modelled by source lines.

The models take the source's own form:

- Pure matches and recursion become functions and lemmas. Examples are
  the packet order of day 13, the expression folding of day 21 and the SNAFU
  digit maps of day 25.
- Code that updates state step by step becomes methods with loops and
  invariants, proved against specification functions. Examples are the
  SNAFU encoder loop and the packet parser loop.
- Objects whose fields the source updates become classes:
  - the crate ship of day 5;
  - the CPU, CRT and device of day 10;
  - the items and monkeys of day 11;
  - the sand grid of day 14;
  - the falling rock of day 17;
  - the mixing list of day 20.
- Buffers the source writes in place are arrays: the sand cells of day 14,
  the CRT screen of day 10, and the three-dimensional table of day 16.

A Rust panic (`unwrap` on bad input, an index out of range, an unsigned
underflow, `unreachable!`) takes one of two forms:

- a `requires`, when the caller can rule it out before the call;
- a `None`/`Failure` result, when it depends on data met along the way.

Integers are mathematical. Where a machine width matters, it is written
out, for example the `u32` range of parsed numbers and the `i32` coordinates
of day 18.

## Model

| member | source | states |
|---|---|---|
| Helpers.Add | src/helpers.rs:13-22 | the sum differs from each summand by the other, component by component |
| Helpers.Sub | src/helpers.rs:24-33 | the difference plus the subtrahend gives back the minuend, component by component |
| Helpers.Right | src/bin/22.rs:495 | a right turn keeps a direction cardinal or diagonal and rotates its step a quarter turn clockwise |
| Helpers.SubOfAdd | src/helpers.rs:13-33 | subtracting a point undoes adding it |
| Helpers.AddOfSub | src/helpers.rs:13-33 | adding a point undoes subtracting it |
| Helpers.AddCommutative | src/helpers.rs:16-21 | point addition does not depend on the order of the summands |
| Helpers.AddAssociative | src/helpers.rs:16-21 | point addition can be regrouped |
| Text.SplitPair | src/bin/01.rs:5 | splitting at a two-character separator always gives at least one piece |
| Text.JoinPairOfSplitPair | src/bin/01.rs:5 | the pieces joined with the separator are the input |
| Text.Lines | src/bin/01.rs:6 | no line contains a line feed |
| Text.LinesOfJoinLines | src/bin/01.rs:6 | splitting text written line by line gives back the lines |
| Text.ParseNat | src/bin/01.rs:6 | an unsigned parse succeeds exactly on an optional `+` followed by at least one digit |
| Text.ParseNatOfNatToString | src/bin/01.rs:6 | a number written in decimal parses back to itself |
| Text.ParseInt | src/bin/10.rs:45 | a signed parse succeeds only on non-empty text |
| Text.ParseIntOfIntToString | src/bin/10.rs:45 | a signed number written in decimal parses back to itself |
| Text.SplitOnce | src/bin/04.rs:12-14 | `split_once` cuts at the first separator, and fails only when there is none |
| Text.SplitOnceAt | src/bin/04.rs:12-14 | text made of a separator-free part, a separator and a rest splits into that part and the rest |
| Text.SplitWhitespace | src/bin/05.rs:89 | `split_whitespace` returns only non-empty words |
| Text.SplitWhitespaceOfJoinWords | src/bin/05.rs:89 | words joined by spaces split back into the words |
| Text.TrimStart | src/bin/02.rs:96-97 | trimming the start keeps a suffix that starts with no whitespace |
| Text.TrimEnd | src/bin/02.rs:96-97 | trimming the end keeps a prefix that ends with no whitespace |
| Text.TrimOfNoWhitespace | src/bin/02.rs:96-97 | text without whitespace is its own trim |
| Text.StripCr | src/bin/01.rs:6 | a line loses at most one trailing carriage return |
| Day01.ParseGroup | src/bin/01.rs:6 | a group parses exactly when every line is a decimal number below 2^32; then it has one number per line, each the value of its line |
| Day01.GroupSumsOf | src/bin/01.rs:4-8 | there are totals exactly when every group parses; then there is one total per group, the sum of its numbers |
| Day01.Max | src/bin/01.rs:8 | the maximum is at least every total and is one of them |
| Day01.PartOne | src/bin/01.rs:3-9 | there is a first answer exactly when every line parses; it is at least every group total and equal to one of them |
| Day01.SortDescending | src/bin/01.rs:16 | the totals are sorted from largest to smallest and are a permutation of the input |
| Day01.TopThreeIsLargest | src/bin/01.rs:16 | no three totals at different places add up to more than the first three of the sorted order |
| Day01.MaxIsFirstSorted | src/bin/01.rs:8-16 | the largest total comes first in the sorted order |
| Day01.PartTwoAtLeastPartOne | src/bin/01.rs:3-17 | the second answer is never below the first |
| Day01.GroupSums | src/bin/01.rs:4-8 | there are totals exactly when every line of every blank-line separated group parses; then there is one total per group |
| Day01.Insert | src/bin/01.rs:16 | inserting into a descending list keeps it descending and adds exactly that total |
| Day01.PartTwo | src/bin/01.rs:11-17 | there is an answer exactly when every line parses; no selection of at most three totals at distinct places adds up to more, and some selection of min(3, n) of them adds up to exactly the answer |
| Day01.TopThreeOfTotals | src/bin/01.rs:16 | `take(3).sum()` of the descending order bounds every selection of at most three totals and is attained by a selection of min(3, n) |
| Day01.TopKBound | src/bin/01.rs:16 | a selection of c totals adds up to no more than the first c of the descending order |
| Day01.TopKAttained | src/bin/01.rs:16 | the first k of the descending order add up to what some selection of min(k, n) totals adds up to |
| Day01.TopKInsert | src/bin/01.rs:16 | inserting a total into a descending list never lowers the sum of its first k, and the new sum is the old one or the total plus the old first k - 1 |
| Day01.TopThreeIsTopK | src/bin/01.rs:16 | `take(3).sum()` is the sum of the first three entries, or of all when there are fewer |
| Day02.ParseAction | src/bin/02.rs:14-27 | A/X parse as rock, B/Y as paper, C/Z as scissors, and every other string is an error |
| Day02.ParseOutcome | src/bin/02.rs:29-42 | X, Y, Z parse as loss, draw, win, and every other string is an error |
| Day02.Value | src/bin/02.rs:45-51 | a move is worth 1 to 3 points |
| Day02.ResultAgainst | src/bin/02.rs:53-61 | a draw exactly for equal moves, a win exactly when my move beats the other, a loss exactly when the other beats mine |
| Day02.ResultAgainstAntisymmetric | src/bin/02.rs:53-61 | swapping the players turns a win into a loss and keeps a draw |
| Day02.ScoreAgainst | src/bin/02.rs:63-69 | the score is the move's value plus 0, 3 or 6 for the outcome, between 1 and 9 |
| Day02.MoveForResult | src/bin/02.rs:70-80 | the chosen move gives the wanted outcome against the opponent |
| Day02.MoveForResultUnique | src/bin/02.rs:70-80 | it is the only move with that outcome |
| Day02.ScoreForResult | src/bin/02.rs:82-89 | the score of a plan is the score of playing the chosen move, between 1 and 9 |
| Day02.ParseRound | src/bin/02.rs:93-99 | a parsed line is its first character and the rest, each trimmed and parsed as a move; an empty line or a bad half is an error |
| Day02.ParsePlan | src/bin/02.rs:104-110 | the same split, with the rest parsed as an outcome |
| Day02.ParseRoundOfLine | src/bin/02.rs:93-99 | a guide line such as `A Y` reads back as its two moves |
| Day02.ParsePlanOfLine | src/bin/02.rs:104-110 | a guide line read as a plan gives its move and outcome |
| Day02.TotalAgainst | src/bin/02.rs:92-101 | the first total lies between one and nine points per round |
| Day02.TotalForResult | src/bin/02.rs:103-112 | the second total lies between one and nine points per round |
| Day02.PlanIsPlayedMoves | src/bin/02.rs:82-112 | the second total equals the first total scored on the moves chosen for each outcome |
| Day02.LetterParses | src/bin/02.rs:14-27 | the letter of each move, in either column, parses back to it |
| Day02.ParseRoundOfChars | src/bin/02.rs:93-99 | a line of two move letters separated by a space parses as those two moves |
| Day02.ParsePlanOfChars | src/bin/02.rs:104-110 | a line of a move letter and an outcome letter parses as that move and outcome |
| Day03.SplitRucksack | src/bin/03.rs:3-6 | the halves put together are the rucksack and the first half has half its length, rounded down |
| Day03.Unique | src/bin/03.rs:8-14 | the kept elements have no duplicates and are exactly the elements of the input |
| Day03.Filter | src/bin/03.rs:8-14 | the kept elements are exactly those in both sequences, without new duplicates |
| Day03.GatherSameItems | src/bin/03.rs:8-14 | each item type found in both halves appears exactly once, and nothing else |
| Day03.Common | src/bin/03.rs:16-29 | the items kept after k rucksacks are exactly those in all of them, once each |
| Day03.GatherSameItemsInGroup | src/bin/03.rs:16-29 | the narrowing loop keeps exactly the item types found in every rucksack of the group, once each; an empty group is refused |
| Day03.Priority | src/bin/03.rs:31-37 | letters get 1 to 52, lower case exactly 1 to 26; other characters are refused |
| Day03.PriorityInjective | src/bin/03.rs:31-37 | different letters have different priorities |
| Day03.PrioritySum | src/bin/03.rs:45 | a sum of priorities lies between one and 52 per item |
| Day03.Chunks | src/bin/03.rs:51 | every group has one to three lines and all but the last have exactly three |
| Day03.ChunksConcat | src/bin/03.rs:51 | the groups together are the lines in order |
| Day04.ContainingSymmetric | src/bin/04.rs:1-4 | containment does not depend on the order of the pair |
| Day04.OverlappingSymmetric | src/bin/04.rs:6-9 | overlap does not depend on the order of the pair |
| Day04.ContainingMeansSubset | src/bin/04.rs:1-4 | for proper ranges the end point test holds exactly when every section of one range lies in the other |
| Day04.OverlappingMeansShared | src/bin/04.rs:6-9 | for proper ranges the end point test holds exactly when the ranges share a section |
| Day04.ContainingImpliesOverlapping | src/bin/04.rs:1-9 | for proper ranges containment implies overlap |
| Day04.ImproperRangeContains | src/bin/04.rs:1-9 | for a range that ends before it starts the two tests can disagree |
| Day04.ExtractRanges | src/bin/04.rs:11-25 | a parsed line is two ranges separated by a comma, each two 32-bit numbers separated by a dash; anything else is an error |
| Day04.ParseShowRanges | src/bin/04.rs:11-25 | a printed pair of ranges reads back as itself |
| Day04.CountContaining | src/bin/04.rs:27-35 | the first answer counts at most all pairs |
| Day04.CountOverlapping | src/bin/04.rs:37-45 | the second answer counts at most all pairs |
| Day04.CountContainingIsCardinality | src/bin/04.rs:27-35 | the first answer is the number of positions whose pair has one range containing the other |
| Day04.CountOverlappingIsCardinality | src/bin/04.rs:37-45 | the second answer is the number of positions whose pair overlaps |
| Day04.ContainingCountAtMostOverlapping | src/bin/04.rs:27-45 | on proper ranges the first answer never exceeds the second |
| Day04.ParseBound | src/bin/04.rs:17-22 | a section number is a decimal that fits in `u32` |
| Day04.ParseRange | src/bin/04.rs:13-22 | a parsed range is two section numbers around a dash |
| Day04.ParseShowRange | src/bin/04.rs:13-22 | a range written with a dash parses back to itself |
| Day05.Reverse | src/bin/05.rs:13-16 | the reversal has the same length, entry i being entry n-1-i of the original |
| Day05.Move9000None | src/bin/05.rs:12-17 | moving no crate changes nothing |
| Day05.Move9000Step | src/bin/05.rs:13-16 | one more crate moved is one more pop from the source pushed on the destination |
| Day05.Ship.constructor | src/bin/05.rs:7-9 | the ship holds the given stacks |
| Day05.Ship.ExecuteInstruction | src/bin/05.rs:12-17 | popping and pushing one crate at a time leaves the stacks of the one-at-a-time crane |
| Day05.Ship.ExecuteInstruction9001 | src/bin/05.rs:19-24 | splitting off the top crates and appending them leaves the stacks of the many-at-once crane |
| Day05.Ship.TopOfStacks | src/bin/05.rs:26-32 | one character per stack, the top crate of that stack |
| Day05.TotalIsSize | src/bin/05.rs:7-9 | the crate count is the size of the multiset of crates |
| Day05.AllCratesUpdate | src/bin/05.rs:12-24 | replacing one stack swaps its crates for the new ones in the whole ship |
| Day05.MoveBlockKeepsCrates | src/bin/05.rs:12-24 | moving a rearranged top block onto another stack keeps every crate |
| Day05.ReverseMultiset | src/bin/05.rs:13-16 | reversing keeps the crates |
| Day05.Move9000KeepsCrates | src/bin/05.rs:12-17 | the one-at-a-time crane keeps every crate and the crate count |
| Day05.Move9001KeepsCrates | src/bin/05.rs:19-24 | the many-at-once crane keeps every crate and the crate count |
| Day05.CranesCompared | src/bin/05.rs:12-24 | the two cranes leave the same stacks except that the moved block lands reversed by one and in order by the other |
| Day05.SingleCrateAgrees | src/bin/05.rs:12-24 | for a single crate the two cranes agree |
| Day05.ParseField | src/bin/05.rs:94-96 | a parsed field fits in `u32`; any failure is a panic |
| Day05.ParseInstruction | src/bin/05.rs:86-99 | the format error is returned exactly when the line does not have six words; a parsed instruction has the amount in word 2 and the one-based stacks in words 4 and 6 |
| Day05.FromWords | src/bin/05.rs:93-97 | the fields of six words parse exactly when they can, with the stacks made zero-based; otherwise a panic |
| Day05.InstructionWords | src/bin/05.rs:86-99 | an instruction is written as six words |
| Day05.WordsOfShowInstruction | src/bin/05.rs:89 | splitting a written instruction at whitespace gives its six words |
| Day05.FieldsOfWords | src/bin/05.rs:93-97 | the words of an instruction hold its fields |
| Day05.ParseShowInstruction | src/bin/05.rs:86-99 | parsing a written instruction gives it back |
| Day06.DistinctCountIff | src/bin/06.rs:6 | counting the different characters of a window gives its length exactly when no character repeats |
| Day06.FirstDistinctWindow | src/bin/06.rs:5-10 | the index found is a window of distinct characters with none before it; -1 means no window qualifies |
| Day06.FindWindow | src/bin/06.rs:4-10 | the loop that stops at the first qualifying window returns the first window of distinct characters, or -1 |
| Day06.MarkerAsWritten | src/bin/06.rs:12-15 | an answer is only given for a qualifying window at index one or later, and is that index plus the window size |
| Day06.StartOfMarkerAsWritten | src/bin/06.rs:3-31 | both parts as written: the first qualifying window's end, unless that window is the first one |
| Day06.FirstWindowMarkerIsLost | src/bin/06.rs:12 | the stream `abcd` starts with a marker, yet the test as written gives no answer |
| Day06.Marker | src/bin/06.rs:3-31 | there is an answer exactly when some window qualifies, and it is the end of the first one |
| Day06.StartOfMarker | src/bin/06.rs:3-31 | the corrected search reports the first qualifying window, the first one included |
| Day06.AsWrittenAgreesElsewhere | src/bin/06.rs:12-15 | as written and corrected agree whenever the first window does not qualify |
| Day07.SizeDominates | src/bin/07.rs:14-22 | no directory in the tree is larger than the directory containing it |
| Day07.SumBelowIsTotal | src/bin/07.rs:24-36 | the recursive sum equals the total of the sizes of all directories below the threshold, each counted once |
| Day07.SmallestAboveIsMinimum | src/bin/07.rs:38-62 | a `Some` answer is a directory size above the threshold and no directory above it is smaller; `None` only when no directory is above it |
| Day07.SumAtMost | src/bin/07.rs:24-36 | the corrected sum counts every directory of size at most the threshold |
| Day07.SmallestAtLeast | src/bin/07.rs:38-62 | the corrected search returns the smallest directory of size at least the threshold |
| Day07.ExactSizeIsSkipped | src/bin/07.rs:31 | a directory of exactly the threshold is left out of both queries as written |
| Day07.SizeAfterUpdate | src/bin/07.rs:88-97 | replacing one directory of the tree changes the total size by the difference of the two sizes |
| Day07.UpdateKeepsPaths | src/bin/07.rs:88 | appending children to a directory keeps every path into the tree valid |
| Day07.LsLine | src/bin/07.rs:79-99 | one `ls` line keeps the directory's name and its existing children, appending only |
| Day07.LsLineAdds | src/bin/07.rs:80-98 | a `dir x` line adds exactly one empty child named x; any other line adds exactly one file of the size it names; the size grows by that file |
| Day07.MutateFromLs | src/bin/07.rs:78-100 | the loop over the output lines yields the fold of the line updates, and fails when any line does |
| Day07.LsGrowsByListedSizes | src/bin/07.rs:119-121 | `ls` grows the total size of the tree by exactly the sizes of the listed files |
| Day07.FindChild | src/bin/07.rs:134-139 | the first child with the given name, or none when no child has it |
| Day07.Cd | src/bin/07.rs:122-141 | `..` goes to the parent and fails at the root, `/` goes to the root, a name goes to the first child so named, an unknown name stays put; the result is a valid path |
| Day07.Step | src/bin/07.rs:118-144 | one command keeps the current path valid and the root's name |
| Day07.ParseBlocks | src/bin/07.rs:103-107 | every block is split at its first line feed into command and output |
| Day07.SetupDirectory | src/bin/07.rs:102-148 | the loop over the commands builds the same tree as the fold of the command steps |
| Day07.PartOne | src/bin/07.rs:156-160 | the answer is the total of the directory sizes below 100000 |
| Day07.PartTwo | src/bin/07.rs:162-170 | the answer is a directory size above the size to free and no directory above it is smaller, and `None` only when none is above it |
| Day07.AllSizes | src/bin/07.rs:14-22 | the sizes listed for a tree start with the size of its root |
| Day07.Below | src/bin/07.rs:24-36 | the selected sizes are exactly those of the list below the threshold |
| Day07.BelowConcat | src/bin/07.rs:24-36 | selecting from two lists joined is selecting from each |
| Day07.SumConcat | src/bin/07.rs:24-36 | the sum of two lists joined is the sum of their sums |
| Day07.ChildrenSizeDominates | src/bin/07.rs:14-22 | no directory below the children is larger than their total size |
| Day07.ChildrenSumBelowIsTotal | src/bin/07.rs:24-36 | the recursive sum over the children is the sum of all their sizes below the threshold |
| Day07.ChildrenSmallestAboveAreMinima | src/bin/07.rs:38-62 | each candidate from the children is a size above the threshold, and every size above it has a candidate no larger |
| Day07.Min | src/bin/07.rs:38-62 | the smallest candidate is one of them and at most every other |
| Day07.UpdateAt | src/bin/07.rs:88-97 | replacing the directory at a path keeps the names, files and number of children of the directories above it |
| Day07.ChildrenSizeUpdate | src/bin/07.rs:88-97 | replacing one child changes the children's total size by the difference of the two sizes |
| Day07.ChildPath | src/bin/07.rs:134-139 | stepping into an existing child gives a valid path to that child |
| Day07.ParentPath | src/bin/07.rs:124-127 | dropping the last step of a valid path gives a valid path |
| Day07.Ls | src/bin/07.rs:78-100 | the `ls` lines keep the directory's name and its existing children, appending only |
| Day07.LsLineSize | src/bin/07.rs:80-98 | one `ls` line grows the size of the directory by the size of the file it lists |
| Day07.LsSize | src/bin/07.rs:78-100 | the `ls` lines grow the size of the directory by the total of the listed file sizes |
| Day07.LsStaysFailed | src/bin/07.rs:78-100 | once one `ls` line fails the whole listing fails |
| Day07.Run | src/bin/07.rs:110-146 | the walk over the commands keeps a valid current path and the root's name |
| Day07.RunStaysFailed | src/bin/07.rs:110-146 | once one command fails the whole walk fails |
| Day07.Setup | src/bin/07.rs:102-148 | the tree the session builds has the root name `/` |
| Day08.ParseGrid | src/bin/08.rs:6-13 | the heights are digits, the height is the number of lines, and an input without lines or with a non-digit fails |
| Day08.PrefixMaxBounds | src/bin/08.rs:17-41 | the running maximum of a column or row is at least every earlier tree on it and is one of them or -1 |
| Day08.SuffixMaxBounds | src/bin/08.rs:44-59 | the backward running maximum is at least every later tree on the line and is one of them or -1 |
| Day08.BeatsPrefixMax | src/bin/08.rs:31-40 | beating the running maximum is the same as being taller than every earlier tree of the column or row |
| Day08.BeatsSuffixMax | src/bin/08.rs:49-58 | beating the backward maximum is the same as being taller than every later tree of the column or row |
| Day08.ScanForward | src/bin/08.rs:26-41 | after the forward scan a tree is marked exactly when it is taller than every tree above it or every tree left of it |
| Day08.ForwardStep | src/bin/08.rs:27-40 | one forward step updates the column and row maxima and marks the tree exactly when it beats one of them, touching no other mark |
| Day08.ScanBackward | src/bin/08.rs:44-59 | after both scans a tree is marked exactly when it is visible from some edge |
| Day08.BackwardStep | src/bin/08.rs:45-58 | one backward step updates the maxima and marks the tree exactly when it is visible, touching no other mark |
| Day08.CountTrueIsCardinality | src/bin/08.rs:61 | counting the marks counts each marked tree exactly once |
| Day08.PartOne | src/bin/08.rs:4-62 | the answer is the number of visible trees, at most the number of trees |
| Day08.EdgeTreesVisible | src/bin/08.rs:17-22 | every tree on the border is visible |
| Day08.AsWrittenFitsOnlySquares | src/bin/08.rs:17-22 | the vectors as allocated admit every column and row index exactly when the grid is square |
| Day08.WideGridOverruns | src/bin/08.rs:18 | a grid three wide and one high reads past the top vector |
| Day08.IntendedSizesFit | src/bin/08.rs:17-22 | vectors sized by columns for top and bottom and by rows for left and right fit every grid |
| Day08.RunMeaning | src/bin/08.rs:86-99 | a run counts the trees passed up to and including the first one off the interior or at least as tall |
| Day08.ViewingDistance | src/bin/08.rs:86-100 | the walk returns the run of the recursive definition |
| Day08.ScoreAtLeastOne | src/bin/08.rs:87-102 | every scenic score as written is at least one |
| Day08.ScenicScore | src/bin/08.rs:80-102 | one tree's four runs multiplied equal its score |
| Day08.BestScore | src/bin/08.rs:76-104 | the best score is at least every tree's score and equals one of them |
| Day08.PartTwo | src/bin/08.rs:64-105 | the loop returns the best score over all trees |
| Day08.IntendedScore | src/bin/08.rs:85-102 | the corrected score, the product of four runs that count no tree past the edge, is zero exactly for trees on the border and equals the score as written inside it |
| Day08.IntendedRunOnRay | src/bin/08.rs:86-99 | on the walk out from an interior tree the corrected run and the run as written count the same trees |
| Day08.IntendedRunsInside | src/bin/08.rs:85-101 | for an interior tree each corrected direction run equals the run as written |
| Day08.BorderRunZero | src/bin/08.rs:86-90 | a tree on the border has a direction whose corrected run is zero |
| Day08.BorderTreeScores | src/bin/08.rs:87-90 | in 010/000/000 the top middle tree scores 2 as written and 0 as intended |
| Day08.RowDigits | src/bin/08.rs:6-13 | a parsed line has one height per character, each a digit |
| Day08.GridDigits | src/bin/08.rs:6-13 | a parsed grid holds only digits |
| Day08.TopRowSeen | src/bin/08.rs:17-22 | a tree of the top row is taller than every tree above it in its column |
| Day08.LeftColumnSeen | src/bin/08.rs:17-22 | a tree of the left column is taller than every tree left of it in its row |
| Day08.BottomRowSeen | src/bin/08.rs:17-22 | a tree of the bottom row is taller than every tree below it in its column |
| Day08.RightColumnSeen | src/bin/08.rs:17-22 | a tree of the right column is taller than every tree right of it in its row |
| Day08.CountTrueBound | src/bin/08.rs:61 | at most every tree is counted |
| Day08.Run | src/bin/08.rs:85-101 | a scenic run counts at least one tree |
| Day08.DirectionRun | src/bin/08.rs:85-101 | the run in each of the four directions counts at least one tree |
| Day09.Add | src/bin/09.rs:17-19 | adding coordinate pairs agrees with the shared point addition |
| Day09.Substract | src/bin/09.rs:21-23 | subtracting coordinate pairs agrees with the shared point subtraction |
| Day09.Direction | src/bin/09.rs:25-33 | each of U, R, D, L gives a unit vector; other characters are unreachable |
| Day09.DirectionsDistinct | src/bin/09.rs:25-33 | the four directions are pairwise different |
| Day09.TouchingTailStays | src/bin/09.rs:35-40 | the tail stays if and only if it touches the head (king-move distance at most one) |
| Day09.TailStepsTowardsHead | src/bin/09.rs:35-40 | the tail moves at most one step per axis, never away from the head on either axis, and a moving tail gets strictly closer |
| Day09.TailEndsAdjacent | src/bin/09.rs:35-40 | a tail at most two away ends touching the head |
| Day09.PulledStaysTaut | src/bin/09.rs:63-69 | after a unit head step and pulling knots 1..k, each pulled knot touches its predecessor and moved at most one step |
| Day09.StepRopeStaysTaut | src/bin/09.rs:63-69 | a unit head step keeps the whole rope taut |
| Day09.StepRope | src/bin/09.rs:63-69 | the loop moving the head and pulling every later knot in order computes the pulled rope |
| Day09.RunStaysTaut | src/bin/09.rs:59-75 | the rope stays taut through any sequence of steps |
| Day09.RunRecordsTail | src/bin/09.rs:59-75 | the tail's current place is always recorded |
| Day09.RunGrows | src/bin/09.rs:59-75 | more steps never remove a recorded place |
| Day09.RunSnoc | src/bin/09.rs:59-75 | one more step extends the run by one pull and one recorded place |
| Day09.TailVisits | src/bin/09.rs:42-75 | the two-knot and many-knot loops compute the run over all unit steps of the movements, and end with a taut rope; only movements that take a step need a known direction |
| Day09.ZeroStepsSkipped | src/bin/09.rs:48-50 | a movement of zero steps is accepted whatever its direction and adds no unit step |
| Day09.ParseMovement | src/bin/09.rs:5-13 | a parsed line splits at a space into a non-empty first part whose last character is the direction, and a decimal count |
| Day09.ParseShowMovement | src/bin/09.rs:5-13 | a printed movement reads back as itself |
| Day09.Pulled | src/bin/09.rs:63-69 | the head moves by the step, knots 1..k each follow the knot before them after it moved, and the later knots stay |
| Day09.Steps | src/bin/09.rs:59-62 | the movements expand into unit steps that are all direction characters |
| Day09.Run | src/bin/09.rs:59-75 | the rope keeps its number of knots through the steps |
| Day09.MoveRope | src/bin/09.rs:65-71 | the inner loop over one movement's count extends the run by that many unit steps in its direction |
| Day09.RunRepeat | src/bin/09.rs:65-71 | one more repetition of a movement's step extends the run by one pull and one recorded place |
| Day09.StepsSnoc | src/bin/09.rs:64 | one more movement appends exactly its count of its direction character to the unit steps |
| Day09.Repeat | src/bin/09.rs:65 | a movement contributes exactly its count of unit steps, all in its direction |
| Day10.ClockTiming | src/bin/10.rs:14-19 | `noop` takes one cycle and `addx` two |
| Day10.ParseInstruction | src/bin/10.rs:34-54 | a parsed `addx` argument fits in `i32` |
| Day10.UnknownOpcodeFails | src/bin/10.rs:37-52 | the unknown-code error comes exactly when the text before the first space is neither `noop` nor `addx` |
| Day10.ParseShowInstruction | src/bin/10.rs:34-54 | a written instruction parses back to itself |
| Day10.CyclesOfPrefix | src/bin/10.rs:105-112 | the instructions before the counter take no more cycles than the whole program |
| Day10.PrefixStep | src/bin/10.rs:93-97 | executing one more instruction adds its timing to the cycles and its argument to the sum |
| Day10.Cpu.constructor | src/bin/10.rs:72-80 | a new CPU starts at clock 0, counter 0 and X 1, in a valid state |
| Day10.Cpu.FetchInstruction | src/bin/10.rs:101-103 | the instruction under the program counter, none past the end |
| Day10.Cpu.Execute | src/bin/10.rs:114-119 | only `addx` changes X, by its argument, and nothing else changes |
| Day10.Cpu.Tick | src/bin/10.rs:82-99 | the tick fails, changing nothing, exactly past the end of the code; otherwise the clock advances by one, and an instruction whose cycles are used up is executed and the counter moves on; the clock never passes the cycle total of the whole run |
| Day10.Cpu.ClockBound | src/bin/10.rs:82-99 | in every reachable state the clock is at most the cycle total of the program plus one |
| Day10.Cpu.Finished | src/bin/10.rs:82-99 | when the code is used up the clock has counted every cycle and X is 1 plus every `addx` argument |
| Day10.MustDrawNear | src/bin/10.rs:164-168 | the pixel is drawn exactly when the beam column is within one of X |
| Day10.Crt.constructor | src/bin/10.rs:148-155 | a new screen has width times height dark pixels and the beam at 0 |
| Day10.Crt.DrawPixel | src/bin/10.rs:170-172 | the pixel under the beam is lit and the others are unchanged |
| Day10.Crt.Tick | src/bin/10.rs:157-162 | the pixel under the beam is lit when the sprite covers it, and the beam moves on; every passed pixel is lit exactly when the sprite covered it then |
| Day10.Device.constructor | src/bin/10.rs:200-205 | a new device has a fresh screen and a fresh CPU at their starting states |
| Day10.Device.Tick | src/bin/10.rs:207-211 | the CPU ticks, then the screen draws with the new X, also when the CPU tick fails |
| Day11.ApplyResidue | src/bin/11.rs:42-51 | applying an operation to two values with the same remainder gives results with the same remainder |
| Day11.InitTracks | src/bin/11.rs:20-25 | after `init` the worry level is the starting value and every stored remainder is the starting value modulo its divisor |
| Day11.Item.Init | src/bin/11.rs:20-25 | the loop appends one (divisor, starting value modulo divisor) pair per divisor and resets the worry level |
| Day11.CalculateState | src/bin/11.rs:27-52 | calculating keeps the starting value, the number of remainders and every divisor |
| Day11.CalculateTracks | src/bin/11.rs:42-51 | in part two each new remainder is below its divisor and is the new worry level modulo that divisor |
| Day11.Item.Calculate | src/bin/11.rs:27-52 | part one sets the worry level to the operation's result divided by three; part two updates every remainder in place |
| Day11.FirstDivisor | src/bin/11.rs:58-62 | the search finds the first stored pair with the wanted divisor |
| Day11.TestTracks | src/bin/11.rs:54-64 | on an item whose remainders track a worry level, the part-two test is that level's divisibility |
| Day11.Item.Test | src/bin/11.rs:54-64 | part one tests the worry level; part two the first remainder kept for the divisor; a divisor not kept is refused |
| Day11.Item.Clone | src/bin/11.rs:143 | a copy is a new item with the same state |
| Day11.CalculateKeepsHandled | src/bin/11.rs:144-146 | an item that can be tested before inspection can still be tested after it |
| Day11.Throw | src/bin/11.rs:143-155 | each thrown item is the inspected copy, sent to either the true or the false target |
| Day11.ThrowByWorry | src/bin/11.rs:146-149 | in part two an item goes to the true target exactly when its new worry level is divisible by the test divisor |
| Day11.Monkey.Turn | src/bin/11.rs:139-161 | one thrown item per held item, in order, each fresh and sent as the test says; the monkey ends holding nothing |
| Day11.Residues | src/bin/11.rs:20-25 | one (divisor, remainder) pair per divisor |
| Day11.Monkey.Inspect | src/bin/11.rs:143-155 | one inspected item is a fresh copy whose new state and target monkey are those the throw rule gives, with the worry level transformed by the operation |
| Day12.DistanceSymmetric | src/bin/12.rs:23-26 | the distance from a to b equals that from b to a |
| Day12.DistanceZero | src/bin/12.rs:23-26 | the distance is zero exactly when the points are equal |
| Day12.DistanceTriangle | src/bin/12.rs:23-26 | the distance obeys the triangle inequality, so it never overestimates a path of steps |
| Day12.Neighbors | src/bin/12.rs:9-17 | at most four squares, each on the map and one step away, and every on-map square one step away is among them |
| Day12.Height | src/bin/12.rs:95-99 | `S` has height 0, `E` height 25, lower-case letters 0 to 25 |
| Day12.RowHeights | src/bin/12.rs:93-101 | a parsed row has one height per character, each the character's height |
| Day12.GridHeights | src/bin/12.rs:91-102 | a parsed map has one row of heights per line |
| Day12.IndexOf | src/bin/12.rs:78-89 | the found index holds the character and no earlier position does; none is found only when it is absent |
| Day12.ParseInput | src/bin/12.rs:77-113 | a parsed map has one row per trimmed line |
| Day12.ConcatIndex | src/bin/12.rs:103-110 | in rows of width w, position i of the line-feed-free text is column i % w of row i / w |
| Day12.MapInput | src/bin/12.rs:78-92 | the file of a well-formed map is unchanged by trimming, splits into its rows, and loses only its line feeds when they are removed |
| Day12.ParseInputOfMap | src/bin/12.rs:77-113 | for a well-formed map the start and end are the squares of the first `S` and `E`, at heights 0 and 25 |
| Day12.AnyOfHeight | src/bin/12.rs:123-125 | true exactly when some listed neighbour has the height |
| Day12.StartingLocations | src/bin/12.rs:115-133 | the nested loops return the specified list of starting squares |
| Day12.StartsMeaning | src/bin/12.rs:115-133 | the squares listed above a row are exactly the height-0 squares there with a height-1 neighbour, in reading order |
| Day12.StartingLocationsMeaning | src/bin/12.rs:115-133 | every returned square has height 0 and a neighbour of height 1, every such square is returned, in reading order without repeats |
| Day12.KeepInBounds | src/bin/12.rs:9-17 | the squares kept are exactly the candidates on the map |
| Day12.RemoveAll | src/bin/12.rs:103-104 | the cleaned text holds no removed character |
| Day12.RemoveAllConcat | src/bin/12.rs:103-104 | removing from joined text is removing from each part |
| Day12.NoneRemoved | src/bin/12.rs:103-104 | text without the character is unchanged |
| Day12.RemoveAllOfJoinWith | src/bin/12.rs:103-104 | removing the line feeds from the lines of a map joins the rows |
| Day12.JoinWithEnds | src/bin/12.rs:91-92 | the joined rows start with the first row's first character and end with the last row's last |
| Day12.LinesOfJoinRows | src/bin/12.rs:91-92 | splitting the rows joined with line feeds gives the rows back |
| Day12.LocateInMap | src/bin/12.rs:103-110 | position i of the rows joined without line feeds is column i % w of row i / w, with that square's height |
| Day12.ParseInputParts | src/bin/12.rs:77-113 | a successful parse is the height rows with the squares of the first `S` and the first `E` |
| Day12.RowStartsMeaning | src/bin/12.rs:115-133 | the squares listed in one row up to column x are exactly its starting squares there, in reading order |
| Day12.RowStartsInRow | src/bin/12.rs:115-133 | the squares listed in one row up to column x lie in that row left of x, from left to right |
| Day13.CmpNat | src/bin/13.rs:15 | numbers compare Less exactly when smaller and Equal exactly when equal |
| Day13.SizeSingleton | src/bin/13.rs:26-33 | a singleton list is as large as its item, so the wrapping recursion terminates |
| Day13.CmpNumbers | src/bin/13.rs:15 | two numbers compare by value, in all three outcomes |
| Day13.CmpNumberAsSingleton | src/bin/13.rs:26-33 | a list compared with a number behaves as if the number were a singleton list, on either side |
| Day13.CmpReflexive | src/bin/13.rs:13-35 | every packet compares Equal with itself |
| Day13.CmpListsReflexive | src/bin/13.rs:16-25 | every list compares Equal with itself |
| Day13.CmpAntisymmetric | src/bin/13.rs:13-35 | swapping the packets reverses the result |
| Day13.CmpListsAntisymmetric | src/bin/13.rs:16-25 | swapping the lists reverses the result |
| Day13.ProperPrefixIsLess | src/bin/13.rs:17-24 | a list is Less than any proper extension of it |
| Day13.CmpTransitive | src/bin/13.rs:13-35 | whenever a-with-b and b-with-c are both not Greater (or both not Less), a-with-c is the stronger of the two, so the order is transitive |
| Day13.CmpListsTransitive | src/bin/13.rs:16-25 | list comparisons chain in the same way |
| Day13.WrapSize | src/bin/13.rs:26-33 | wrapping a number as a list does not grow it |
| Day13.CmpViaLists | src/bin/13.rs:13-35 | every comparison is a comparison of item lists, a number standing for the singleton list of itself |
| Day13.Insert | src/bin/13.rs:130 | insertion adds the packet to the multiset and one to the length |
| Day13.InsertSorted | src/bin/13.rs:130 | inserting into a sorted list keeps it sorted |
| Day13.Sort | src/bin/13.rs:130 | the sort is a sorted rearrangement of its input |
| Day13.FindEqual | src/bin/13.rs:132-133 | `find_position` returns the first position comparing Equal to the divider, none when there is none |
| Day13.CountLess | src/bin/13.rs:132-133 | at most every packet is below the divider |
| Day13.CountLessInsert | src/bin/13.rs:130 | inserting a packet adds one to the count below the divider exactly when it is below it |
| Day13.CountLessSort | src/bin/13.rs:130 | sorting keeps how many packets lie below a divider |
| Day13.NoneLess | src/bin/13.rs:132-133 | with no packet below the divider the count below is zero |
| Day13.SortedDividerPosition | src/bin/13.rs:130-133 | in a sorted list holding the divider, the first equal position is the number of packets below it |
| Day13.DividerPosition | src/bin/13.rs:132-133 | the one-based divider index is one more than the packets below it |
| Day13.KeyFor | src/bin/13.rs:130-135 | after `nodes.sort()` the key is the product of one plus the number of packets below each divider, whatever order the packets came in |
| Day13.ParseNumber | src/bin/13.rs:54-56 | text not starting with `[` parses to a number fitting in `u32`, or fails where `unwrap` panics |
| Day13.ShowShape | src/bin/13.rs:52-93 | a written packet is non-empty, starts with `[` exactly for a list, and a number is written in digits |
| Day13.DepthAppend | src/bin/13.rs:64-73 | the bracket depth of a concatenation is the sum of the depths |
| Day13.DepthOfDigits | src/bin/13.rs:64-73 | digits do not change the bracket depth |
| Day13.ShowDepth | src/bin/13.rs:64-73 | a written packet is balanced, never below depth 0, and a list stays above depth 0 until its last bracket |
| Day13.ShowItemsDepth | src/bin/13.rs:64-73 | written items are balanced and never below depth 0 |
| Day13.LeadAppend | src/bin/13.rs:58-89 | the items before one more item gain that item and a comma |
| Day13.ShowItemsSplit | src/bin/13.rs:58-89 | the written items split into the items before k and those from k |
| Day13.LeadOfAll | src/bin/13.rs:58-89 | all items with their commas are the written items plus one comma |
| Day13.ShowListParts | src/bin/13.rs:58-89 | a written list is the opening bracket, the items before k, item k, the rest and the closing bracket |
| Day13.ItemLayout | src/bin/13.rs:58-89 | item k of a written list sits right after the items before it and is followed by a comma or the closing bracket |
| Day13.RendersNumber | src/bin/13.rs:54-56 | a number's text parses back to that number |
| Day13.ShowEmptyList | src/bin/13.rs:58-60 | the empty list is written in two characters with no items, so the loop does not run |
| Day13.NextItem | src/bin/13.rs:60-89 | at each loop step the next item's text starts at the index and ends at a comma or the closing bracket |
| Day13.BracketScan | src/bin/13.rs:62-76 | the bracket-counting scan stops no later than the end of the nested list, and where depth returns to 0 it has read exactly that list |
| Day13.PrefixOfSlice | src/bin/13.rs:74-82 | a prefix of a slice is a slice |
| Day13.NumberScan | src/bin/13.rs:77-84 | the scan to the next comma reads exactly the number item |
| Day13.AllItems | src/bin/13.rs:60-91 | when the index reaches the closing bracket every item has been read |
| Day13.Parse | src/bin/13.rs:52-93 | text not starting with `[` parses as a number, `[]` as the empty list, other bracketed text as a list, and the written form of every packet parses back to that packet |
| Day14.Column | src/bin/14.rs:19-21 | a column holds exactly the cells from y0 up to but not including y1, in increasing y |
| Day14.InColumns | src/bin/14.rs:18-22 | the nested loops visit exactly the cells of the rectangle |
| Day14.InLineBox | src/bin/14.rs:13-25 | a cell is in a segment exactly when it lies between its ends in both coordinates, inclusive |
| Day14.GetLinePoints | src/bin/14.rs:13-25 | `get_line_points` returns the cells between the two ends, ends included, in both coordinates |
| Day14.NextSandPositions | src/bin/14.rs:27-42 | the three candidates are one row down: straight, then left, then right |
| Day14.IndexInRange | src/bin/14.rs:108 | a cell inside the grid has an index inside the cells |
| Day14.DrawPoints | src/bin/14.rs:99-105 | drawing keeps the number of cells |
| Day14.DrawPointsAt | src/bin/14.rs:99-110 | after drawing, a cell holds the value exactly when some drawn point has its index, and is unchanged otherwise |
| Day14.DrawPointsAppend | src/bin/14.rs:99-105 | drawing two lists of points is drawing one after the other |
| Day14.PathPointsInGrid | src/bin/14.rs:99-105 | a path inside the grid draws only cells inside the grid |
| Day14.InGridInRange | src/bin/14.rs:108-109 | cells inside the grid index inside the cell vector |
| Day14.InFlatten | src/bin/14.rs:61-63 | every corner of every path is in the flattened list |
| Day14.MaxX | src/bin/14.rs:61 | the largest x among the corners, which some corner has |
| Day14.MaxY | src/bin/14.rs:63 | the largest y among the corners, which some corner has |
| Day14.DropRests | src/bin/14.rs:118-137 | where a unit of sand rests, the three cells below are occupied and inside the grid, and the resting cell is the source or a free cell in a lower row |
| Day14.DropFromRests | src/bin/14.rs:121-133 | the same for the scan from any candidate on, given the candidates before it are occupied |
| Day14.Grid.constructor | src/bin/14.rs:60-97 | the grid is twice as wide as the rightmost corner needs, as deep as the lowest corner (two more with a floor), and holds rock exactly at the drawn path cells and the floor |
| Day14.Grid.DrawPath | src/bin/14.rs:99-105 | every cell of every segment of the path becomes rock, nothing else changes |
| Day14.Grid.DrawLine | src/bin/14.rs:101-103 | the cells of one segment become rock in order, nothing else changes |
| Day14.Grid.DrawPosition | src/bin/14.rs:107-110 | the one cell at the index becomes the value |
| Day14.Grid.PourSand | src/bin/14.rs:118-137 | a unit that falls out gives false and changes nothing; a unit that rests changes only its cell to sand and gives whether it rested away from the source; index panics and x = 0 give None |
| Day14.RocksStep | src/bin/14.rs:79-81 | drawing path k of `Grid::new` stays inside the grid and extends the drawing of the paths before it |
| Day14.FloorStep | src/bin/14.rs:83-94 | the floor path lies inside the grid, covers the last row, and is drawn after the rock paths |
| Day14.EmptyCells | src/bin/14.rs:70-71 | the new cell vector has `width * height` empty cells |
| Day14.InGridAppend | src/bin/14.rs:79-94 | two lists of cells inside the grid join to a list inside the grid |
| Day14.FloorIsRock | src/bin/14.rs:83-94 | with a floor, every cell of the last row is rock after `Grid::new`'s drawing |
| Day15.Distance | src/bin/15.rs:13-15 | the Manhattan distance is zero exactly between equal cells |
| Day15.DistanceSymmetric | src/bin/15.rs:13-15 | the distance does not depend on the order of its arguments |
| Day15.DistanceTriangle | src/bin/15.rs:13-15 | the distance obeys the triangle inequality |
| Day15.MakeSensor | src/bin/15.rs:36-37 | the stored radius is one more than the beacon distance, so the beacon lies inside it |
| Day15.RowRangeCovers | src/bin/15.rs:58-75 | a cell of the row is in the sensor's interval exactly when it is inside the clamp and closer to the scanner than the radius |
| Day15.RowRangeUnclamped | src/bin/15.rs:58-65 | without a clamp a sensor contributes nothing exactly when its radius is at most its distance to the row, and otherwise the interval has width 2(r - d) - 1 centred on the scanner |
| Day15.Collect | src/bin/15.rs:57-76 | each sensor contributes at most one interval |
| Day15.CollectStep | src/bin/15.rs:57-76 | each loop step appends the sensor's interval, if any, to those collected before |
| Day15.CollectCovers | src/bin/15.rs:57-76 | a cell is covered by the collected intervals exactly when it is inside the clamp and some sensor rules it out |
| Day15.CollectWithinClamp | src/bin/15.rs:67-70 | with a clamp every collected interval starts at or after its lower bound and ends at or before its upper bound |
| Day15.InsertByStart | src/bin/15.rs:78 | insertion keeps the intervals sorted by start and adds exactly one interval |
| Day15.SortByStart | src/bin/15.rs:78 | the sort is a rearrangement sorted by start |
| Day15.CoveredCons | src/bin/15.rs:81-94 | a cell is covered by r followed by rs exactly when r or rs covers it |
| Day15.SameElementsSameCover | src/bin/15.rs:78-79 | rearranging the intervals keeps the covered cells |
| Day15.MergeFrom | src/bin/15.rs:83-93 | the merged intervals start where the current interval starts |
| Day15.Merged | src/bin/15.rs:81-96 | merging never gives more intervals than it was given |
| Day15.MergeFromLength | src/bin/15.rs:84-92 | merging from the current interval gives at most one interval more than remain |
| Day15.SortedTail | src/bin/15.rs:84-91 | popping the next interval keeps the popped-so-far interval starting no later than the rest |
| Day15.MergeFromSeparated | src/bin/15.rs:84-93 | from sorted input the merged intervals are pairwise separated: each ends before the next starts |
| Day15.MergeFromCovers | src/bin/15.rs:84-93 | the merged intervals cover exactly the current interval and the rest |
| Day15.MergeFromKeepsProper | src/bin/15.rs:84-93 | merging non-empty intervals inside the clamp gives non-empty intervals inside the clamp |
| Day15.MergedProperties | src/bin/15.rs:78-96 | merging sorted intervals gives separated intervals covering the same cells |
| Day15.SeparatedOrdered | src/bin/15.rs:78-96 | in separated non-empty intervals every earlier interval ends before every later one starts |
| Day15.CalculateRanges | src/bin/15.rs:51-97 | the result is the merge of the sorted collected intervals; they are separated and cover exactly the cells of the row inside the clamp that some sensor rules out |
| Day15.CollectRanges | src/bin/15.rs:56-76 | the first loop collects, sensor by sensor, the clamped interval each rules out in the row, skipping sensors out of reach and empty intervals |
| Day15.MergeRanges | src/bin/15.rs:81-94 | the second loop gives the merge of the sorted intervals, joining each to the current one unless a gap separates them |
| Day15.MergedCovers | src/bin/15.rs:51-97 | the same facts about the specification of the result |
| Day15.DropEmpty | src/bin/15.rs:72-75 | every kept interval holds a cell and was in the input |
| Day15.DropEmptyCovers | src/bin/15.rs:72-75 | dropping intervals that hold no cell keeps the covered cells |
| Day15.CollectProper | src/bin/15.rs:67-75 | with intervals that hold no cell dropped, every clamped interval holds a cell inside the clamp |
| Day15.SortProper | src/bin/15.rs:78 | sorting keeps the intervals non-empty and inside the clamp |
| Day15.MergedProper | src/bin/15.rs:81-94 | merging keeps the intervals non-empty and inside the clamp |
| Day15.GapInSeparated | src/bin/15.rs:135-136 | with more than one separated interval, the end of the first is inside the clamp and not covered |
| Day15.GapIsPossibleBeacon | src/bin/15.rs:132-137 | with empty intervals dropped, more than one merged interval means the end of the first is a cell of the search square no sensor rules out |
| Day15.InvertedRangeMakesFalseGap | src/bin/15.rs:67-75 | as written, a sensor wholly right of the clamp gives a kept interval with start > end, so the row shows a gap at x = 20 outside the square though all of [0, 20) is ruled out |
| Day15.ExampleRanges | src/bin/15.rs:57-76 | for that input the collected intervals are [0, 20) and the inverted (28, 20) |
| Day15.ExampleMerge | src/bin/15.rs:78-96 | those two intervals merge to themselves |
| Day16.Opened | src/bin/16.rs:85-88 | clearing the bit of a closed valve gives a smaller configuration in which that valve is open |
| Day16.DisjointMeansNoSharedValve | src/bin/16.rs:143-145 | two configurations pass the `me & elephant == 0` test exactly when no valve is closed in both |
| Day16.MaxNeighborsBounds | src/bin/16.rs:96-104 | the running maximum over the neighbours is at least its start and every neighbour's entry, and equals one of them |
| Day16.BestAtLeastNeighbors | src/bin/16.rs:96-104 | each entry is at least every neighbour's entry one minute later with the same configuration |
| Day16.BestAtLeastOpening | src/bin/16.rs:82-91 | when the valve is closed and opening is allowed, the entry is at least the entry a minute later with the valve open plus flow times time left |
| Day16.BestIsAnOption | src/bin/16.rs:78-104 | each entry is the opening value or one neighbour's entry, nothing larger |
| Day16.RelevantComeFirst | src/bin/16.rs:30 | after sorting by flow descending, a node has positive flow exactly when its index is below the number of positive-flow valves |
| Day16.IrrelevantNeverClosed | src/bin/16.rs:58-59 | a node past the positive-flow ones never has its bit set in a configuration of the table |
| Day16.FillTable | src/bin/16.rs:56-117 | the freshly allocated table has the source's dimensions and every entry equals the recursive definition; entries at time left 0 stay 0 |
| Day16.FillTime | src/bin/16.rs:76-113 | one pass of the time loop fills every entry at that time from the entries a minute later |
| Day16.Entry | src/bin/16.rs:78-104 | the value computed for one state equals its recursive definition |
| Day16.CombineDisjoint | src/bin/16.rs:141-149 | the result is at least the sum for every disjoint pair of configurations and equals the sum of one such pair |
| Day16.TwoMinutesLeftValveIgnored | src/bin/16.rs:82 | with the `time_left > 1` guard a closed valve of flow 5 at table index 1 adds nothing; without it it adds 5 |
| Day16.OpenNowLowerBound | src/bin/16.rs:82-91 | with the corrected guard every entry at a closed valve is at least flow times time left |
| Day16.RelevantCount | src/bin/16.rs:60 | at most every valve has a positive flow |
| Day16.ClearBit | src/bin/16.rs:85-88 | clearing a set bit subtracts its power of two and leaves it unset |
| Day17.CycleIsBijective | src/bin/17.rs:15-24 | `Shape::cycle` is defined on 0..4 and gives each of the five shapes exactly once |
| Day17.ShapeFitsBox | src/bin/17.rs:26-81 | every shape point lies in [0, width) x [0, height), and the points touch all four sides of that box |
| Day17.RealPoints | src/bin/17.rs:150-152 | the rock's cells are its shape's points, each shifted by the origin |
| Day17.CentresClose | src/bin/17.rs:131-138 | two overlapping intervals have centres (rounded down) closer than half their summed lengths |
| Day17.BoxesOverlap | src/bin/17.rs:115 | rocks sharing a cell have boxes that overlap on both axes |
| Day17.PreciseImpliesBoundingBox | src/bin/17.rs:115 | two rocks sharing a cell also pass the bounding-box test, so testing it first loses no collision |
| Day17.StepStaysInChamber | src/bin/17.rs:105-113 | a one-cell step the wall and floor guard lets through keeps the rock inside the seven-wide chamber above the floor |
| Day17.Rock.Spawn | src/bin/17.rs:90-95 | a new rock stands at column 2 on the given height, inside the chamber when the height is not negative |
| Day17.Rock.MoveDirection | src/bin/17.rs:105-121 | the rock moves exactly when the guard lets the step through and the moved rock shares no cell with any earlier rock; otherwise the origin is restored; it answers whether the origin changed, and a rock inside the chamber stays inside |
| Day17.Rock.Fall | src/bin/17.rs:101-103 | the rock falls one row exactly when it is above the floor and the lowered rock collides with nothing; otherwise it stays |
| Day17.ParseJets | src/bin/17.rs:157-166 | only `>` and `<` give jets, one unit right or left; other characters are skipped |
| Day17.ParseShowJets | src/bin/17.rs:157-166 | writing jets as `>`/`<` and parsing them gives the jets back |
| Day17.RecursCheck | src/bin/17.rs:183-195 | the `k`/`l` loops succeed exactly when the run of j + 1 rocks from i recurs, by shape and column, four more times |
| Day17.CheckCycles | src/bin/17.rs:168-206 | None exactly when no rock has a twin whose run recurs; otherwise the result comes from the first such pair in loop order and holds the height gained, the run length (at least 1) and i + 1 |
| Day18.DirectionsAreFaces | src/bin/18.rs:33-34 | the six offsets lead to exactly the cubes sharing a face with a cube |
| Day18.ParseI32 | src/bin/18.rs:11-13 | a parsed coordinate is a signed decimal inside the 32-bit range |
| Day18.ParseShowPoint | src/bin/18.rs:8-15 | a cube written as `x,y,z` reads back as itself |
| Day18.ParsePoints | src/bin/18.rs:8-15 | one cube per line, each the parse of its line |
| Day18.Minimum | src/bin/18.rs:16-20 | the minimum is one of the values and no value is smaller |
| Day18.Maximum | src/bin/18.rs:21-25 | the maximum is one of the values and no value is larger |
| Day18.Bounds | src/bin/18.rs:16-25 | the corners bound every cube on each axis and each coordinate is some cube's |
| Day18.ParseInput | src/bin/18.rs:7-27 | a parsed droplet has at least one cube |
| Day18.ParseInputBounds | src/bin/18.rs:7-27 | the returned corners bound every cube of the set, and every corner coordinate is attained by a cube |
| Day18.FreeSides | src/bin/18.rs:33-41 | a cube has at most as many open sides as offsets tried |
| Day18.OpenSidesOf | src/bin/18.rs:32-42 | the total does not depend on the order in which the set yields its cubes |
| Day18.OpenSidesBound | src/bin/18.rs:29-45 | the open sides number at most six per cube |
| Day18.LoneCube | src/bin/18.rs:29-45 | a droplet of one cube has six open sides |
| Day18.CountOpenSides | src/bin/18.rs:29-45 | the loop over the set counts the open sides of every cube |
| Day18.ReachStep | src/bin/18.rs:57-68 | a cube adjacent to a reached cube, or to the start, is reached |
| Day18.WalkStaysInside | src/bin/18.rs:55-71 | once the queue is empty every step of a walk from the start is closed |
| Day18.Visit | src/bin/18.rs:58-68 | a neighbour that is a cube and not closed is closed and queued; otherwise nothing changes |
| Day18.ExpandPoint | src/bin/18.rs:56-70 | after one popped cube all its neighbours among the cubes are closed, and only reached cubes were added |
| Day18.FindConnectedPoints | src/bin/18.rs:47-74 | the flood returns a subset of the cubes, namely exactly those reachable from the start in one step or more |
| Day18.CreateCube | src/bin/18.rs:76-86 | the cells are exactly those of the half-open box, none when it is empty |
| Day18.Box | src/bin/18.rs:76-86 | the box set holds exactly the cells inside the half-open bounds |
| Day18.PartOne | src/bin/18.rs:88-91 | the answer is the open sides of the whole droplet |
| Day18.PartTwo | src/bin/18.rs:93-105 | the answer is the droplet's open sides less those of the cells of the padded box that the flood from its corner cannot reach, or nothing when that would be negative |
| Day18.Add | src/bin/18.rs:33-34 | adding an offset to a cube is undone by subtracting it, on every axis |
| Day18.DirectionIsFace | src/bin/18.rs:33-34 | each of the six offsets leads to a cube sharing a face |
| Day18.AllSidesFree | src/bin/18.rs:33-41 | a cube with no neighbour in the set has every tried side open |
| Day18.Xs | src/bin/18.rs:16-25 | the x coordinates of the cubes, in order |
| Day18.Attained | src/bin/18.rs:16-25 | a coordinate value that occurs is some cube's coordinate on that axis |
| Day18.ExpandOne | src/bin/18.rs:58-68 | after a neighbour is handled, every closed set that includes it keeps it handled |
| Day18.ExpandedGrows | src/bin/18.rs:56-70 | a popped cube stays fully expanded as the closed set grows |
| Day18.QueueAppend | src/bin/18.rs:58-68 | a visit keeps the queue it started from as a prefix and queues only closed cubes |
| Day18.QueueGrows | src/bin/18.rs:52-70 | after a cube is popped and expanded every queued cube is the start or closed, and nothing that was waiting is lost |
| Day19.MakeCosts | src/bin/19.rs:102-123 | the blueprint costs hold the parsed numbers in their places, and the highest ore cost is the largest of the four ore costs |
| Day19.Generate | src/bin/19.rs:30-45 | robots stay the same and every material grows by exactly the number of robots collecting it |
| Day19.GenerateGrows | src/bin/19.rs:30-45 | generating never loses any material |
| Day19.CanBuyAfterGenerate | src/bin/19.rs:145-185 | a robot affordable before generating is affordable after, so the purchase cannot underflow |
| Day19.Buy | src/bin/19.rs:72-93 | exactly one robot of the chosen type is added, its cost is paid, and the geode count is untouched; an unaffordable purchase is refused |
| Day19.OptimumAtLeastWaiting | src/bin/19.rs:134-193 | the optimum is at least the current geodes plus one per geode robot and minute |
| Day19.OptimumAtMostCeiling | src/bin/19.rs:128-198 | the optimum is at most what buying a geode robot in each minute would give |
| Day19.CeilingStep | src/bin/19.rs:142-193 | one minute with at most one new geode robot does not raise that ceiling |
| Day19.FindOptimum | src/bin/19.rs:128-198 | the memoised search returns the optimum and leaves every cache entry equal to the optimum for its key |
| Day19.TryBuying | src/bin/19.rs:145-185 | one buying branch gives the optimum after buying the robot when it is tried, and nothing otherwise |
| Day20.Identity | src/bin/20.rs:58 | the starting positions put every number at its own index |
| Day20.IdentityIsPermutation | src/bin/20.rs:58 | the starting positions are a permutation |
| Day20.InjectiveBound | src/bin/20.rs:16-40 | distinct positions below m number at most m |
| Day20.PermutationIsOnto | src/bin/20.rs:42-49 | a permutation of the positions holds every position |
| Day20.Without | src/bin/20.rs:42-49 | removing one value keeps the other values, without repeats |
| Day20.Find | src/bin/20.rs:71-76 | the first index holding the position |
| Day20.Target | src/bin/20.rs:19-20 | the new position is the old one plus the value, taken as a Euclidean remainder by n - 1, so it lies in 0..n-2 |
| Day20.Moved | src/bin/20.rs:16-40 | one move yields one position per number |
| Day20.MovedIsPermutation | src/bin/20.rs:16-40 | moving one number keeps the positions a permutation |
| Day20.MixedUpTo | src/bin/20.rs:62-66 | the positions after moving the first i numbers are still a permutation |
| Day20.NumbersInOrder | src/bin/20.rs:42-49 | the number at each list position is the number whose index holds that position |
| Day20.NumbersInOrderIsPermutation | src/bin/20.rs:42-49 | reading the numbers in position order is a rearrangement of the numbers |
| Day20.Reindex | src/bin/20.rs:42-49 | picking the entries of a sequence through a permutation rearranges it |
| Day20.IndexedList.Parse | src/bin/20.rs:52-60 | the parsed list keeps the numbers in input order, each at its own position |
| Day20.IndexedList.MoveNumber | src/bin/20.rs:16-40 | the positions become those of moving number i, the number goes to its target and those in between shift by one, and they stay a permutation |
| Day20.IndexedList.Mix | src/bin/20.rs:62-66 | the positions become those of moving every number once in vector order |
| Day20.IndexedList.NumberAt | src/bin/20.rs:71-77 | the search returns the number at the given list position |
| Day20.IndexedList.ExtractCoordinates | src/bin/20.rs:68-93 | the three numbers 1000, 2000 and 3000 positions after the zero, wrapping around the list |
| Day20.Zero | src/bin/20.rs:69 | the vector index of the first zero |
| Day21.TruncDivOfProduct | src/bin/21.rs:66 | truncating division of a product by one nonzero factor gives the other factor |
| Day21.Calculate | src/bin/21.rs:38-73 | the result is a literal exactly when the input is a literal or an operation on two numbers; anything else comes back unchanged |
| Day21.CalculatePreservesValue | src/bin/21.rs:38-73 | calculating never changes the number an expression stands for |
| Day21.FlipLiteral | src/bin/21.rs:78 | a literal is returned unchanged with its name |
| Day21.FlipAdditive | src/bin/21.rs:81-124 | a sum or difference of a variable and a number is turned into an equation for that variable that holds exactly when the original does |
| Day21.FlipMultiplication | src/bin/21.rs:127-146 | a product with a nonzero number is turned into a division that recovers the variable |
| Day21.FlipDivision | src/bin/21.rs:149-160 | a quotient by a nonzero number is turned into a product, which implies the original equation |
| Day21.FlipEquality | src/bin/21.rs:173-187 | the equality of a variable and a number becomes a literal of that number named by the variable |
| Day21.FlipFallback | src/bin/21.rs:81-170 | when no operand pattern matches, a sum becomes a difference, a product a quotient and a quotient a difference, under the same name |
| Day21.Literals | src/bin/21.rs:194-203 | the names in the literal map are exactly those bound to a number literal |
| Day21.LiteralsAreBindings | src/bin/21.rs:194-203 | each name's value in the map is a number literal bound to that name |
| Day21.Reduced | src/bin/21.rs:206-283 | a literal entry is dropped and every other entry is kept |
| Day21.ReducedPreservesValue | src/bin/21.rs:206-283 | substitution keeps what an entry stands for under any assignment that agrees with the literals |
| Day21.ReduceSpecProperties | src/bin/21.rs:205-287 | the result has no literal entry and no operand in it names a literal |
| Day21.ReduceSpecPreservesValue | src/bin/21.rs:205-287 | each result entry has the name of an input entry and stands for the same number under any agreeing assignment |
| Day21.Reduce | src/bin/21.rs:192-290 | the two loops compute the literal map and the rewritten entries, and the output is never longer than the input |
| Day21.Substitute | src/bin/21.rs:208-282 | an operand left as a variable names no literal |
| Day21.ReduceSpec | src/bin/21.rs:205-287 | the rewritten entries are never more than the input entries |
| Day22.Heading | src/bin/22.rs:481-550 | turning keeps a direction cardinal or diagonal |
| Day22.FlippedWrap | src/bin/22.rs:475-552 | the wrap panics exactly on a diagonal direction; otherwise a cell of the face stays in the face, and the walker enters by the edge its new heading points away from |
| Day22.StraightWrap | src/bin/22.rs:482-494 | without a turn the walker keeps its coordinate along the edge and enters by the opposite edge |
| Day22.WrapAlongEdge | src/bin/22.rs:495-549 | the place along the entry edge is the place along the exit edge, kept or mirrored |
| Day22.WrapInjective | src/bin/22.rs:475-552 | two different cells leaving by the same edge arrive at different cells |
| Day22.WrapOnto | src/bin/22.rs:475-552 | every cell of the entry edge is reached from a cell of the exit edge, so the two edges correspond one to one |
| Day22.FacingCode | src/bin/22.rs:555-561 | the facing code is defined exactly for the four cardinal directions and lies in 0..3 |
| Day22.RightAddsOne | src/bin/22.rs:555-561 | a right turn adds one to the facing code, modulo four |
| Day22.FacingCodeInjective | src/bin/22.rs:555-561 | different facings have different codes |
| Day22.Password | src/bin/22.rs:554-563 | the password is defined exactly for cardinal facings |
| Day22.PasswordDecodes | src/bin/22.rs:554-563 | on a board under 249 columns the password gives back the row, the column and the facing code |
| Day22.PasswordInjective | src/bin/22.rs:554-563 | on such a board different final states have different passwords |
| Day23.StepMoves | src/bin/23.rs:67-68 | a step in any direction leads to another cell |
| Day23.Side | src/bin/23.rs:58-153 | an elf looks at three cells before stepping in a cardinal direction, the cell in that direction first |
| Day23.RotateLeft | src/bin/23.rs:42 | entry `i` of the rotated order is entry `(i + k) mod n` of the original |
| Day23.DirectionsOrder | src/bin/23.rs:36-42 | the order is north, south, west, east started at position `cycle mod 4`, and holds only cardinal directions |
| Day23.AllEmpty | src/bin/23.rs:46-47 | true exactly when no elf stands one step away in any of the given directions |
| Day23.FirstOpen | src/bin/23.rs:56-154 | the chosen direction belongs to the order and its three cells are free; there is none only when every side in the order is blocked |
| Day23.IsolatedStays | src/bin/23.rs:46-52 | an elf with no neighbour proposes its own cell |
| Day23.ProposalNeedsFreeSide | src/bin/23.rs:56-154 | an elf proposes another cell only one step towards a direction of the order whose side is free, and that cell is empty |
| Day23.TargetOfOccupied | src/bin/23.rs:46-159 | an occupied cell is proposed only by the elf standing on it |
| Day23.ProposeMove | src/bin/23.rs:56-159 | after one more elf, every processed elf's proposal is recorded under its cell, each list holding exactly the elves proposing that cell, without repeats |
| Day23.GetProposedMoves | src/bin/23.rs:30-165 | the flag is set exactly when some elf has a neighbour, and every proposed cell maps to exactly the elves proposing it, without repeats |
| Day23.DoProposedMove | src/bin/23.rs:167-181 | a cell is occupied afterwards exactly when a single elf proposed it or it is the home of an elf whose cell was proposed by several |
| Day23.ArrivalsAreNextGrid | src/bin/23.rs:167-181 | moving on complete proposals occupies exactly the cells where the elves end the round |
| Day23.MoveMakesNextGrid | src/bin/23.rs:167-181 | the grid built from complete proposals is the next grid of the round |
| Day23.DestinationInjective | src/bin/23.rs:171-176 | no two elves end a round on the same cell |
| Day23.RoundKeepsElves | src/bin/23.rs:167-181 | a round keeps the number of elves |
| Day23.ConflictStaysHome | src/bin/23.rs:171-174 | two elves proposing the same cell both stay home, and the cell stays empty |
| Day23.SettledIsFixed | src/bin/23.rs:46-52 | when no elf has a neighbour the round leaves the grid unchanged |
| Day23.RoundsKeepElves | src/bin/23.rs:186-192 | any number of rounds keeps the number of elves |
| Day23.SettledStays | src/bin/23.rs:187-190 | once no elf moves, every later round leaves the grid as it is, which makes the early exit harmless |
| Day23.PlayRound | src/bin/23.rs:187-191 | a round reports whether some elf has a neighbour, and when one has, the grid moves on to the next round's grid |
| Day23.ParseInput | src/bin/23.rs:10-28 | a point holds an elf exactly when its line has `#` at its column |
| Day23.Elves | src/bin/23.rs:10-28 | the set of elves of a file holds exactly the `#` positions |
| Day23.TightUnique | src/bin/23.rs:194 | the smallest and largest coordinates of a grid are unique |
| Day23.Dimensions | src/bin/23.rs:194 | the corners bound every elf, and each of the four bounds is attained by some elf |
| Day23.Cells | src/bin/23.rs:195 | the rectangle holds exactly the points between the two corners |
| Day23.CellsSize | src/bin/23.rs:195 | the rectangle holds width times height points |
| Day23.EmptyTiles | src/bin/23.rs:195-196 | width times height less the number of elves is the number of empty cells of the bounding rectangle |
| Day23.PartOne | src/bin/23.rs:183-197 | the answer is the number of empty cells in the bounding rectangle of the grid after ten rounds |
| Day23.Settle | src/bin/23.rs:201-212 | the loop returns the first round in which no elf moves, every earlier round moving some elf; none when elves move in each of the first `limit` rounds |
| Day23.PartTwo | src/bin/23.rs:199-213 | the answer is the number of the first round in which no elf moves, and some elf moves in every earlier round; none when elves still move after `limit` rounds |
| Day23.RoundOrder | src/bin/23.rs:186-192 | the direction order of every round holds only cardinal directions |
| Day23.ImageSize | src/bin/23.rs:167-181 | the elves of any part of the grid end a round on as many cells as there are elves |
| Day23.RowCells | src/bin/23.rs:195 | one row of the rectangle holds exactly the points between its two ends |
| Day23.RowCellsSize | src/bin/23.rs:195 | a row of the rectangle holds as many points as its width |
| Day23.SplitLastRow | src/bin/23.rs:195 | the rectangle is the rectangle one row shorter plus its last row, the two not sharing a point |
| Day25.DigitToSnafu | src/bin/25.rs:17-26 | the encoder's digit map emits only the five numeral characters |
| Day25.SnafuToDigit | src/bin/25.rs:39-48 | a numeral character is worth between -2 and 2 |
| Day25.DigitMapsAgree | src/bin/25.rs:17-48 | decoding an encoded digit d gives d for d up to 2 and d - 5 for 3 and 4 |
| Day25.PowIsOdd | src/bin/25.rs:8-9 | a power of five is odd, so halving it rounds down to `Half` |
| Day25.SnafuValueAppend | src/bin/25.rs:32-34 | appending a digit multiplies the value by five and adds the digit |
| Day25.SnafuValueBound | src/bin/25.rs:32-34 | a numeral of e digits is at most `5^e / 2` in magnitude |
| Day25.CanonicalIsPositive | src/bin/25.rs:3-15 | a non-empty numeral led by 1 or 2 is positive |
| Day25.Encode | src/bin/25.rs:3-15 | the reference encoding of n is a numeral led by 1 or 2 whose value is n |
| Day25.LastDigitOf | src/bin/25.rs:17-48 | the encoder's digit map, applied to the remainder modulo five of 5v plus a digit's value, gives back that digit, and what is left is v |
| Day25.EncodeOfSnafuValue | src/bin/25.rs:3-15 | every numeral led by 1 or 2 is the encoding of its own value |
| Day25.CanonicalUnique | src/bin/25.rs:3-15 | two numerals led by 1 or 2 with the same value are the same numeral |
| Day25.DigitSplit | src/bin/25.rs:9-10 | the digit taken at position p lies in 0..4 and splits the number around p |
| Day25.EncoderStep | src/bin/25.rs:8-12 | one more digit extends the balanced remainder by one position |
| Day25.PrependDigit | src/bin/25.rs:8-12 | each round's digit lies in 0..4 and, put in front, keeps the result equal to the balanced remainder of one more digit; in the last round it is 1 or 2 |
| Day25.ConvertIntoSnafu | src/bin/25.rs:3-15 | the loop builds the encoding of its input, a numeral of that value led by 1 or 2, empty exactly for zero |
| Day25.ConvertFromSnafu | src/bin/25.rs:28-37 | the result is the sum of digit times 5^position over the trimmed numeral, read from the right, wrapped into `usize` |
| Day25.RoundTrip | src/bin/25.rs:3-37 | decoding the encoding of any `usize` gives it back |

## Left out

General:
- Input and output: `main`, `read_file`, `solve!` and every `println!` or display helper. They only move text in and out.
- `src/bin/24.rs`: it depends on a priority-queue crate and on shared grid helpers (`lcm`, `wrap_around_in_rectangle`). Those are not part of this model.
- Parsing delegated to foreign libraries: the `regex` parsers of days 16, 19 and 22 and the `parse_display` derives. Days 4, 14, 15 and 18 parse `x,y` or `x=…, y=…` coordinates this way. Only the logic after parsing is modelled; days 4 and 18 model their comma parsing with the `Text` operations.
- Machine integers are mathematical. Overflow of `u32`, `i32`, `i64` and `usize` arithmetic is not modelled: sums, products, `as` casts. Where a parse is limited to a width, the limit is modelled.
- `HashMap`/`HashSet` iteration order: a map the source walks is a sequence in a fixed order, or a set. This holds for the sensors of day 15, the cubes of day 18 and the elves of day 23. Each result is proved not to depend on the order, or is stated for every order.
- The `part_one`/`part_two` drivers are modelled only when they add logic to the core. In day 13 `part_one` is not modelled. Left out are also the pouring loops of day 14, the rock simulation of day 17, and the `part_one_param`/`part_two_param` loops of day 15 over rows and beacons.
- Text.IsWhitespace: accepts only space, tab, line feed and carriage return. Rust's `trim` and `split_whitespace` also accept other Unicode whitespace, so the model splits or trims differently on such characters.

Per day:
- Day03.SplitRucksack: `split_at` works on bytes; the model works on characters, as if every character were one byte.
- Day05: the crate drawing parser `Ship::try_from` is not modelled. A ship is built from its stacks.
- Day07: the `Rc<RefCell>` parent pointers become a tree datatype with a path of child indices. Aliasing between the two is not modelled.
- Day07.PartTwo: requires a used size of at least 40000000, where the source's `usize` subtraction would underflow.
- Day08: the grid must be rectangular. The source flattens all lines and reads them with the first line's width, so on a grid with a shorter or longer later line the trees shift into other rows and are compared with the wrong neighbours. `part_two` can also panic when an interior index passes the end of the flattened grid, and `part_one` can index past a maxima vector.
- Day10.Crt.Tick: requires the beam to stay on the screen when it must draw; the source panics past the end.
- Day11: `u32` products of worry levels can overflow in the source; the model uses unbounded worry levels.
- Day12: `pathfinding` is not modelled; it depends on a priority-queue crate. The height of a character below `a` underflows a `u32` in the source; the model returns `None` there. `StartingLocations` requires a rectangular map.
- Day12.IndexOf: returns a character index, where `char_indices` gives a byte offset. The two agree only while the input is ASCII.
- Day13.Parse: indexes characters, where `PacketNode::from` slices bytes with `get(index..index + 1)`. The two agree only on ASCII text. On other input the source can hit `None => unreachable!()` (src/bin/13.rs:85) where the model still reads a packet.
- Day14.Grid.constructor: requires at least one rock corner. With no rock at all, the source's `max_by_key(..).unwrap()` panics (src/bin/14.rs:61), and the model does not describe that panic.
- Day16: `parse_input_into_nodes` is not modelled, including how valve names are resolved to indices. The table fill takes the nodes already sorted by flow, with neighbour indices inside the graph.
- Day16.ValveBit: the shift `1 << n` is modelled as a shift by `n % 32`, as in a release build. A debug build panics for `n >= 32`.
- Day17: `push` only calls `move_direction` and has no model of its own. `collide_with_bounding_box` is modelled as a predicate; it is proved to lose no collision.
- Day18: the shared `Point3` and its `directions` are not part of this model. A cube is taken to be an integer triple, and `directions` the six unit offsets.
- Day19: the blueprint regex parser is not modelled. The memo `cache` is a `map` threaded through the search.
- Day20: `rem_euclid` on `i64` is Dafny's Euclidean `%` on unbounded integers.
- Day20.IndexedList.Parse: takes the numbers already read. The `parse::<i64>().unwrap()` of every line is not modelled, so a bad line, which panics in the source, has no counterpart.
- Day20.IndexedList.Mix: requires at least two numbers. With no numbers the source's loop does nothing, and with one number its `rem_euclid` divides by zero and panics.
- Day21.Calculate: requires that the expression is not a division of a number by the literal zero. That case panics in the source at `l / r` (src/bin/21.rs:66), and the model does not describe the panic.
- Day21.CalculatePreservesValue: has the same requirement as `Calculate`, so it says nothing about a literal division by zero.
- Day22: left out are `wrap_around_cube`, `do_action`, `do_action_cube`, `convert_into_cube_grids` and `get_start_position`. They depend on shared `PointGrid` and `PointDirection` methods that are not part of this model. `wrap_around_cube` is also a list of cases written for one input. `PointDirection` is taken to be the eight compass points, and `direction_right` a clockwise quarter turn.
- Day23: the shared `PointGrid`, `get_point_in_direction` and `dimensions` are not part of this model. A grid is the set of occupied points.
- Day23.PartOne: requires at least one elf; the size of an empty grid's bounding box is undefined.
- Day23.PartTwo: takes a bound on the number of rounds, `limit`, because the source's loop is not proved to terminate. `None` means some elf still moves in every round up to the bound.
- Day25: the sum of the numerals in `part_one` is not modelled; only the conversions are.

## Findings

The operations model the code as written. Each corrected definition sits beside its as-written counterpart, with the intended property proved about it.

| source | as written | input that shows it | evidently intended | confidence | as-written member | corrected member |
|---|---|---|---|---|---|---|
| src/bin/06.rs:12 | the marker is reported only when its window index is greater than zero | `abcd` with window 4: the first window is distinct, yet no marker is reported | a distinct first window gives position 4 | high, not executed | Day06.FirstWindowMarkerIsLost | Day06.Marker |
| src/bin/07.rs:31 | directories are summed only when their size is strictly below 100000 | one directory holding a single file of size 100000 adds nothing | sizes of at most 100000 are summed | medium, not executed | Day07.ExactSizeIsSkipped | Day07.SumAtMost |
| src/bin/07.rs:38-62 | the deletion candidate must be strictly larger than the space to free | a directory of size 5 with 5 to free is not found | a directory freeing exactly enough is a candidate | medium, not executed | Day07.ExactSizeIsSkipped | Day07.SmallestAtLeast |
| src/bin/08.rs:17-22 | the top and bottom maxima vectors are sized by the row count and the left and right ones by the column count | a grid three wide and one high indexes column 1 of a one-slot vector | vectors sized by the columns for top and bottom and by the rows for left and right | high, not executed | Day08.WideGridOverruns | Day08.IntendedSizesFit |
| src/bin/08.rs:87-90 | a tree on the border counts one tree in its outward direction | in the grid 010/000/000 the top middle tree scores 2 | a border tree sees no tree on one side and scores 0 | medium, not executed | Day08.BorderTreeScores | Day08.IntendedScore |
| src/bin/15.rs:72 | only clamped ranges with start equal to end are dropped | a sensor at (10,0) with beacon (10,20) and one at (30,0) with beacon (30,2), row 0, search size 20: the second gives the inverted range (28, 20), so row 0 reports a gap at x = 20 | ranges with start at least end are dropped | high, not executed | Day15.InvertedRangeMakesFalseGap | Day15.GapIsPossibleBeacon |
| src/bin/16.rs:82 | a valve is opened only with more than one minute of table time left | a single valve of flow 5 at table index 1 (two minutes left) adds nothing | opening with two minutes left releases its flow for the last minute | medium, not executed | Day16.TwoMinutesLeftValveIgnored | Day16.OpenNowLowerBound |
