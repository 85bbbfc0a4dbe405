/** Treetop tree house: trees visible from outside the grid, and the best
    scenic score. The grid is stored row by row; index `i` is the tree at
    column `i % width` of row `i / width`. */
module Day08 {
  import Arith
  import opened Wrappers
  import opened Text

  predicate Digits(grid: seq<int>) {
    forall i :: 0 <= i < |grid| ==> 0 <= grid[i] <= 9
  }

  /** A rectangular grid of tree heights. */
  predicate Rectangular(grid: seq<int>, width: nat, height: nat) {
    width >= 1 && |grid| == width * height && Digits(grid)
  }

  function RowDigits(line: string): (r: Option<seq<int>>)
    ensures r.Some? ==> |r.value| == |line| && Digits(r.value)
  {
    if line == [] then Some([])
    else if !IsDigit(line[0]) then None
    else match RowDigits(line[1..])
      case None => None
      case Some(rest) => Some([DigitValue(line[0]) as int] + rest)
  }

  function GridDigits(lines: seq<string>): (r: Option<seq<int>>)
    ensures r.Some? ==> Digits(r.value)
  {
    if lines == [] then Some([])
    else match (RowDigits(lines[0]), GridDigits(lines[1..]))
      case (Some(row), Some(rest)) => Some(row + rest)
      case _ => None
  }

  /** The heights row after row, with the width of the first line and the
      number of lines; a character that is not a digit, or an input without
      lines, panics. */
  function ParseGrid(input: string): (r: Option<(seq<int>, nat, nat)>)
    ensures r.Some? ==> Digits(r.value.0) && r.value.2 == |Lines(input)| >= 1
  {
    var lines := Lines(input);
    if lines == [] then None
    else match GridDigits(lines)
      case None => None
      case Some(grid) => Some((grid, |lines[0]|, |lines|))
  }

  // ---------------------------------------------------------------------
  // Visibility

  /** A column or a row of the grid. */
  datatype Line = Column(x: nat) | Row(y: nat)

  predicate On(line: Line, width: nat, j: nat)
    requires width >= 1
  {
    match line
    case Column(x) => j % width == x
    case Row(y) => j / width == y
  }

  function Max(a: int, b: int): int {
    if a < b then b else a
  }

  /** The highest tree on `line` before index `i`, or -1 when there is
      none. */
  function PrefixMax(grid: seq<int>, width: nat, line: Line, i: nat): int
    requires width >= 1 && i <= |grid|
  {
    if i == 0 then -1
    else if On(line, width, i - 1) then Max(PrefixMax(grid, width, line, i - 1), grid[i - 1])
    else PrefixMax(grid, width, line, i - 1)
  }

  /** The highest tree on `line` from index `i` on, or -1 when there is
      none. */
  function SuffixMax(grid: seq<int>, width: nat, line: Line, i: nat): int
    requires width >= 1 && i <= |grid|
    decreases |grid| - i
  {
    if i == |grid| then -1
    else if On(line, width, i) then Max(grid[i], SuffixMax(grid, width, line, i + 1))
    else SuffixMax(grid, width, line, i + 1)
  }

  /** The running maximum is at least every earlier tree of the line, and
      is one of them or -1. */
  lemma {:induction false} PrefixMaxBounds(grid: seq<int>, width: nat, line: Line, i: nat)
    requires width >= 1 && i <= |grid|
    ensures PrefixMax(grid, width, line, i) >= -1
    ensures forall j :: 0 <= j < i && On(line, width, j) ==> grid[j] <= PrefixMax(grid, width, line, i)
    ensures PrefixMax(grid, width, line, i) == -1
      || exists j :: 0 <= j < i && On(line, width, j) && grid[j] == PrefixMax(grid, width, line, i)
  {
    if i > 0 {
      PrefixMaxBounds(grid, width, line, i - 1);
    }
  }

  lemma {:induction false} SuffixMaxBounds(grid: seq<int>, width: nat, line: Line, i: nat)
    requires width >= 1 && i <= |grid|
    ensures SuffixMax(grid, width, line, i) >= -1
    ensures forall j :: i <= j < |grid| && On(line, width, j) ==> grid[j] <= SuffixMax(grid, width, line, i)
    ensures SuffixMax(grid, width, line, i) == -1
      || exists j :: i <= j < |grid| && On(line, width, j) && grid[j] == SuffixMax(grid, width, line, i)
    decreases |grid| - i
  {
    if i < |grid| {
      SuffixMaxBounds(grid, width, line, i + 1);
    }
  }

  /** Every tree before `i` on `line` is lower than the tree at `i`. */
  predicate SeenFromStart(grid: seq<int>, width: nat, line: Line, i: nat)
    requires width >= 1 && i < |grid|
  {
    forall j :: 0 <= j < i && On(line, width, j) ==> grid[j] < grid[i]
  }

  /** Every tree after `i` on `line` is lower than the tree at `i`. */
  predicate SeenFromEnd(grid: seq<int>, width: nat, line: Line, i: nat)
    requires width >= 1 && i < |grid|
  {
    forall j :: i < j < |grid| && On(line, width, j) ==> grid[j] < grid[i]
  }

  /** Seen from the top or from the left. */
  predicate SeenForward(grid: seq<int>, width: nat, i: nat)
    requires width >= 1 && i < |grid|
  {
    SeenFromStart(grid, width, Column(i % width), i) || SeenFromStart(grid, width, Row(i / width), i)
  }

  /** A tree is visible when it is taller than every tree between it and
      some edge. */
  predicate Visible(grid: seq<int>, width: nat, i: nat)
    requires width >= 1 && i < |grid|
  {
    SeenForward(grid, width, i) || SeenFromEnd(grid, width, Column(i % width), i) || SeenFromEnd(grid, width, Row(i / width), i)
  }

  /** Beating the running maximum is the same as beating every earlier tree
      of the line. */
  lemma BeatsPrefixMax(grid: seq<int>, width: nat, line: Line, i: nat)
    requires width >= 1 && i < |grid| && grid[i] >= 0
    ensures grid[i] > PrefixMax(grid, width, line, i) <==> SeenFromStart(grid, width, line, i)
  {
    PrefixMaxBounds(grid, width, line, i);
  }

  lemma BeatsSuffixMax(grid: seq<int>, width: nat, line: Line, i: nat)
    requires width >= 1 && i < |grid| && grid[i] >= 0
    ensures grid[i] > SuffixMax(grid, width, line, i + 1) <==> SeenFromEnd(grid, width, line, i)
  {
    SuffixMaxBounds(grid, width, line, i + 1);
  }

  /** The scan from the first tree on: `top` holds the highest tree seen per
      column, `left` per row, and a tree that beats either is marked. */
  method ScanForward(grid: seq<int>, width: nat, height: nat, visibility: array<bool>)
    requires Rectangular(grid, width, height) && visibility.Length == |grid|
    requires forall j :: 0 <= j < |grid| ==> !visibility[j]
    modifies visibility
    ensures forall j :: 0 <= j < |grid| ==> visibility[j] == SeenForward(grid, width, j)
  {
    var top := new int[width](_ => -1);
    var left := new int[height](_ => -1);
    for index := 0 to |grid|
      invariant forall x :: 0 <= x < width ==> top[x] == PrefixMax(grid, width, Column(x), index)
      invariant forall y :: 0 <= y < height ==> left[y] == PrefixMax(grid, width, Row(y), index)
      invariant forall j :: 0 <= j < index ==> visibility[j] == SeenForward(grid, width, j)
      invariant forall j :: index <= j < |grid| ==> !visibility[j]
    {
      ForwardStep(grid, width, height, index, top, left, visibility);
    }
  }

  /** One step of the forward scan: the tree at `index` against the
      maxima of its column and its row. */
  method ForwardStep(grid: seq<int>, width: nat, height: nat, index: nat, top: array<int>, left: array<int>, visibility: array<bool>)
    requires Rectangular(grid, width, height) && index < |grid| && top != left
    requires top.Length == width && left.Length == height && visibility.Length == |grid|
    requires forall x :: 0 <= x < width ==> top[x] == PrefixMax(grid, width, Column(x), index)
    requires forall y :: 0 <= y < height ==> left[y] == PrefixMax(grid, width, Row(y), index)
    requires !visibility[index]
    modifies top, left, visibility
    ensures forall x :: 0 <= x < width ==> top[x] == PrefixMax(grid, width, Column(x), index + 1)
    ensures forall y :: 0 <= y < height ==> left[y] == PrefixMax(grid, width, Row(y), index + 1)
    ensures visibility[index] == SeenForward(grid, width, index)
    ensures forall j :: 0 <= j < |grid| && j != index ==> visibility[j] == old(visibility[j])
  {
    RowInRange(width, height, index);
    var x: nat, y: nat := index % width, index / width;
    var value := grid[index];
    BeatsPrefixMax(grid, width, Column(x), index);
    BeatsPrefixMax(grid, width, Row(y), index);
    if value > top[x] {
      visibility[index] := true;
      top[x] := value;
    }
    if value > left[y] {
      visibility[index] := true;
      left[y] := value;
    }
  }

  lemma RowInRange(width: nat, height: nat, index: nat)
    requires width >= 1 && index < width * height
    ensures 0 <= index % width < width && 0 <= index / width < height
  {
    var q := index / width;
    assert q * width <= index;
    if q >= height {
      Arith.MulMonotone(height, q, width);
      assert false;
    }
  }

  lemma DivMonotone(i: nat, j: nat, width: nat)
    requires i <= j && width >= 1
    ensures i / width <= j / width
  {
    if i / width > j / width {
      Arith.MulMonotone(j / width + 1, i / width, width);
      assert false;
    }
  }

  /** Row-major indices of cells inside the grid are in range. */
  lemma IndexInRange(width: nat, height: nat, x: int, y: int)
    requires 0 <= x < width && 0 <= y < height
    ensures 0 <= y * width + x < width * height
  {
    Arith.MulMonotone(y + 1, height, width);
    assert (y + 1) * width == y * width + width;
    assert width * height == height * width;
  }

  /** The scan from the last tree back: `bottom` per column and `right` per
      row. */
  method ScanBackward(grid: seq<int>, width: nat, height: nat, visibility: array<bool>)
    requires Rectangular(grid, width, height) && visibility.Length == |grid|
    requires forall j :: 0 <= j < |grid| ==> visibility[j] == SeenForward(grid, width, j)
    modifies visibility
    ensures forall j :: 0 <= j < |grid| ==> visibility[j] == Visible(grid, width, j)
  {
    var bottom := new int[width](_ => -1);
    var right := new int[height](_ => -1);
    for index := |grid| downto 0
      invariant forall x :: 0 <= x < width ==> bottom[x] == SuffixMax(grid, width, Column(x), index)
      invariant forall y :: 0 <= y < height ==> right[y] == SuffixMax(grid, width, Row(y), index)
      invariant forall j :: index <= j < |grid| ==> visibility[j] == Visible(grid, width, j)
      invariant forall j :: 0 <= j < index ==> visibility[j] == SeenForward(grid, width, j)
    {
      BackwardStep(grid, width, height, index, bottom, right, visibility);
    }
  }

  /** One step of the backward scan. */
  method BackwardStep(grid: seq<int>, width: nat, height: nat, index: nat, bottom: array<int>, right: array<int>, visibility: array<bool>)
    requires Rectangular(grid, width, height) && index < |grid| && bottom != right
    requires bottom.Length == width && right.Length == height && visibility.Length == |grid|
    requires forall x :: 0 <= x < width ==> bottom[x] == SuffixMax(grid, width, Column(x), index + 1)
    requires forall y :: 0 <= y < height ==> right[y] == SuffixMax(grid, width, Row(y), index + 1)
    requires visibility[index] == SeenForward(grid, width, index)
    modifies bottom, right, visibility
    ensures forall x :: 0 <= x < width ==> bottom[x] == SuffixMax(grid, width, Column(x), index)
    ensures forall y :: 0 <= y < height ==> right[y] == SuffixMax(grid, width, Row(y), index)
    ensures visibility[index] == Visible(grid, width, index)
    ensures forall j :: 0 <= j < |grid| && j != index ==> visibility[j] == old(visibility[j])
  {
    RowInRange(width, height, index);
    var x: nat, y: nat := index % width, index / width;
    var value := grid[index];
    BeatsSuffixMax(grid, width, Column(x), index);
    BeatsSuffixMax(grid, width, Row(y), index);
    ghost var fromBottom, fromRight := value > bottom[x], value > right[y];
    assert Visible(grid, width, index) == (visibility[index] || fromBottom || fromRight);
    if value > bottom[x] {
      visibility[index] := true;
      bottom[x] := value;
    }
    if value > right[y] {
      visibility[index] := true;
      right[y] := value;
    }
  }

  /** `count_ones`. */
  function CountTrue(s: seq<bool>): nat {
    if s == [] then 0 else CountTrue(s[..|s| - 1]) + (if s[|s| - 1] then 1 else 0)
  }

  /** Counting the marks counts each marked index once. */
  lemma {:induction false} CountTrueIsCardinality(s: seq<bool>)
    ensures CountTrue(s) == |set j | 0 <= j < |s| && s[j]|
  {
    if s != [] {
      var n := |s| - 1;
      CountTrueIsCardinality(s[..n]);
      var before := set j | 0 <= j < n && s[..n][j];
      var all := set j | 0 <= j < |s| && s[j];
      assert before == set j | 0 <= j < n && s[j];
      if s[n] {
        assert all == before + {n};
      } else {
        assert all == before;
      }
    }
  }

  /** The number of visible trees. */
  function VisibleCount(grid: seq<int>, width: nat): nat
    requires width >= 1
  {
    |set j | 0 <= j < |grid| && Visible(grid, width, j)|
  }

  /** `part_one`: both scans, then the number of marked trees. */
  method PartOne(grid: seq<int>, width: nat, height: nat) returns (count: nat)
    requires Rectangular(grid, width, height)
    ensures count == VisibleCount(grid, width)
    ensures count <= |grid|
  {
    var visibility := new bool[|grid|](_ => false);
    ScanForward(grid, width, height, visibility);
    ScanBackward(grid, width, height, visibility);
    count := CountTrue(visibility[..]);
    CountTrueIsCardinality(visibility[..]);
    assert (set j | 0 <= j < |grid| && visibility[..][j]) == set j | 0 <= j < |grid| && Visible(grid, width, j);
    CountTrueBound(visibility[..]);
  }

  lemma {:induction false} CountTrueBound(s: seq<bool>)
    ensures CountTrue(s) <= |s|
  {
    if s != [] {
      CountTrueBound(s[..|s| - 1]);
    }
  }

  /** Trees on the border are always visible: the running maxima start
      below every height. */
  lemma EdgeTreesVisible(grid: seq<int>, width: nat, height: nat, i: nat)
    requires Rectangular(grid, width, height) && i < |grid|
    requires i < width || i % width == 0 || i % width == width - 1 || i / width == height - 1
    ensures Visible(grid, width, i)
  {
    if i < width {
      TopRowSeen(grid, width, i);
    } else if i % width == 0 {
      LeftColumnSeen(grid, width, i);
    } else if i % width == width - 1 {
      RightColumnSeen(grid, width, i);
    } else {
      BottomRowSeen(grid, width, height, i);
    }
  }

  lemma TopRowSeen(grid: seq<int>, width: nat, i: nat)
    requires width >= 1 && i < |grid| && i < width
    ensures SeenFromStart(grid, width, Column(i % width), i)
  {
    assert i % width == i;
    forall j | 0 <= j < i
      ensures j % width == j
    {
    }
  }

  lemma LeftColumnSeen(grid: seq<int>, width: nat, i: nat)
    requires width >= 1 && i < |grid| && i % width == 0
    ensures SeenFromStart(grid, width, Row(i / width), i)
  {
    forall j | 0 <= j < i
      ensures j / width != i / width
    {
      Arith.DivModUnique(i, width, i / width, 0);
      assert j >= (j / width) * width;
      if j / width == i / width {
        assert false;
      }
    }
  }

  lemma RightColumnSeen(grid: seq<int>, width: nat, i: nat)
    requires width >= 1 && i < |grid| && i % width == width - 1
    ensures SeenFromEnd(grid, width, Row(i / width), i)
  {
    forall j | i < j
      ensures j / width != i / width
    {
      assert j == (j / width) * width + j % width;
      assert i == (i / width) * width + width - 1;
      if j / width == i / width {
        assert false;
      }
    }
  }

  lemma BottomRowSeen(grid: seq<int>, width: nat, height: nat, i: nat)
    requires Rectangular(grid, width, height) && i < |grid| && i / width == height - 1
    ensures SeenFromEnd(grid, width, Column(i % width), i)
  {
    forall j | i < j < |grid|
      ensures j % width != i % width
    {
      RowInRange(width, height, j);
      DivMonotone(i, j, width);
      assert j == (j / width) * width + j % width;
      assert i == (i / width) * width + i % width;
    }
  }

  /** The lengths `max_tree` is allocated with, for top, right, bottom and
      left, as the source writes them. */
  function MaxTreeSizesAsWritten(width: nat, height: nat): (nat, nat, nat, nat) {
    (height, width, height, width)
  }

  /** The lengths as evidently intended: a slot per column for top and
      bottom, a slot per row for right and left. */
  function MaxTreeSizes(width: nat, height: nat): (nat, nat, nat, nat) {
    (width, height, width, height)
  }

  /** Every column index is a valid slot for top and bottom, and every row
      index for right and left. */
  predicate SlotsInBounds(sizes: (nat, nat, nat, nat), width: nat, height: nat) {
    width <= sizes.0 && width <= sizes.2 && height <= sizes.1 && height <= sizes.3
  }

  /** The lengths as written fit exactly the square grids. */
  lemma AsWrittenFitsOnlySquares(width: nat, height: nat)
    requires width >= 1 && height >= 1
    ensures SlotsInBounds(MaxTreeSizesAsWritten(width, height), width, height) <==> width == height
  {
  }

  /** A grid one row high and three wide reads column 1 of a one-slot
      vector. */
  lemma WideGridOverruns()
    ensures !SlotsInBounds(MaxTreeSizesAsWritten(3, 1), 3, 1)
  {
    AsWrittenFitsOnlySquares(3, 1);
  }

  /** The lengths as intended fit every grid. */
  lemma IntendedSizesFit(width: nat, height: nat)
    ensures SlotsInBounds(MaxTreeSizes(width, height), width, height)
  {
  }

  // ---------------------------------------------------------------------
  // Scenic score

  /** The four directions in the order up, right, down, left. */
  const Directions: seq<(int, int)> := [(0, -1), (1, 0), (0, 1), (-1, 0)]

  predicate IsDirection(d: (int, int)) {
    d in Directions
  }

  /** Strictly inside the border. */
  predicate Interior(width: int, height: int, x: int, y: int) {
    0 < x < width - 1 && 0 < y < height - 1
  }

  /** The view from a tree of height `value` ends at (x, y): the cell is
      off the interior or its tree is at least as tall. */
  predicate Blocked(grid: seq<int>, width: nat, height: nat, value: int, x: int, y: int)
    requires |grid| == width * height
  {
    !Interior(width, height, x, y) || Cell(grid, width, height, x, y) >= value
  }

  /** The tree at column `x` of row `y`. */
  function Cell(grid: seq<int>, width: nat, height: nat, x: int, y: int): int
    requires |grid| == width * height && 0 <= x < width && 0 <= y < height
  {
    IndexInRange(width, height, x, y);
    grid[y * width + x]
  }

  function Remaining(width: int, height: int, x: int, y: int, d: (int, int)): nat
    requires IsDirection(d)
  {
    if d == (1, 0) then (if x < width then width - x else 0)
    else if d == (-1, 0) then (if x > 0 then x else 0)
    else if d == (0, 1) then (if y < height then height - y else 0)
    else (if y > 0 then y else 0)
  }

  /** The trees counted when the next tree to look at is (x, y): one for
      each tree passed and one for the tree that stops the view. */
  function Run(grid: seq<int>, width: nat, height: nat, value: int, x: int, y: int, d: (int, int)): (r: nat)
    requires |grid| == width * height && IsDirection(d)
    ensures r >= 1
    decreases Remaining(width, height, x, y, d)
  {
    if Blocked(grid, width, height, value, x, y) then 1
    else 1 + Run(grid, width, height, value, x + d.0, y + d.1, d)
  }

  /** The cell `k` steps in direction `d` from (x, y). */
  function Ahead(x: int, y: int, d: (int, int), k: nat): (int, int)
    decreases k
  {
    if k == 0 then (x, y) else Ahead(x + d.0, y + d.1, d, k - 1)
  }

  /** The run is the first step whose cell ends the view: no cell before it
      does, and the cell at that step does. */
  lemma {:induction false} RunMeaning(grid: seq<int>, width: nat, height: nat, value: int, x: int, y: int, d: (int, int))
    requires |grid| == width * height && IsDirection(d)
    ensures var r := Run(grid, width, height, value, x, y, d);
      (forall k: nat :: k < r - 1 ==> !Blocked(grid, width, height, value, Ahead(x, y, d, k).0, Ahead(x, y, d, k).1))
      && Blocked(grid, width, height, value, Ahead(x, y, d, r - 1).0, Ahead(x, y, d, r - 1).1)
    decreases Remaining(width, height, x, y, d)
  {
    if !Blocked(grid, width, height, value, x, y) {
      RunMeaning(grid, width, height, value, x + d.0, y + d.1, d);
    }
  }

  /** The inner `while` loop: walk from the neighbour in direction `d` until
      the edge or a tree at least as tall. */
  method ViewingDistance(grid: seq<int>, width: nat, height: nat, x: int, y: int, d: (int, int)) returns (trees: nat)
    requires |grid| == width * height && IsDirection(d) && 0 <= x < width && 0 <= y < height
    ensures trees == Run(grid, width, height, Cell(grid, width, height, x, y), x + d.0, y + d.1, d)
  {
    var value := Cell(grid, width, height, x, y);
    var curX, curY := x + d.0, y + d.1;
    trees := 1;
    while Interior(width, height, curX, curY)
      invariant trees + Run(grid, width, height, value, curX, curY, d) - 1 == Run(grid, width, height, value, x + d.0, y + d.1, d)
      decreases Remaining(width, height, curX, curY, d)
    {
      var curValue := Cell(grid, width, height, curX, curY);
      if curValue >= value {
        break;
      }
      curX, curY := curX + d.0, curY + d.1;
      trees := trees + 1;
    }
  }

  /** The scenic score as written: the product of the four runs, each at
      least one even looking out from the border. */
  function Score(grid: seq<int>, width: nat, height: nat, i: nat): (s: nat)
    requires |grid| == width * height && i < |grid|
  {
    var a, b, c, d := DirectionRun(grid, width, height, i, 0), DirectionRun(grid, width, height, i, 1),
      DirectionRun(grid, width, height, i, 2), DirectionRun(grid, width, height, i, 3);
    ProductPositive(a, b, c, d);
    a * b * c * d
  }

  /** The run of tree `i` in the `k`-th direction. */
  function DirectionRun(grid: seq<int>, width: nat, height: nat, i: nat, k: nat): (r: nat)
    requires |grid| == width * height && i < |grid| && k < 4
    ensures r >= 1
  {
    var d := Directions[k];
    Run(grid, width, height, grid[i], i % width + d.0, i / width + d.1, d)
  }

  lemma ProductPositive(a: nat, b: nat, c: nat, d: nat)
    requires a >= 1 && b >= 1 && c >= 1 && d >= 1
    ensures a * b * c * d >= 1
  {
    Arith.MulMonotone(1, a, b);
    Arith.MulMonotone(1, a * b, c);
    Arith.MulMonotone(1, a * b * c, d);
  }

  /** Every score is at least one. */
  lemma ScoreAtLeastOne(grid: seq<int>, width: nat, height: nat, i: nat)
    requires |grid| == width * height && i < |grid|
    ensures Score(grid, width, height, i) >= 1
  {
    ProductPositive(DirectionRun(grid, width, height, i, 0), DirectionRun(grid, width, height, i, 1),
      DirectionRun(grid, width, height, i, 2), DirectionRun(grid, width, height, i, 3));
  }

  /** The best score among the first `n` trees, or 0 for none. */
  function BestScore(grid: seq<int>, width: nat, height: nat, n: nat): (b: nat)
    requires |grid| == width * height && n <= |grid|
    ensures forall i :: 0 <= i < n ==> b >= Score(grid, width, height, i)
    ensures (n == 0 && b == 0) || exists i :: 0 <= i < n && b == Score(grid, width, height, i)
  {
    if n == 0 then 0
    else
      var rest := BestScore(grid, width, height, n - 1);
      var s := Score(grid, width, height, n - 1);
      if rest < s then s else rest
  }

  /** `part_two`: the four runs of every tree, multiplied, and the largest
      product kept. */
  method PartTwo(grid: seq<int>, width: nat, height: nat) returns (bestScore: nat)
    requires Rectangular(grid, width, height)
    ensures bestScore == BestScore(grid, width, height, |grid|)
  {
    bestScore := 0;
    for index := 0 to |grid|
      invariant bestScore == BestScore(grid, width, height, index)
    {
      var product := ScenicScore(grid, width, height, index);
      bestScore := if bestScore < product then product else bestScore;
    }
  }

  /** The body of the loop over the trees: the four runs multiplied. */
  method ScenicScore(grid: seq<int>, width: nat, height: nat, index: nat) returns (product: nat)
    requires Rectangular(grid, width, height) && index < |grid|
    ensures product == Score(grid, width, height, index)
  {
    var x, y := index % width, index / width;
    RowInRange(width, height, index);
    assert index == y * width + x;
    IndexInRange(width, height, x, y);
    assert Cell(grid, width, height, x, y) == grid[index];
    var directionScore := new nat[4](_ => 0);
    for i := 0 to 4
      invariant forall k :: 0 <= k < i ==> directionScore[k] == DirectionRun(grid, width, height, index, k)
    {
      var trees := ViewingDistance(grid, width, height, x, y, Directions[i]);
      directionScore[i] := trees;
    }
    product := directionScore[0] * directionScore[1] * directionScore[2] * directionScore[3];
  }

  /** The cell (x, y) lies on the grid. */
  predicate OnGrid(width: int, height: int, x: int, y: int) {
    0 <= x < width && 0 <= y < height
  }

  /** The viewing distance as evidently intended, when the next tree to
      look at is (x, y): nothing past the edge, otherwise one for this tree
      and, unless it is at least as tall, the trees behind it. */
  function IntendedRun(grid: seq<int>, width: nat, height: nat, value: int, x: int, y: int, d: (int, int)): nat
    requires |grid| == width * height && IsDirection(d)
    decreases Remaining(width, height, x, y, d) + (if OnGrid(width, height, x, y) then 1 else 0)
  {
    if !OnGrid(width, height, x, y) then 0
    else if Cell(grid, width, height, x, y) >= value then 1
    else 1 + IntendedRun(grid, width, height, value, x + d.0, y + d.1, d)
  }

  /** The intended run of tree `i` in the `k`-th direction. */
  function IntendedDirectionRun(grid: seq<int>, width: nat, height: nat, i: nat, k: nat): nat
    requires |grid| == width * height && i < |grid| && k < 4
  {
    var d := Directions[k];
    IntendedRun(grid, width, height, grid[i], i % width + d.0, i / width + d.1, d)
  }

  /** The cell (x, y) lies on the ray in direction `d` from some interior
      tree: strictly inside across the ray, and not yet back at the side it
      started from. */
  predicate OnRay(width: int, height: int, x: int, y: int, d: (int, int)) {
    if d == (1, 0) then 0 < y < height - 1 && 1 <= x < width
    else if d == (-1, 0) then 0 < y < height - 1 && 0 <= x < width - 1
    else if d == (0, 1) then 0 < x < width - 1 && 1 <= y < height
    else 0 < x < width - 1 && 0 <= y < height - 1
  }

  /** On a ray from an interior tree the intended run and the run as
      written agree: the border cell that stops the walk as written is the
      last cell before the edge. */
  lemma {:induction false} IntendedRunOnRay(grid: seq<int>, width: nat, height: nat, value: int, x: int, y: int, d: (int, int))
    requires |grid| == width * height && IsDirection(d) && OnRay(width, height, x, y, d)
    ensures IntendedRun(grid, width, height, value, x, y, d) == Run(grid, width, height, value, x, y, d)
    decreases Remaining(width, height, x, y, d)
  {
    if !Interior(width, height, x, y) {
      assert !OnGrid(width, height, x + d.0, y + d.1);
    } else if Cell(grid, width, height, x, y) < value {
      IntendedRunOnRay(grid, width, height, value, x + d.0, y + d.1, d);
    }
  }

  /** Inside the border the intended runs are the runs as written. */
  lemma IntendedRunsInside(grid: seq<int>, width: nat, height: nat, i: nat, k: nat)
    requires |grid| == width * height && i < |grid| && k < 4
    requires Interior(width, height, i % width, i / width)
    ensures IntendedDirectionRun(grid, width, height, i, k) == DirectionRun(grid, width, height, i, k)
  {
    var d := Directions[k];
    IntendedRunOnRay(grid, width, height, grid[i], i % width + d.0, i / width + d.1, d);
  }

  /** A tree on the border has an edge right next to it, and sees nothing
      in that direction. */
  lemma BorderRunZero(grid: seq<int>, width: nat, height: nat, i: nat)
    requires |grid| == width * height && i < |grid|
    requires !Interior(width, height, i % width, i / width)
    ensures exists k :: 0 <= k < 4 && IntendedDirectionRun(grid, width, height, i, k) == 0
  {
    RowInRange(width, height, i);
    var x, y := i % width, i / width;
    var k := if y == 0 then 0 else if x == width - 1 then 1 else if y == height - 1 then 2 else 3;
    assert !OnGrid(width, height, x + Directions[k].0, y + Directions[k].1);
    assert IntendedDirectionRun(grid, width, height, i, k) == 0;
  }

  /** The score as evidently intended: the product of the four intended
      runs. A tree on the border sees no tree on one side and scores zero;
      inside the border the score is the one as written. */
  function IntendedScore(grid: seq<int>, width: nat, height: nat, i: nat): (s: nat)
    requires |grid| == width * height && i < |grid|
    ensures s == 0 <==> !Interior(width, height, i % width, i / width)
    ensures Interior(width, height, i % width, i / width) ==> s == Score(grid, width, height, i)
  {
    var a, b, c, d := IntendedDirectionRun(grid, width, height, i, 0), IntendedDirectionRun(grid, width, height, i, 1),
      IntendedDirectionRun(grid, width, height, i, 2), IntendedDirectionRun(grid, width, height, i, 3);
    if Interior(width, height, i % width, i / width) then
      IntendedRunsInside(grid, width, height, i, 0);
      IntendedRunsInside(grid, width, height, i, 1);
      IntendedRunsInside(grid, width, height, i, 2);
      IntendedRunsInside(grid, width, height, i, 3);
      ScoreAtLeastOne(grid, width, height, i);
      a * b * c * d
    else
      BorderRunZero(grid, width, height, i);
      assert a == 0 || b == 0 || c == 0 || d == 0;
      a * b * c * d
  }

  /** In the grid 010/000/000 the top middle tree scores 2 as written; a
      border tree scores 0 as intended. */
  lemma BorderTreeScores()
    ensures Score([0, 1, 0, 0, 0, 0, 0, 0, 0], 3, 3, 1) == 2
    ensures IntendedScore([0, 1, 0, 0, 0, 0, 0, 0, 0], 3, 3, 1) == 0
  {
    var g := [0, 1, 0, 0, 0, 0, 0, 0, 0];
    assert DirectionRun(g, 3, 3, 1, 2) == 2;
    assert Run(g, 3, 3, 1, 1, -1, (0, -1)) == 1;
    assert Run(g, 3, 3, 1, 2, 0, (1, 0)) == 1;
    assert Run(g, 3, 3, 1, 1, 2, (0, 1)) == 1;
    assert Blocked(g, 3, 3, 1, 1, 2) && !Blocked(g, 3, 3, 1, 1, 1) by {
      assert g[1 * 3 + 1] == 0;
    }
    assert Run(g, 3, 3, 1, 1, 1, (0, 1)) == 2;
    assert Run(g, 3, 3, 1, 0, 0, (-1, 0)) == 1;
    assert 1 % 3 == 1 && 1 / 3 == 0 && !Interior(3, 3, 1, 0);
  }
}
