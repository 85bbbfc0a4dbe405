/** Hill climbing: the height map, the neighbour relation of the search,
    and the candidate starting squares. */
module Day12 {
  import opened Wrappers
  import opened Text
  import Arith

  type Coord = (int, int)

  /** Heights row by row; every row as long as the first. */
  type Grid = seq<seq<int>>

  predicate Rectangular(grid: Grid) {
    forall y :: 0 <= y < |grid| ==> |grid[y]| == |grid[0]|
  }

  /** On the map, measured by its height and the width of its first row. */
  predicate InBounds(grid: Grid, c: Coord) {
    0 <= c.1 < |grid| && 0 <= c.0 < |grid[0]|
  }

  function Add(c: Coord, d: Coord): Coord {
    (c.0 + d.0, c.1 + d.1)
  }

  function Abs(a: int): nat {
    if a < 0 then -a else a
  }

  /** The Manhattan distance. */
  function Distance(a: Coord, b: Coord): nat {
    Abs(a.0 - b.0) + Abs(a.1 - b.1)
  }

  lemma DistanceSymmetric(a: Coord, b: Coord)
    ensures Distance(a, b) == Distance(b, a)
  {
  }

  lemma DistanceZero(a: Coord, b: Coord)
    ensures Distance(a, b) == 0 <==> a == b
  {
  }

  lemma DistanceTriangle(a: Coord, b: Coord, c: Coord)
    ensures Distance(a, c) <= Distance(a, b) + Distance(b, c)
  {
  }

  /** The four steps in the order the search tries them. */
  const Steps: seq<Coord> := [(-1, 0), (1, 0), (0, -1), (0, 1)]

  function KeepInBounds(grid: Grid, cs: seq<Coord>): (r: seq<Coord>)
    requires |grid| >= 1
    ensures |r| <= |cs|
    ensures forall c :: c in r <==> c in cs && InBounds(grid, c)
  {
    if cs == [] then []
    else (if InBounds(grid, cs[0]) then [cs[0]] else []) + KeepInBounds(grid, cs[1..])
  }

  /** `neighbors`: the squares one step away that lie on the map. */
  function Neighbors(pos: Coord, grid: Grid): (r: seq<Coord>)
    requires |grid| >= 1
    ensures |r| <= 4
    ensures forall c :: c in r ==> InBounds(grid, c) && Distance(pos, c) == 1
    ensures forall c :: InBounds(grid, c) && Distance(pos, c) == 1 ==> c in r
  {
    var moved := [Add(pos, Steps[0]), Add(pos, Steps[1]), Add(pos, Steps[2]), Add(pos, Steps[3])];
    assert forall c :: Distance(pos, c) == 1 ==> c in moved by {
      forall c | Distance(pos, c) == 1 ensures c in moved {
        if c.0 == pos.0 - 1 {
          assert c == moved[0];
        } else if c.0 == pos.0 + 1 {
          assert c == moved[1];
        } else if c.1 == pos.1 - 1 {
          assert c == moved[2];
        } else {
          assert c == moved[3];
        }
      }
    }
    KeepInBounds(grid, moved)
  }

  /** The height of a map character: `S` is `a`, `E` is `z`, and any other
      character counts from `a`; one below `a` underflows the `u32`. */
  function Height(c: char): (r: Option<int>)
    ensures c == 'S' ==> r == Some(0)
    ensures c == 'E' ==> r == Some(25)
    ensures 'a' <= c <= 'z' ==> r.Some? && 0 <= r.value <= 25
  {
    if c == 'S' then Some(0)
    else if c == 'E' then Some(25)
    else if c as int >= 97 then Some(c as int - 97)
    else None
  }

  function RowHeights(row: string): (r: Option<seq<int>>)
    ensures r.Some? ==> |r.value| == |row|
    ensures r.Some? ==> forall x :: 0 <= x < |row| ==> Height(row[x]) == Some(r.value[x])
  {
    if row == [] then Some([])
    else match (Height(row[0]), RowHeights(row[1..]))
      case (Some(h), Some(rest)) => Some([h] + rest)
      case _ => None
  }

  function GridHeights(rows: seq<string>): (r: Option<Grid>)
    ensures r.Some? ==> |r.value| == |rows|
    ensures r.Some? ==> forall y :: 0 <= y < |rows| ==> RowHeights(rows[y]) == Some(r.value[y])
  {
    if rows == [] then Some([])
    else match (RowHeights(rows[0]), GridHeights(rows[1..]))
      case (Some(row), Some(rest)) => Some([row] + rest)
      case _ => None
  }

  /** `s` with every `c` removed. */
  function RemoveAll(s: string, c: char): (r: string)
    ensures c !in r
  {
    if s == [] then [] else (if s[0] == c then [] else [s[0]]) + RemoveAll(s[1..], c)
  }

  /** The position of the first `c`. */
  function IndexOf(s: string, c: char): (r: Option<nat>)
    ensures r.Some? ==> r.value < |s| && s[r.value] == c && c !in s[..r.value]
    ensures r.None? ==> c !in s
  {
    if s == [] then None
    else if s[0] == c then Some(0)
    else match IndexOf(s[1..], c)
      case None => None
      case Some(i) =>
        assert s[..i + 1] == [s[0]] + s[1..][..i];
        Some(i + 1)
  }

  /** `parse_input`: the heights of the trimmed lines, and the squares of
      the first `S` and `E` found in the input with its line feeds removed,
      placed by the width of the first line. A missing `S` or `E`, an empty
      map, an empty first line or a character below `a` panics. */
  function ParseInput(input: string): (r: Option<(Grid, Coord, Coord)>)
    ensures r.Some? ==> |r.value.0| == |Lines(Trim(input))| >= 1
  {
    var cleaned := RemoveAll(input, '\n');
    var rows := Lines(Trim(input));
    match (IndexOf(cleaned, 'S'), IndexOf(cleaned, 'E'), GridHeights(rows))
    case (Some(s), Some(e), Some(grid)) =>
      if rows == [] || rows[0] == [] then None
      else
        var width := |rows[0]|;
        Some((grid, (s % width, s / width), (e % width, e / width)))
    case _ => None
  }

  // The map written as its rows.

  /** The rows separated by `sep`, without a final one. */
  function JoinWith(rows: seq<string>, sep: char): string
    requires |rows| >= 1
  {
    if |rows| == 1 then rows[0] else rows[0] + [sep] + JoinWith(rows[1..], sep)
  }

  /** The rows as the lines of a map file. */
  function JoinRows(rows: seq<string>): string
    requires |rows| >= 1
  {
    JoinWith(rows, '\n')
  }

  function Concat(rows: seq<string>): string {
    if rows == [] then [] else rows[0] + Concat(rows[1..])
  }

  /** A well-formed map: at least one row, all of the same positive width,
      made of letters only. */
  predicate MapRows(rows: seq<string>) {
    |rows| >= 1 && |rows[0]| >= 1
    && forall y :: 0 <= y < |rows| ==> |rows[y]| == |rows[0]| && forall x :: 0 <= x < |rows[y]| ==> IsLetter(rows[y][x])
  }

  predicate IsLetter(c: char) {
    'a' <= c <= 'z' || 'A' <= c <= 'Z'
  }

  lemma {:induction false} RemoveAllOfJoinWith(rows: seq<string>, sep: char)
    requires |rows| >= 1 && forall y :: 0 <= y < |rows| ==> sep !in rows[y]
    ensures RemoveAll(JoinWith(rows, sep), sep) == Concat(rows)
  {
    NoneRemoved(rows[0], sep);
    if |rows| == 1 {
      assert rows[1..] == [];
      assert Concat(rows) == rows[0] + Concat(rows[1..]) == rows[0];
    } else {
      var rest := JoinWith(rows[1..], sep);
      RemoveAllOfJoinWith(rows[1..], sep);
      assert JoinWith(rows, sep) == rows[0] + ([sep] + rest);
      RemoveAllConcat(rows[0], [sep] + rest, sep);
      assert ([sep] + rest)[1..] == rest;
    }
  }

  lemma {:induction false} NoneRemoved(s: string, c: char)
    requires c !in s
    ensures RemoveAll(s, c) == s
  {
    if s != [] {
      NoneRemoved(s[1..], c);
    }
  }

  lemma {:induction false} RemoveAllConcat(a: string, b: string, c: char)
    ensures RemoveAll(a + b, c) == RemoveAll(a, c) + RemoveAll(b, c)
  {
    if a != [] {
      assert (a + b)[1..] == a[1..] + b;
      RemoveAllConcat(a[1..], b, c);
    } else {
      assert a + b == b;
    }
  }

  /** Splitting the joined rows gives the rows back. */
  lemma {:induction false} LinesOfJoinRows(rows: seq<string>)
    requires |rows| >= 1 && forall y :: 0 <= y < |rows| ==> IsLine(rows[y]) && rows[y] != []
    ensures Lines(JoinWith(rows, '\n')) == rows
  {
    if |rows| == 1 {
      assert SplitOnce(rows[0], '\n') == None;
    } else {
      SplitOnceAt(rows[0], '\n', JoinWith(rows[1..], '\n'));
      LinesOfJoinRows(rows[1..]);
    }
  }

  lemma {:induction false} JoinWithEnds(rows: seq<string>, sep: char)
    requires |rows| >= 1 && forall y :: 0 <= y < |rows| ==> rows[y] != []
    ensures |JoinWith(rows, sep)| >= 1
    ensures JoinWith(rows, sep)[0] == rows[0][0]
    ensures JoinWith(rows, sep)[|JoinWith(rows, sep)| - 1] == rows[|rows| - 1][|rows[|rows| - 1]| - 1]
  {
    if |rows| > 1 {
      JoinWithEnds(rows[1..], sep);
    }
  }

  /** The file of a well-formed map needs no trimming, and its lines are the
      rows. */
  lemma MapInput(rows: seq<string>)
    requires MapRows(rows)
    ensures Lines(Trim(JoinRows(rows))) == rows
    ensures RemoveAll(JoinRows(rows), '\n') == Concat(rows)
  {
    var input := JoinRows(rows);
    forall y | 0 <= y < |rows| ensures IsLine(rows[y]) && rows[y] != [] && '\n' !in rows[y] {
      assert forall x :: 0 <= x < |rows[y]| ==> IsLetter(rows[y][x]);
    }
    JoinWithEnds(rows, '\n');
    assert IsLetter(rows[|rows| - 1][|rows[|rows| - 1]| - 1]);
    assert !IsWhitespace(input[0]) && !IsWhitespace(input[|input| - 1]);
    assert Trim(input) == input;
    LinesOfJoinRows(rows);
    RemoveAllOfJoinWith(rows, '\n');
  }

  /** In the concatenation of rows of width `w`, position `i` is column
      `i % w` of row `i / w`. */
  lemma {:induction false} ConcatIndex(rows: seq<string>, w: nat, i: nat)
    requires w >= 1 && forall y :: 0 <= y < |rows| ==> |rows[y]| == w
    requires i < |Concat(rows)|
    ensures i / w < |rows| && i % w < w && Concat(rows)[i] == rows[i / w][i % w]
  {
    assert Concat(rows) == rows[0] + Concat(rows[1..]);
    if i >= w {
      ConcatIndex(rows[1..], w, i - w);
      Arith.DivModShift(i, w);
    } else {
      Arith.DivModUnique(i, w, 0, i);
    }
  }

  /** What a successful parse is made of. */
  lemma ParseInputParts(input: string, rows: seq<string>, cleaned: string)
    requires ParseInput(input).Some?
    requires rows == Lines(Trim(input)) && cleaned == RemoveAll(input, '\n')
    ensures rows != [] && rows[0] != []
    ensures GridHeights(rows).Some? && IndexOf(cleaned, 'S').Some? && IndexOf(cleaned, 'E').Some?
    ensures var (s, e, w) := (IndexOf(cleaned, 'S').value, IndexOf(cleaned, 'E').value, |rows[0]|);
      ParseInput(input).value == (GridHeights(rows).value, (s % w, s / w), (e % w, e / w))
  {
  }

  /** For a well-formed map the start and the end are the first `S` and the
      first `E` in reading order, at height 0 and 25. */
  lemma ParseInputOfMap(rows: seq<string>, grid: Grid, start: Coord, end: Coord)
    requires MapRows(rows) && ParseInput(JoinRows(rows)) == Some((grid, start, end))
    ensures GridHeights(rows) == Some(grid)
    ensures 0 <= start.1 < |rows| && 0 <= start.0 < |rows[0]| && rows[start.1][start.0] == 'S'
    ensures start.0 < |grid[start.1]| && grid[start.1][start.0] == 0
    ensures 0 <= end.1 < |rows| && 0 <= end.0 < |rows[0]| && rows[end.1][end.0] == 'E'
    ensures end.0 < |grid[end.1]| && grid[end.1][end.0] == 25
  {
    var w := |rows[0]|;
    var input := JoinRows(rows);
    MapInput(rows);
    var cleaned := Concat(rows);
    ParseInputParts(input, rows, cleaned);
    var s := IndexOf(cleaned, 'S').value;
    var e := IndexOf(cleaned, 'E').value;
    LocateInMap(rows, grid, w, s, start);
    LocateInMap(rows, grid, w, e, end);
  }

  /** Position `i` of the concatenated rows, as a square of the map. */
  lemma LocateInMap(rows: seq<string>, grid: Grid, w: nat, i: nat, c: Coord)
    requires w >= 1 && forall y :: 0 <= y < |rows| ==> |rows[y]| == w
    requires GridHeights(rows) == Some(grid) && i < |Concat(rows)| && c == (i % w, i / w)
    ensures 0 <= c.1 < |rows| && 0 <= c.0 < w == |rows[c.1]| == |grid[c.1]|
    ensures Concat(rows)[i] == rows[c.1][c.0] && Height(rows[c.1][c.0]) == Some(grid[c.1][c.0])
  {
    ConcatIndex(rows, w, i);
    assert RowHeights(rows[i / w]) == Some(grid[i / w]);
  }

  // Starting squares for the second part.

  /** The height at a square of the map. */
  function At(grid: Grid, c: Coord): int
    requires Rectangular(grid) && InBounds(grid, c)
  {
    assert |grid[c.1]| == |grid[0]|;
    grid[c.1][c.0]
  }

  /** A square of height 0 with a neighbour of height 1. */
  predicate StartingLocation(grid: Grid, c: Coord)
    requires Rectangular(grid)
  {
    InBounds(grid, c) && At(grid, c) == 0
    && exists n :: n in Neighbors(c, grid) && At(grid, n) == 1
  }

  /** `any` over the neighbours. */
  function AnyOfHeight(grid: Grid, ns: seq<Coord>, h: int): (r: bool)
    requires Rectangular(grid) && forall n :: n in ns ==> InBounds(grid, n)
    ensures r <==> exists n :: n in ns && At(grid, n) == h
  {
    if ns == [] then false else At(grid, ns[0]) == h || AnyOfHeight(grid, ns[1..], h)
  }

  /** The test the search makes of one square. */
  predicate IsStart(grid: Grid, c: Coord)
    requires Rectangular(grid) && InBounds(grid, c)
  {
    At(grid, c) == 0 && AnyOfHeight(grid, Neighbors(c, grid), 1)
  }

  /** The starting squares of row `y` left of column `x`, left to right. */
  function RowStarts(grid: Grid, y: nat, x: nat): seq<Coord>
    requires Rectangular(grid) && y < |grid| && x <= |grid[0]|
  {
    if x == 0 then []
    else RowStarts(grid, y, x - 1) + (if IsStart(grid, (x - 1, y)) then [(x - 1, y)] else [])
  }

  /** The starting squares above row `y`, in reading order. */
  function Starts(grid: Grid, y: nat): seq<Coord>
    requires Rectangular(grid) && y <= |grid|
  {
    if y == 0 then [] else Starts(grid, y - 1) + RowStarts(grid, y - 1, |grid[0]|)
  }

  /** Strictly before in reading order. */
  predicate Before(a: Coord, b: Coord) {
    a.1 < b.1 || (a.1 == b.1 && a.0 < b.0)
  }

  predicate InReadingOrder(cs: seq<Coord>) {
    forall i, j :: 0 <= i < j < |cs| ==> Before(cs[i], cs[j])
  }

  /** The squares `RowStarts(grid, y, x)` lists lie in row `y` left of
      column `x`, from left to right. */
  lemma {:induction false} RowStartsInRow(grid: Grid, y: nat, x: nat)
    requires Rectangular(grid) && y < |grid| && x <= |grid[0]|
    ensures forall c :: c in RowStarts(grid, y, x) ==> c.1 == y && 0 <= c.0 < x
    ensures InReadingOrder(RowStarts(grid, y, x))
  {
    if x > 0 {
      RowStartsInRow(grid, y, x - 1);
      var prev, c := RowStarts(grid, y, x - 1), (x - 1, y);
      var last := if IsStart(grid, c) then [c] else [];
      assert RowStarts(grid, y, x) == prev + last;
      forall i, j | 0 <= i < j < |prev + last| ensures Before((prev + last)[i], (prev + last)[j]) {
        if j < |prev| {
          assert Before(prev[i], prev[j]);
        } else {
          assert prev[i] in prev;
        }
      }
    }
  }

  lemma {:induction false} RowStartsMeaning(grid: Grid, y: nat, x: nat)
    requires Rectangular(grid) && y < |grid| && x <= |grid[0]|
    ensures forall c :: c in RowStarts(grid, y, x) <==> c.1 == y && 0 <= c.0 < x && StartingLocation(grid, c)
    ensures InReadingOrder(RowStarts(grid, y, x))
  {
    RowStartsInRow(grid, y, x);
    if x > 0 {
      RowStartsMeaning(grid, y, x - 1);
      var prev, c := RowStarts(grid, y, x - 1), (x - 1, y);
      var last := if IsStart(grid, c) then [c] else [];
      assert RowStarts(grid, y, x) == prev + last;
      assert IsStart(grid, c) <==> StartingLocation(grid, c);
      forall d: Coord ensures d in prev + last <==> d.1 == y && 0 <= d.0 < x && StartingLocation(grid, d) {
        if d != c {
          assert d in prev + last <==> d in prev;
        }
      }
    }
  }

  /** The squares `Starts(grid, y)` lists are exactly the starting squares
      above row `y`, and they come in reading order. */
  lemma {:induction false} StartsMeaning(grid: Grid, y: nat)
    requires Rectangular(grid) && y <= |grid|
    ensures forall c :: c in Starts(grid, y) <==> c.1 < y && StartingLocation(grid, c)
    ensures InReadingOrder(Starts(grid, y))
  {
    if y > 0 {
      StartsMeaning(grid, y - 1);
      RowStartsMeaning(grid, y - 1, |grid[0]|);
      var above, row := Starts(grid, y - 1), RowStarts(grid, y - 1, |grid[0]|);
      forall i, j | 0 <= i < j < |above + row| ensures Before((above + row)[i], (above + row)[j]) {
        if j < |above| {
          assert Before(above[i], above[j]);
        } else if i >= |above| {
          assert Before(row[i - |above|], row[j - |above|]);
        } else {
          assert above[i] in above && row[j - |above|] in row;
        }
      }
    }
  }

  /** `get_all_possible_starting_locations`: every square of height 0 with a
      neighbour of height 1, in reading order. */
  method StartingLocations(grid: Grid) returns (locations: seq<Coord>)
    requires Rectangular(grid)
    ensures locations == Starts(grid, |grid|)
  {
    locations := [];
    for y := 0 to |grid|
      invariant locations == Starts(grid, y)
    {
      var row := grid[y];
      for x := 0 to |row|
        invariant locations == Starts(grid, y) + RowStarts(grid, y, x)
      {
        if row[x] != 0 {
          continue;
        }
        if AnyOfHeight(grid, Neighbors((x, y), grid), 1) {
          locations := locations + [(x, y)];
        }
      }
    }
  }

  /** Every square the search starts from has height 0 and a neighbour of
      height 1, each such square is listed once, and the list is in
      reading order. */
  lemma StartingLocationsMeaning(grid: Grid)
    requires Rectangular(grid)
    ensures forall c :: c in Starts(grid, |grid|) <==> StartingLocation(grid, c)
    ensures InReadingOrder(Starts(grid, |grid|))
  {
    StartsMeaning(grid, |grid|);
  }
}
