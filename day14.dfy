/** Falling sand: rock paths are drawn into a grid of cells, and units of
    sand are poured from a source until one falls out of the bottom (or,
    with a floor, until one comes to rest at the source). */
module Day14 {
  import opened Wrappers
  import Arith

  datatype Coord = Coord(x: nat, y: nat)

  function Min(a: nat, b: nat): nat {
    if a < b then a else b
  }

  function Max(a: nat, b: nat): nat {
    if a < b then b else a
  }

  /** The cells (x, y) for y in [y0, y1), in increasing y. */
  function Column(x: nat, y0: nat, y1: nat): (c: seq<Coord>)
    requires y0 <= y1
    ensures |c| == y1 - y0
    ensures forall j :: 0 <= j < |c| ==> c[j] == Coord(x, y0 + j)
  {
    seq(y1 - y0, j requires 0 <= j < y1 - y0 => Coord(x, y0 + j))
  }

  /** The columns x in [x0, x1) of the box, column after column. */
  function Columns(x0: nat, x1: nat, y0: nat, y1: nat): seq<Coord>
    requires x0 <= x1 && y0 <= y1
    decreases x1
  {
    if x1 == x0 then [] else Columns(x0, x1 - 1, y0, y1) + Column(x1 - 1, y0, y1)
  }

  lemma {:induction false} InColumns(x0: nat, x1: nat, y0: nat, y1: nat, c: Coord)
    requires x0 <= x1 && y0 <= y1
    ensures c in Columns(x0, x1, y0, y1) <==> x0 <= c.x < x1 && y0 <= c.y < y1
    decreases x1
  {
    if x1 > x0 {
      InColumns(x0, x1 - 1, y0, y1, c);
      var col := Column(x1 - 1, y0, y1);
      if c.x == x1 - 1 && y0 <= c.y < y1 {
        assert col[c.y - y0] == c;
      }
    }
  }

  /** The cells `get_line_points` visits: the inclusive box spanned by the two
      endpoints, column by column. */
  function LineBox(a: Coord, b: Coord): seq<Coord> {
    Columns(Min(a.x, b.x), Max(a.x, b.x) + 1, Min(a.y, b.y), Max(a.y, b.y) + 1)
  }

  /** The box holds exactly the cells between the endpoints on both axes. */
  lemma InLineBox(a: Coord, b: Coord, c: Coord)
    ensures c in LineBox(a, b) <==>
      Min(a.x, b.x) <= c.x <= Max(a.x, b.x) && Min(a.y, b.y) <= c.y <= Max(a.y, b.y)
  {
    InColumns(Min(a.x, b.x), Max(a.x, b.x) + 1, Min(a.y, b.y), Max(a.y, b.y) + 1, c);
  }

  /** `get_line_points`. */
  method GetLinePoints(start: Coord, end: Coord) returns (result: seq<Coord>)
    ensures result == LineBox(start, end)
    ensures forall c :: c in result <==>
      Min(start.x, end.x) <= c.x <= Max(start.x, end.x) && Min(start.y, end.y) <= c.y <= Max(start.y, end.y)
  {
    result := [];
    var minx, maxx := Min(start.x, end.x), Max(start.x, end.x);
    var miny, maxy := Min(start.y, end.y), Max(start.y, end.y);
    for x := minx to maxx + 1
      invariant result == Columns(minx, x, miny, maxy + 1)
    {
      for y := miny to maxy + 1
        invariant result == Columns(minx, x, miny, maxy + 1) + Column(x, miny, y)
      {
        assert Column(x, miny, y + 1) == Column(x, miny, y) + [Coord(x, y)];
        result := result + [Coord(x, y)];
      }
    }
    forall c ensures c in result <==>
      Min(start.x, end.x) <= c.x <= Max(start.x, end.x) && Min(start.y, end.y) <= c.y <= Max(start.y, end.y)
    {
      InLineBox(start, end, c);
    }
  }

  /** `get_next_sand_positions`: down, down-left, down-right. Building the
      list underflows at x = 0. */
  function NextSandPositions(p: Coord): (r: seq<Coord>)
    requires p.x >= 1
    ensures |r| == 3 && forall k :: 0 <= k < 3 ==> r[k].y == p.y + 1
    ensures r[0].x == p.x && r[1].x == p.x - 1 && r[2].x == p.x + 1
  {
    [Coord(p.x, p.y + 1), Coord(p.x - 1, p.y + 1), Coord(p.x + 1, p.y + 1)]
  }

  datatype Content = Rock | Sand

  /** The row-major index of a cell. */
  function Index(width: nat, c: Coord): nat {
    c.y * width + c.x
  }

  lemma IndexInRange(width: nat, height: nat, c: Coord)
    requires c.x < width && c.y < height
    ensures Index(width, c) < width * height
  {
    assert c.y * width + width == (c.y + 1) * width;
    assert (c.y + 1) * width <= height * width by {
      Arith.MulMonotone(c.y + 1, height, width);
    }
  }

  predicate InRange(cells: seq<Option<Content>>, width: nat, pts: seq<Coord>) {
    forall k :: 0 <= k < |pts| ==> Index(width, pts[k]) < |cells|
  }

  /** The cells after `draw_position(p, v)` for every p of pts in turn. */
  function DrawPoints(cells: seq<Option<Content>>, width: nat, pts: seq<Coord>, v: Option<Content>): (r: seq<Option<Content>>)
    requires InRange(cells, width, pts)
    ensures |r| == |cells|
  {
    if pts == [] then cells
    else DrawPoints(cells, width, pts[..|pts| - 1], v)[Index(width, pts[|pts| - 1]) := v]
  }

  /** Drawing sets exactly the cells of the drawn points. */
  lemma {:induction false} DrawPointsAt(cells: seq<Option<Content>>, width: nat, pts: seq<Coord>, v: Option<Content>, i: nat)
    requires InRange(cells, width, pts) && i < |cells|
    ensures DrawPoints(cells, width, pts, v)[i] ==
      if exists k :: 0 <= k < |pts| && Index(width, pts[k]) == i then v else cells[i]
  {
    if pts != [] {
      var init := pts[..|pts| - 1];
      DrawPointsAt(cells, width, init, v, i);
      assert forall k :: 0 <= k < |init| ==> init[k] == pts[k];
      if Index(width, pts[|pts| - 1]) != i {
        if exists k :: 0 <= k < |pts| && Index(width, pts[k]) == i {
          var k :| 0 <= k < |pts| && Index(width, pts[k]) == i;
          assert k < |init|;
        }
      }
    }
  }

  lemma {:induction false} DrawPointsAppend(cells: seq<Option<Content>>, width: nat, a: seq<Coord>, b: seq<Coord>, v: Option<Content>)
    requires InRange(cells, width, a + b)
    ensures InRange(cells, width, a) && InRange(DrawPoints(cells, width, a, v), width, b)
    ensures DrawPoints(cells, width, a + b, v) == DrawPoints(DrawPoints(cells, width, a, v), width, b, v)
    decreases |b|
  {
    assert forall k :: 0 <= k < |a| ==> (a + b)[k] == a[k];
    assert forall k :: 0 <= k < |b| ==> (a + b)[|a| + k] == b[k];
    if b != [] {
      var b' := b[..|b| - 1];
      assert (a + b)[..|a + b| - 1] == a + b';
      DrawPointsAppend(cells, width, a, b', v);
    } else {
      assert a + b == a;
    }
  }

  /** The cells of all segments of a path, as `draw_path` visits them. */
  function PathPoints(path: seq<Coord>): seq<Coord> {
    if |path| < 2 then []
    else PathPoints(path[..|path| - 1]) + LineBox(path[|path| - 2], path[|path| - 1])
  }

  predicate InGrid(width: nat, height: nat, pts: seq<Coord>) {
    forall k :: 0 <= k < |pts| ==> pts[k].x < width && pts[k].y < height
  }

  lemma {:induction false} PathPointsInGrid(path: seq<Coord>, width: nat, height: nat)
    requires InGrid(width, height, path)
    ensures InGrid(width, height, PathPoints(path))
  {
    if |path| >= 2 {
      var init := path[..|path| - 1];
      assert forall k :: 0 <= k < |init| ==> init[k] == path[k];
      PathPointsInGrid(init, width, height);
      var a, b := path[|path| - 2], path[|path| - 1];
      var box := LineBox(a, b);
      forall k | 0 <= k < |box| ensures box[k].x < width && box[k].y < height {
        InLineBox(a, b, box[k]);
      }
    }
  }

  lemma InGridInRange(width: nat, height: nat, pts: seq<Coord>, cells: seq<Option<Content>>)
    requires InGrid(width, height, pts) && |cells| == width * height
    ensures InRange(cells, width, pts)
  {
    forall k | 0 <= k < |pts| ensures Index(width, pts[k]) < |cells| {
      IndexInRange(width, height, pts[k]);
    }
  }

  /** All the points of all the paths drawn by `Grid::new`, without the floor. */
  function RockPoints(lines: seq<seq<Coord>>): seq<Coord> {
    if lines == [] then [] else RockPoints(lines[..|lines| - 1]) + PathPoints(lines[|lines| - 1])
  }

  function Flatten(lines: seq<seq<Coord>>): seq<Coord> {
    if lines == [] then [] else Flatten(lines[..|lines| - 1]) + lines[|lines| - 1]
  }

  lemma {:induction false} InFlatten(lines: seq<seq<Coord>>, k: nat, c: Coord)
    requires k < |lines| && c in lines[k]
    ensures c in Flatten(lines)
  {
    if k < |lines| - 1 {
      InFlatten(lines[..|lines| - 1], k, c);
    }
  }

  function MaxX(pts: seq<Coord>): (m: nat)
    requires pts != []
    ensures forall k :: 0 <= k < |pts| ==> pts[k].x <= m
    ensures exists k :: 0 <= k < |pts| && pts[k].x == m
  {
    if |pts| == 1 then pts[0].x
    else
      var m := MaxX(pts[1..]);
      assert forall k :: 1 <= k < |pts| ==> pts[k] == pts[1..][k - 1];
      Max(pts[0].x, m)
  }

  function MaxY(pts: seq<Coord>): (m: nat)
    requires pts != []
    ensures forall k :: 0 <= k < |pts| ==> pts[k].y <= m
    ensures exists k :: 0 <= k < |pts| && pts[k].y == m
  {
    if |pts| == 1 then pts[0].y
    else
      var m := MaxY(pts[1..]);
      assert forall k :: 1 <= k < |pts| ==> pts[k] == pts[1..][k - 1];
      Max(pts[0].y, m)
  }

  /** The cells the sand can fall through, for one unit, from p on. */
  datatype Outcome = Panic | Falls | Rests(at: Coord)

  /** The path of one unit of sand: it moves to the first free candidate,
      falls out once a candidate row reaches `height`, and rests where all
      three candidates are occupied. Reading past the cells, or building the
      candidates at x = 0, panics. */
  function Drop(cells: seq<Option<Content>>, width: nat, height: nat, p: Coord): Outcome
    decreases if p.y < height then height - p.y else 0, 4
  {
    if p.x == 0 then Panic else DropFrom(cells, width, height, p, 0)
  }

  /** The scan over the candidates of p, from candidate k on. */
  function DropFrom(cells: seq<Option<Content>>, width: nat, height: nat, p: Coord, k: nat): Outcome
    requires p.x >= 1 && k <= 3
    decreases if p.y < height then height - p.y else 0, 3 - k
  {
    if k == 3 then Rests(p)
    else
      var c := NextSandPositions(p)[k];
      if c.y >= height then Falls
      else if Index(width, c) >= |cells| then Panic
      else if cells[Index(width, c)].None? then Drop(cells, width, height, c)
      else DropFrom(cells, width, height, p, k + 1)
  }

  /** Where a unit of sand rests, all three cells below it are occupied and
      inside the grid; it is the source or a free cell below it. */
  lemma {:induction false} DropRests(cells: seq<Option<Content>>, width: nat, height: nat, p: Coord, c: Coord)
    requires Drop(cells, width, height, p) == Rests(c)
    ensures c.x >= 1 && c.y >= p.y && c.y + 1 < height
    ensures forall k :: 0 <= k < 3 ==>
      Index(width, NextSandPositions(c)[k]) < |cells| && cells[Index(width, NextSandPositions(c)[k])].Some?
    ensures c != p ==> c.y < height && Index(width, c) < |cells| && cells[Index(width, c)].None?
    decreases if p.y < height then height - p.y else 0, 4
  {
    DropFromRests(cells, width, height, p, 0, c);
  }

  lemma {:induction false} DropFromRests(cells: seq<Option<Content>>, width: nat, height: nat, p: Coord, k: nat, c: Coord)
    requires p.x >= 1 && k <= 3
    requires DropFrom(cells, width, height, p, k) == Rests(c)
    requires forall j :: 0 <= j < k ==>
      NextSandPositions(p)[j].y < height &&
      Index(width, NextSandPositions(p)[j]) < |cells| && cells[Index(width, NextSandPositions(p)[j])].Some?
    ensures c.x >= 1 && c.y >= p.y && c.y + 1 < height
    ensures forall j :: 0 <= j < 3 ==>
      Index(width, NextSandPositions(c)[j]) < |cells| && cells[Index(width, NextSandPositions(c)[j])].Some?
    ensures c != p ==> c.y < height && Index(width, c) < |cells| && cells[Index(width, c)].None?
    decreases if p.y < height then height - p.y else 0, 3 - k
  {
    if k == 3 {
      assert NextSandPositions(p)[0].y < height;
    } else {
      var n := NextSandPositions(p)[k];
      if cells[Index(width, n)].None? {
        DropRests(cells, width, height, n, c);
      } else {
        DropFromRests(cells, width, height, p, k + 1, c);
      }
    }
  }

  class Grid {
    const content: array<Option<Content>>
    const width: nat
    const height: nat

    predicate Valid()
      reads this
    {
      content.Length == width * height
    }

    /** `Grid::new`: the grid is twice as wide as the rightmost rock needs,
        and, with a floor, two rows deeper than the lowest rock; the floor is
        a rock path over the whole last row. Without any rock the `unwrap`
        fails. */
    constructor (lines: seq<seq<Coord>>, bottomless: bool)
      requires Flatten(lines) != []
      ensures width == 2 * (MaxX(Flatten(lines)) + 1)
      ensures height == MaxY(Flatten(lines)) + 1 + (if bottomless then 0 else 2)
      ensures Valid() && fresh(content)
      ensures InRange(EmptyCells(width * height), width, RockPoints(lines) + FloorPoints(width, height, bottomless))
      ensures content[..] == DrawPoints(EmptyCells(width * height), width,
        RockPoints(lines) + FloorPoints(width, height, bottomless), Some(Rock))
    {
      var points := Flatten(lines);
      var realwidth := MaxX(points) + 1;
      var w := realwidth * 2;
      var realheight := MaxY(points) + 1;
      var h := if bottomless then realheight else realheight + 2;
      width := w;
      height := h;
      content := new Option<Content>[w * h](_ => None);
      new;
      ghost var empty := EmptyCells(w * h);
      assert content[..] == empty;
      for k := 0 to |lines|
        invariant InGrid(w, h, RockPoints(lines[..k]))
        invariant InRange(empty, w, RockPoints(lines[..k]))
        invariant content[..] == DrawPoints(empty, w, RockPoints(lines[..k]), Some(Rock))
      {
        RocksStep(lines, k, w, h, empty);
        DrawPath(lines[k]);
      }
      assert lines[..|lines|] == lines;
      FloorStep(lines, w, h, bottomless, empty);
      if !bottomless {
        DrawPath([Coord(0, h - 1), Coord(w - 1, h - 1)]);
      }
    }

    /** `draw_path`: every cell of every segment becomes `value`. */
    method DrawPath(path: seq<Coord>)
      requires Valid() && InGrid(width, height, path)
      modifies content
      ensures InRange(old(content[..]), width, PathPoints(path))
      ensures content[..] == DrawPoints(old(content[..]), width, PathPoints(path), Some(Rock))
    {
      ghost var start := content[..];
      PathPointsInGrid(path, width, height);
      InGridInRange(width, height, PathPoints(path), start);
      if |path| < 2 {
        return;
      }
      for k := 1 to |path|
        invariant InGrid(width, height, PathPoints(path[..k]))
        invariant InRange(start, width, PathPoints(path[..k]))
        invariant content[..] == DrawPoints(start, width, PathPoints(path[..k]), Some(Rock))
      {
        var a, b := path[k - 1], path[k];
        var prefix := path[..k + 1];
        assert prefix[..k] == path[..k] && prefix[k - 1] == a && prefix[k] == b;
        assert InGrid(width, height, prefix);
        PathPointsInGrid(prefix, width, height);
        InGridInRange(width, height, PathPoints(prefix), start);
        var points := GetLinePoints(a, b);
        DrawPointsAppend(start, width, PathPoints(path[..k]), points, Some(Rock));
        DrawLine(points);
      }
      assert path[..|path|] == path;
    }

    /** The inner loop of `draw_path`: the cells of one segment become rock,
        in order. */
    method DrawLine(points: seq<Coord>)
      requires Valid() && InRange(content[..], width, points)
      modifies content
      ensures content[..] == DrawPoints(old(content[..]), width, points, Some(Rock))
    {
      ghost var before := content[..];
      for j := 0 to |points|
        invariant content[..] == DrawPoints(before, width, points[..j], Some(Rock))
      {
        assert points[..j + 1][..j] == points[..j];
        DrawPosition(points[j], Some(Rock));
      }
      assert points[..|points|] == points;
    }

    /** `draw_position`. */
    method DrawPosition(pos: Coord, value: Option<Content>)
      requires Valid() && Index(width, pos) < content.Length
      modifies content
      ensures content[..] == old(content[..])[Index(width, pos) := value]
    {
      content[pos.y * width + pos.x] := value;
    }

    /** `get_content_at_pos`. */
    function ContentAt(pos: Coord): Option<Content>
      reads this, content
      requires Index(width, pos) < content.Length
    {
      content[pos.y * width + pos.x]
    }

    /** `pour_sand`: one unit of sand falls from `pos`. It answers false when
        the sand falls out of the grid or rests at `pos` itself, true when it
        rests elsewhere; only the resting cell changes, to Sand. A panic is
        None. */
    method PourSand(pos: Coord) returns (r: Option<bool>)
      requires Valid()
      modifies content
      ensures match Drop(old(content[..]), width, height, pos)
        case Panic => r.None? && content[..] == old(content[..])
        case Falls => r == Some(false) && content[..] == old(content[..])
        case Rests(c) =>
          if Index(width, c) < content.Length
          then r == Some(c != pos) && content[..] == old(content[..])[Index(width, c) := Some(Sand)]
          else r.None? && content[..] == old(content[..])
    {
      ghost var cells := content[..];
      var sand := pos;
      while true
        invariant content[..] == cells
        invariant Drop(cells, width, height, sand) == Drop(cells, width, height, pos)
        decreases if sand.y < height then height - sand.y else 0
      {
        if sand.x == 0 {
          return None;
        }
        var next := NextSandPositions(sand);
        var k := 0;
        var moved := false;
        while k < 3
          invariant 0 <= k <= 3 && !moved
          invariant DropFrom(cells, width, height, sand, k) == Drop(cells, width, height, pos)
        {
          var c := next[k];
          if c.y >= height {
            return Some(false);
          }
          if c.y * width + c.x >= content.Length {
            return None;
          }
          if ContentAt(c).None? {
            sand := c;
            moved := true;
            break;
          }
          k := k + 1;
        }
        if !moved {
          if sand.y * width + sand.x >= content.Length {
            return None;
          }
          DrawPosition(sand, Some(Sand));
          return Some(sand != pos);
        }
      }
    }
  }

  /** Drawing the next path of `Grid::new` stays inside the grid. */
  lemma RocksStep(lines: seq<seq<Coord>>, k: nat, w: nat, h: nat, empty: seq<Option<Content>>)
    requires k < |lines| && Flatten(lines) != [] && |empty| == w * h
    requires w == 2 * (MaxX(Flatten(lines)) + 1) && h >= MaxY(Flatten(lines)) + 1
    requires InGrid(w, h, RockPoints(lines[..k]))
    ensures InGrid(w, h, lines[k]) && InGrid(w, h, RockPoints(lines[..k + 1]))
    ensures InRange(empty, w, RockPoints(lines[..k + 1])) && InRange(empty, w, RockPoints(lines[..k]))
    ensures InRange(DrawPoints(empty, w, RockPoints(lines[..k]), Some(Rock)), w, PathPoints(lines[k]))
    ensures DrawPoints(empty, w, RockPoints(lines[..k + 1]), Some(Rock)) ==
      DrawPoints(DrawPoints(empty, w, RockPoints(lines[..k]), Some(Rock)), w, PathPoints(lines[k]), Some(Rock))
  {
    assert lines[..k + 1][..k] == lines[..k];
    forall j | 0 <= j < |lines[k]| ensures lines[k][j].x < w && lines[k][j].y < h {
      InFlatten(lines, k, lines[k][j]);
    }
    PathPointsInGrid(lines[k], w, h);
    InGridAppend(w, h, RockPoints(lines[..k]), PathPoints(lines[k]));
    InGridInRange(w, h, RockPoints(lines[..k + 1]), empty);
    DrawPointsAppend(empty, w, RockPoints(lines[..k]), PathPoints(lines[k]), Some(Rock));
  }

  /** Drawing the floor of `Grid::new` stays inside the grid. */
  lemma FloorStep(lines: seq<seq<Coord>>, w: nat, h: nat, bottomless: bool, empty: seq<Option<Content>>)
    requires |empty| == w * h && InGrid(w, h, RockPoints(lines)) && w > 0
    requires !bottomless ==> h > 0
    ensures InRange(empty, w, RockPoints(lines) + FloorPoints(w, h, bottomless))
    ensures InRange(empty, w, RockPoints(lines))
    ensures InRange(DrawPoints(empty, w, RockPoints(lines), Some(Rock)), w, FloorPoints(w, h, bottomless))
    ensures DrawPoints(empty, w, RockPoints(lines) + FloorPoints(w, h, bottomless), Some(Rock)) ==
      DrawPoints(DrawPoints(empty, w, RockPoints(lines), Some(Rock)), w, FloorPoints(w, h, bottomless), Some(Rock))
    ensures !bottomless ==> InGrid(w, h, [Coord(0, h - 1), Coord(w - 1, h - 1)])
    ensures !bottomless ==> FloorPoints(w, h, bottomless) == PathPoints([Coord(0, h - 1), Coord(w - 1, h - 1)])
    ensures bottomless ==> FloorPoints(w, h, bottomless) == []
  {
    var floor := FloorPoints(w, h, bottomless);
    if !bottomless {
      PathPointsInGrid([Coord(0, h - 1), Coord(w - 1, h - 1)], w, h);
    }
    InGridAppend(w, h, RockPoints(lines), floor);
    InGridInRange(w, h, RockPoints(lines) + floor, empty);
    DrawPointsAppend(empty, w, RockPoints(lines), floor, Some(Rock));
  }

  function EmptyCells(n: nat): (r: seq<Option<Content>>)
    ensures |r| == n && forall i :: 0 <= i < n ==> r[i].None?
  {
    seq(n, _ => None)
  }

  /** The floor path of a grid that is not bottomless. */
  function FloorPoints(width: nat, height: nat, bottomless: bool): seq<Coord> {
    if bottomless || width == 0 || height == 0 then []
    else PathPoints([Coord(0, height - 1), Coord(width - 1, height - 1)])
  }

  lemma InGridAppend(width: nat, height: nat, a: seq<Coord>, b: seq<Coord>)
    requires InGrid(width, height, a) && InGrid(width, height, b)
    ensures InGrid(width, height, a + b)
  {
    assert forall k :: 0 <= k < |a| + |b| ==> (a + b)[k] == if k < |a| then a[k] else b[k - |a|];
  }

  /** With a floor, the whole last row is rock. */
  lemma FloorIsRock(cells: seq<Option<Content>>, width: nat, height: nat, rocks: seq<Coord>, x: nat)
    requires width > 0 && height > 0 && x < width && |cells| == width * height
    requires InRange(cells, width, rocks + FloorPoints(width, height, false))
    ensures DrawPoints(cells, width, rocks + FloorPoints(width, height, false), Some(Rock))[Index(width, Coord(x, height - 1))] == Some(Rock)
  {
    var floor := FloorPoints(width, height, false);
    var pts := rocks + floor;
    var c := Coord(x, height - 1);
    IndexInRange(width, height, c);
    var path := [Coord(0, height - 1), Coord(width - 1, height - 1)];
    assert path[..|path| - 1] == [Coord(0, height - 1)];
    assert PathPoints(path[..|path| - 1]) == [];
    assert floor == LineBox(Coord(0, height - 1), Coord(width - 1, height - 1));
    InLineBox(Coord(0, height - 1), Coord(width - 1, height - 1), c);
    var j :| 0 <= j < |floor| && floor[j] == c;
    assert pts[|rocks| + j] == c;
    DrawPointsAt(cells, width, pts, Some(Rock), Index(width, c));
  }
}
