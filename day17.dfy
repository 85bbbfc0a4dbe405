/** Falling rocks in a chamber seven units wide: five rock shapes, pushed by
    jets of gas and falling one unit at a time until they come to rest on the
    floor or on another rock. */
module Day17 {
  import opened Wrappers
  import opened Helpers

  datatype Shape = HorizontalLine | Cross | MirroredL | VerticalLine | Square

  /** `Shape::cycle`: the shapes in falling order. Indexing past the fifth
      panics. */
  function Cycle(c: nat): Shape
    requires c < 5
  {
    [HorizontalLine, Cross, MirroredL, VerticalLine, Square][c]
  }

  /** Every shape has exactly one place in the cycle. */
  lemma CycleIsBijective(s: Shape)
    ensures exists c :: 0 <= c < 5 && Cycle(c) == s
    ensures forall c, d :: 0 <= c < d < 5 ==> Cycle(c) != Cycle(d)
  {
    match s
    case HorizontalLine => assert Cycle(0) == s;
    case Cross => assert Cycle(1) == s;
    case MirroredL => assert Cycle(2) == s;
    case VerticalLine => assert Cycle(3) == s;
    case Square => assert Cycle(4) == s;
  }

  function ShapeHeight(s: Shape): int {
    match s
    case HorizontalLine => 1
    case Cross => 3
    case MirroredL => 3
    case VerticalLine => 4
    case Square => 2
  }

  function ShapeWidth(s: Shape): int {
    match s
    case HorizontalLine => 4
    case Cross => 3
    case MirroredL => 3
    case VerticalLine => 1
    case Square => 2
  }

  /** The cells of a shape, relative to the bottom left of its box. */
  function ShapePoints(s: Shape): seq<Point> {
    match s
    case HorizontalLine => [Point(0, 0), Point(1, 0), Point(2, 0), Point(3, 0)]
    case Cross => [Point(1, 0), Point(0, 1), Point(1, 1), Point(2, 1), Point(1, 2)]
    case MirroredL => [Point(0, 0), Point(1, 0), Point(2, 0), Point(2, 1), Point(2, 2)]
    case VerticalLine => [Point(0, 0), Point(0, 1), Point(0, 2), Point(0, 3)]
    case Square => [Point(0, 0), Point(0, 1), Point(1, 0), Point(1, 1)]
  }

  predicate InBox(s: Shape, p: Point) {
    0 <= p.x < ShapeWidth(s) && 0 <= p.y < ShapeHeight(s)
  }

  /** Every cell of a shape lies in its box, and the box is as tight as it
      can be: some cell touches each of its four sides. */
  lemma ShapeFitsBox(s: Shape)
    ensures ShapeWidth(s) >= 1 && ShapeHeight(s) >= 1
    ensures forall k :: 0 <= k < |ShapePoints(s)| ==> InBox(s, ShapePoints(s)[k])
    ensures exists k :: 0 <= k < |ShapePoints(s)| && ShapePoints(s)[k].x == ShapeWidth(s) - 1
    ensures exists k :: 0 <= k < |ShapePoints(s)| && ShapePoints(s)[k].y == ShapeHeight(s) - 1
    ensures exists k :: 0 <= k < |ShapePoints(s)| && ShapePoints(s)[k].x == 0
    ensures exists k :: 0 <= k < |ShapePoints(s)| && ShapePoints(s)[k].y == 0
  {
    var pts := ShapePoints(s);
    match s
    case HorizontalLine =>
      assert pts[3].x == 3 && pts[0].x == 0 && pts[0].y == 0;
    case Cross =>
      assert pts[3].x == 2 && pts[4].y == 2 && pts[1].x == 0 && pts[0].y == 0;
    case MirroredL =>
      assert pts[2].x == 2 && pts[4].y == 2 && pts[0].x == 0 && pts[0].y == 0;
    case VerticalLine =>
      assert pts[0].x == 0 && pts[3].y == 3 && pts[0].y == 0;
    case Square =>
      assert pts[2].x == 1 && pts[1].y == 1 && pts[0].x == 0 && pts[0].y == 0;
  }

  /** `real_points`: the cells of a shape placed at `origin`. */
  function RealPoints(s: Shape, origin: Point): (r: seq<Point>)
    ensures |r| == |ShapePoints(s)|
    ensures forall k :: 0 <= k < |r| ==> r[k] == Add(origin, ShapePoints(s)[k])
  {
    seq(|ShapePoints(s)|, k requires 0 <= k < |ShapePoints(s)| => Add(origin, ShapePoints(s)[k]))
  }

  function AbsDiff(a: int, b: int): nat {
    if a < b then b - a else a - b
  }

  /** `collide_with_bounding_box`: the boxes overlap, compared through their
      (rounded down) centres. */
  predicate CollideBoundingBox(s: Shape, o: Point, t: Shape, q: Point) {
    CloseCentres(o.x, ShapeWidth(s), q.x, ShapeWidth(t)) &&
    CloseCentres(o.y, ShapeHeight(s), q.y, ShapeHeight(t))
  }

  /** The test on one axis, for extents [a, a + w) and [b, b + v). */
  predicate CloseCentres(a: int, w: int, b: int, v: int) {
    AbsDiff(a + w / 2, b + v / 2) * 2 < w + v
  }

  /** `collide_precise`: the two rocks share a cell. */
  predicate CollidePrecise(s: Shape, o: Point, t: Shape, q: Point) {
    exists i, j :: 0 <= i < |RealPoints(s, o)| && 0 <= j < |RealPoints(t, q)| &&
      RealPoints(s, o)[i] == RealPoints(t, q)[j]
  }

  /** Two intervals [a, a + w) and [b, b + v) that meet pass the centre test. */
  lemma CentresClose(a: int, w: int, b: int, v: int)
    requires w >= 1 && v >= 1 && a < b + v && b < a + w
    ensures CloseCentres(a, w, b, v)
  {
    assert w - 1 <= 2 * (w / 2) <= w;
    assert v - 1 <= 2 * (v / 2) <= v;
  }

  /** The bounding-box test is a sound filter: rocks that share a cell always
      pass it. */
  lemma PreciseImpliesBoundingBox(s: Shape, o: Point, t: Shape, q: Point)
    requires CollidePrecise(s, o, t, q)
    ensures CollideBoundingBox(s, o, t, q)
  {
    BoxesOverlap(s, o, t, q);
    CentresClose(o.x, ShapeWidth(s), q.x, ShapeWidth(t));
    CentresClose(o.y, ShapeHeight(s), q.y, ShapeHeight(t));
  }

  /** Rocks that share a cell have overlapping boxes. */
  lemma BoxesOverlap(s: Shape, o: Point, t: Shape, q: Point)
    requires CollidePrecise(s, o, t, q)
    ensures ShapeWidth(s) >= 1 && ShapeHeight(s) >= 1 && ShapeWidth(t) >= 1 && ShapeHeight(t) >= 1
    ensures o.x < q.x + ShapeWidth(t) && q.x < o.x + ShapeWidth(s)
    ensures o.y < q.y + ShapeHeight(t) && q.y < o.y + ShapeHeight(s)
  {
    var i, j :| 0 <= i < |RealPoints(s, o)| && 0 <= j < |RealPoints(t, q)| &&
      RealPoints(s, o)[i] == RealPoints(t, q)[j];
    var a, b := ShapePoints(s)[i], ShapePoints(t)[j];
    PointInBox(s, i);
    PointInBox(t, j);
    assert Add(o, a) == Add(q, b);
  }

  lemma PointInBox(s: Shape, k: nat)
    requires k < |ShapePoints(s)|
    ensures ShapeWidth(s) >= 1 && ShapeHeight(s) >= 1 && InBox(s, ShapePoints(s)[k])
  {
    ShapeFitsBox(s);
  }

  /** The walls of the chamber are at x = 0 and x = 7 and its floor at y = 0. */
  predicate InChamber(s: Shape, origin: Point) {
    origin.y >= 0 && origin.x >= 0 && origin.x + ShapeWidth(s) <= 7
  }

  /** A push left or right, or a fall. */
  predicate IsStep(d: Point) {
    d == Point(1, 0) || d == Point(-1, 0) || d == Point(0, -1)
  }

  /** The check `move_direction` makes before moving: the step does not go
      through the floor or a wall. */
  predicate FitsStep(s: Shape, origin: Point, d: Point) {
    !((d.y < 0 && origin.y <= 0) || (d.x < 0 && origin.x <= 0) || (d.x > 0 && origin.x + ShapeWidth(s) >= 7))
  }

  /** A step that passes the wall check keeps the rock in the chamber. */
  lemma StepStaysInChamber(s: Shape, origin: Point, d: Point)
    requires InChamber(s, origin) && IsStep(d) && FitsStep(s, origin, d)
    ensures InChamber(s, Add(origin, d))
  {
  }

  class Rock {
    var origin: Point
    const shape: Shape

    /** `Rock::spawn`: two units from the left wall, at the given height. */
    constructor Spawn(shape: Shape, height: int)
      ensures this.shape == shape && origin == Point(2, height)
      ensures height >= 0 ==> InChamber(shape, origin)
    {
      this.shape := shape;
      origin := Point(2, height);
    }

    function Width(): int
      reads this
    {
      ShapeWidth(shape)
    }

    function Height(): int
      reads this
    {
      ShapeHeight(shape)
    }

    /** `move_direction`: the rock moves by `d` unless that crosses a wall or
        the floor or makes it share a cell with a settled rock; the answer
        says whether it moved. */
    method MoveDirection(d: Point, rocks: seq<Rock>) returns (moved: bool)
      requires this !in rocks
      modifies this
      ensures moved <==> (FitsStep(shape, old(origin), d) &&
        forall k :: 0 <= k < |rocks| ==> !CollidePrecise(rocks[k].shape, rocks[k].origin, shape, Add(old(origin), d)))
      ensures origin == if moved then Add(old(origin), d) else old(origin)
      ensures d != Point(0, 0) ==> (moved <==> origin != old(origin))
      ensures InChamber(shape, old(origin)) && IsStep(d) ==> InChamber(shape, origin)
    {
      if (d.y < 0 && origin.y <= 0) || (d.x < 0 && origin.x <= 0) || (d.x > 0 && origin.x + Width() >= 7) {
        return false;
      }
      ghost var start := origin;
      origin := Add(origin, d);
      for k := 0 to |rocks|
        invariant origin == Add(start, d)
        invariant forall j :: 0 <= j < k ==> !CollidePrecise(rocks[j].shape, rocks[j].origin, shape, origin)
      {
        var r := rocks[k];
        if CollidePrecise(r.shape, r.origin, shape, origin) {
          PreciseImpliesBoundingBox(r.shape, r.origin, shape, origin);
        }
        if CollideBoundingBox(r.shape, r.origin, shape, origin) && CollidePrecise(r.shape, r.origin, shape, origin) {
          SubOfAdd(start, d);
          origin := Sub(origin, d);
          return false;
        }
      }
      if InChamber(shape, start) && IsStep(d) {
        StepStaysInChamber(shape, start, d);
      }
      return true;
    }

    /** `fall`: one unit down. */
    method Fall(rocks: seq<Rock>) returns (moved: bool)
      requires this !in rocks
      modifies this
      ensures moved <==> (old(origin).y > 0 &&
        forall k :: 0 <= k < |rocks| ==> !CollidePrecise(rocks[k].shape, rocks[k].origin, shape, Add(old(origin), Point(0, -1))))
      ensures origin == if moved then Point(old(origin).x, old(origin).y - 1) else old(origin)
    {
      moved := MoveDirection(Point(0, -1), rocks);
    }
  }

  /** `parse_input`: '>' pushes right, '<' pushes left, other characters are
      skipped. */
  function ParseJets(s: string): (r: seq<Point>)
    ensures forall k :: 0 <= k < |r| ==> r[k] == Point(1, 0) || r[k] == Point(-1, 0)
    ensures |r| <= |s|
  {
    if s == [] then []
    else
      var rest := ParseJets(s[1..]);
      if s[0] == '>' then [Point(1, 0)] + rest
      else if s[0] == '<' then [Point(-1, 0)] + rest
      else rest
  }

  function ShowJets(jets: seq<Point>): string {
    if jets == [] then "" else [if jets[0] == Point(1, 0) then '>' else '<'] + ShowJets(jets[1..])
  }

  /** Parsing the rendering of the jets gives the jets back. */
  lemma {:induction false} ParseShowJets(jets: seq<Point>)
    requires forall k :: 0 <= k < |jets| ==> jets[k] == Point(1, 0) || jets[k] == Point(-1, 0)
    ensures ParseJets(ShowJets(jets)) == jets
  {
    if jets != [] {
      ParseShowJets(jets[1..]);
      assert ShowJets(jets)[1..] == ShowJets(jets[1..]);
    }
  }

  /** The two rocks have the same shape and the same column. */
  predicate Same(a: Rock, b: Rock)
    reads a, b
  {
    a.shape == b.shape && a.origin.x == b.origin.x
  }

  /** Rock i + l comes back, by shape and column, `k` runs of `j + 1` rocks
      later. */
  predicate RecursAt(rocks: seq<Rock>, i: nat, j: nat, k: nat, l: nat)
    reads rocks
  {
    i + k * (j + 1) + l < |rocks| && Same(rocks[i + l], rocks[i + k * (j + 1) + l])
  }

  /** The `j + 1` rocks from `i` on recur four more times right after each
      other. */
  predicate Recurs(rocks: seq<Rock>, i: nat, j: nat)
    reads rocks
  {
    forall k: nat, l: nat :: 1 <= k < 5 && l < j + 1 ==> RecursAt(rocks, i, j, k, l)
  }

  /** Rock i has a twin `j + 1` rocks later, and the run between them recurs. */
  predicate CycleAt(rocks: seq<Rock>, i: nat, j: nat)
    reads rocks
  {
    i + 1 + j < |rocks| && Same(rocks[i], rocks[i + 1 + j]) && Recurs(rocks, i, j)
  }

  /** The repetition check for one candidate, as the `k`/`l` loops do it. */
  method RecursCheck(rocks: seq<Rock>, i: nat, j: nat) returns (ok: bool)
    ensures ok <==> Recurs(rocks, i, j)
  {
    for k := 1 to 5
      invariant forall k': nat, l: nat :: 1 <= k' < k && l < j + 1 ==> RecursAt(rocks, i, j, k', l)
    {
      for l := 0 to j + 1
        invariant forall k': nat, l': nat :: 1 <= k' < k && l' < j + 1 ==> RecursAt(rocks, i, j, k', l')
        invariant forall l': nat :: l' < l ==> RecursAt(rocks, i, j, k, l')
      {
        if i + k * (j + 1) + l >= |rocks| {
          assert !RecursAt(rocks, i, j, k, l);
          return false;
        }
        if rocks[i + l].shape != rocks[i + k * (j + 1) + l].shape
          || rocks[i + l].origin.x != rocks[i + k * (j + 1) + l].origin.x
        {
          assert !RecursAt(rocks, i, j, k, l);
          return false;
        }
      }
    }
    return true;
  }

  /** (i, j) is the first recurring candidate in the order the loops try
      them: by i, then by j. */
  ghost predicate FirstCycle(rocks: seq<Rock>, i: nat, j: nat)
    reads rocks
  {
    && CycleAt(rocks, i, j)
    && (forall i': nat, j': nat :: i' < i ==> !CycleAt(rocks, i', j'))
    && (forall j': nat :: j' < j ==> !CycleAt(rocks, i, j'))
  }

  /** `check_cycles`: the first rock i (and for it the first twin distance)
      whose run recurs gives (height gained over the run, run length, i + 1);
      without one, None. */
  method CheckCycles(rocks: seq<Rock>) returns (r: Option<(int, int, int)>)
    ensures r.None? <==> forall i: nat, j: nat :: !CycleAt(rocks, i, j)
    ensures r.Some? ==> exists i: nat, j: nat ::
      FirstCycle(rocks, i, j) && r.value == (rocks[i + 1 + j].origin.y - rocks[i].origin.y, j + 1, i + 1)
    ensures r.Some? ==> r.value.1 >= 1
  {
    for i := 0 to |rocks|
      invariant forall i': nat, j': nat :: i' < i ==> !CycleAt(rocks, i', j')
    {
      for j := 0 to |rocks| - i - 1
        invariant forall j': nat :: j' < j ==> !CycleAt(rocks, i, j')
      {
        var origin, compare := rocks[i], rocks[i + 1 + j];
        if origin.shape != compare.shape || origin.origin.x != compare.origin.x {
          continue;
        }
        var ok := RecursCheck(rocks, i, j);
        if !ok {
          continue;
        }
        assert FirstCycle(rocks, i, j);
        return Some((compare.origin.y - origin.origin.y, j + 1, i + 1));
      }
      assert forall j': nat :: !CycleAt(rocks, i, j');
    }
    assert forall i': nat, j': nat :: !CycleAt(rocks, i', j') by {
      forall i': nat, j': nat ensures !CycleAt(rocks, i', j') {
        if i' >= |rocks| {
          assert i' + 1 + j' >= |rocks|;
        }
      }
    }
    return None;
  }
}
