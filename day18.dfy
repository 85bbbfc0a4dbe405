/** Boiling boulders: the surface of a droplet made of unit cubes. The
    shared `Point3` type and its `directions` are not part of this model:
    a cube is taken to be an integer triple with component-wise addition,
    and `directions` the six unit offsets along the axes. */
module Day18 {
  import opened Wrappers
  import opened Text

  datatype Point3 = Point3(x: int, y: int, z: int)

  function Add(p: Point3, q: Point3): (r: Point3)
    ensures r.x - q.x == p.x && r.y - q.y == p.y && r.z - q.z == p.z
  {
    Point3(p.x + q.x, p.y + q.y, p.z + q.z)
  }

  function Sub(p: Point3, q: Point3): (r: Point3)
    ensures r.x + q.x == p.x && r.y + q.y == p.y && r.z + q.z == p.z
  {
    Point3(p.x - q.x, p.y - q.y, p.z - q.z)
  }

  /** The six unit offsets, one per face of a cube. */
  const Directions: seq<Point3> :=
    [Point3(1, 0, 0), Point3(-1, 0, 0), Point3(0, 1, 0), Point3(0, -1, 0), Point3(0, 0, 1), Point3(0, 0, -1)]

  function Abs(a: int): nat {
    if a < 0 then -a else a
  }

  /** Two cubes sharing a face. */
  predicate Adjacent(a: Point3, b: Point3) {
    Abs(a.x - b.x) + Abs(a.y - b.y) + Abs(a.z - b.z) == 1
  }

  /** The offsets lead exactly to the cubes sharing a face. */
  lemma DirectionsAreFaces(p: Point3)
    ensures forall i :: 0 <= i < |Directions| ==> Adjacent(p, Add(p, Directions[i]))
    ensures forall q :: Adjacent(p, q) ==> exists i :: 0 <= i < |Directions| && q == Add(p, Directions[i])
  {
    forall q | Adjacent(p, q) ensures exists i :: 0 <= i < |Directions| && q == Add(p, Directions[i]) {
      var d := Sub(q, p);
      var i := if d.x == 1 then 0 else if d.x == -1 then 1 else if d.y == 1 then 2
        else if d.y == -1 then 3 else if d.z == 1 then 4 else 5;
      assert q == Add(p, Directions[i]);
    }
  }

  lemma DirectionIsFace(p: Point3, i: nat)
    requires i < |Directions|
    ensures Adjacent(p, Add(p, Directions[i]))
  {
  }

  // Parsing.

  const I32Min: int := -0x8000_0000
  const I32Limit: int := 0x8000_0000

  /** `parse::<i32>()`: a signed decimal that fits in 32 bits. */
  function ParseI32(s: string): (r: Option<int>)
    ensures r.Some? ==> I32Min <= r.value < I32Limit && ParseInt(s) == Some(r.value)
  {
    match ParseInt(s)
    case Some(v) => if I32Min <= v < I32Limit then Some(v) else None
    case None => None
  }

  /** One line `x,y,z`; any other number of fields fails. */
  function ParsePoint(line: string): (r: Option<Point3>)
  {
    match SplitOnce(line, ',')
    case None => None
    case Some((a, rest)) =>
      match SplitOnce(rest, ',')
      case None => None
      case Some((b, c)) =>
        if ',' in c then None
        else match (ParseI32(a), ParseI32(b), ParseI32(c))
          case (Some(x), Some(y), Some(z)) => Some(Point3(x, y, z))
          case _ => None
  }

  function ShowPoint(p: Point3): string {
    IntToString(p.x) + "," + IntToString(p.y) + "," + IntToString(p.z)
  }

  lemma IntToStringHasNoComma(i: int)
    ensures ',' !in IntToString(i)
  {
    var s := NatToString(if i < 0 then -i else i);
    assert forall k :: 0 <= k < |s| ==> s[k] != ',';
  }

  /** A cube written as a line reads back as itself. */
  lemma ParseShowPoint(p: Point3)
    requires I32Min <= p.x < I32Limit && I32Min <= p.y < I32Limit && I32Min <= p.z < I32Limit
    ensures ParsePoint(ShowPoint(p)) == Some(p)
  {
    var (a, b, c) := (IntToString(p.x), IntToString(p.y), IntToString(p.z));
    IntToStringHasNoComma(p.x);
    IntToStringHasNoComma(p.y);
    IntToStringHasNoComma(p.z);
    assert ShowPoint(p) == a + [','] + (b + [','] + c);
    SplitOnceAt(a, ',', b + [','] + c);
    SplitOnceAt(b, ',', c);
    ParseIntOfIntToString(p.x);
    ParseIntOfIntToString(p.y);
    ParseIntOfIntToString(p.z);
  }

  function ParsePoints(lines: seq<string>): (r: Option<seq<Point3>>)
    ensures r.Some? ==> |r.value| == |lines|
    ensures r.Some? ==> forall k :: 0 <= k < |lines| ==> ParsePoint(lines[k]) == Some(r.value[k])
  {
    if lines == [] then Some([])
    else match (ParsePoint(lines[0]), ParsePoints(lines[1..]))
      case (Some(p), Some(rest)) => Some([p] + rest)
      case _ => None
  }

  function Minimum(s: seq<int>): (m: int)
    requires |s| >= 1
    ensures m in s && forall k :: 0 <= k < |s| ==> m <= s[k]
  {
    if |s| == 1 then s[0]
    else var rest := Minimum(s[1..]); if s[0] <= rest then s[0] else rest
  }

  function Maximum(s: seq<int>): (m: int)
    requires |s| >= 1
    ensures m in s && forall k :: 0 <= k < |s| ==> s[k] <= m
  {
    if |s| == 1 then s[0]
    else var rest := Maximum(s[1..]); if s[0] >= rest then s[0] else rest
  }

  function Xs(ps: seq<Point3>): (r: seq<int>)
    ensures |r| == |ps| && forall k :: 0 <= k < |ps| ==> r[k] == ps[k].x
  {
    if ps == [] then [] else [ps[0].x] + Xs(ps[1..])
  }

  function Ys(ps: seq<Point3>): (r: seq<int>)
    ensures |r| == |ps| && forall k :: 0 <= k < |ps| ==> r[k] == ps[k].y
  {
    if ps == [] then [] else [ps[0].y] + Ys(ps[1..])
  }

  function Zs(ps: seq<Point3>): (r: seq<int>)
    ensures |r| == |ps| && forall k :: 0 <= k < |ps| ==> r[k] == ps[k].z
  {
    if ps == [] then [] else [ps[0].z] + Zs(ps[1..])
  }

  /** The smallest and the largest coordinate of the cubes on each axis. */
  function Bounds(ps: seq<Point3>): (r: (Point3, Point3))
    requires |ps| >= 1
    ensures forall k :: 0 <= k < |ps| ==> r.0.x <= ps[k].x <= r.1.x && r.0.y <= ps[k].y <= r.1.y && r.0.z <= ps[k].z <= r.1.z
    ensures r.0.x in Xs(ps) && r.1.x in Xs(ps) && r.0.y in Ys(ps) && r.1.y in Ys(ps) && r.0.z in Zs(ps) && r.1.z in Zs(ps)
  {
    (Point3(Minimum(Xs(ps)), Minimum(Ys(ps)), Minimum(Zs(ps))), Point3(Maximum(Xs(ps)), Maximum(Ys(ps)), Maximum(Zs(ps))))
  }

  /** `parse_input`: the cubes of the trimmed lines, with the smallest and
      the largest coordinate on each axis. A malformed line or an empty
      droplet panics. */
  function ParseInput(input: string): (r: Option<(set<Point3>, Point3, Point3)>)
    ensures r.Some? ==> r.value.0 != {}
  {
    match ParsePoints(Lines(Trim(input)))
    case None => None
    case Some(ps) =>
      if ps == [] then None
      else
        var (minpoint, maxpoint) := Bounds(ps);
        var points := set k | 0 <= k < |ps| :: ps[k];
        assert ps[0] in points;
        Some((points, minpoint, maxpoint))
  }

  /** The corners bound every parsed cube, and each of their coordinates
      is some cube's. */
  lemma ParseInputBounds(input: string, points: set<Point3>, minpoint: Point3, maxpoint: Point3)
    requires ParseInput(input) == Some((points, minpoint, maxpoint))
    ensures forall p :: p in points ==> minpoint.x <= p.x <= maxpoint.x && minpoint.y <= p.y <= maxpoint.y && minpoint.z <= p.z <= maxpoint.z
    ensures exists p :: p in points && p.x == minpoint.x
    ensures exists p :: p in points && p.x == maxpoint.x
    ensures exists p :: p in points && p.y == minpoint.y
    ensures exists p :: p in points && p.y == maxpoint.y
    ensures exists p :: p in points && p.z == minpoint.z
    ensures exists p :: p in points && p.z == maxpoint.z
  {
    var ps := ParsePoints(Lines(Trim(input))).value;
    assert points == set k | 0 <= k < |ps| :: ps[k];
    assert (minpoint, maxpoint) == Bounds(ps);
    var p0 := Attained(ps, points, Xs(ps), minpoint.x, 0);
    var p1 := Attained(ps, points, Xs(ps), maxpoint.x, 0);
    var p2 := Attained(ps, points, Ys(ps), minpoint.y, 1);
    var p3 := Attained(ps, points, Ys(ps), maxpoint.y, 1);
    var p4 := Attained(ps, points, Zs(ps), minpoint.z, 2);
    var p5 := Attained(ps, points, Zs(ps), maxpoint.z, 2);
    assert p0.x == minpoint.x && p1.x == maxpoint.x && p2.y == minpoint.y;
    assert p3.y == maxpoint.y && p4.z == minpoint.z && p5.z == maxpoint.z;
  }

  function Coordinate(p: Point3, axis: nat): int {
    if axis == 0 then p.x else if axis == 1 then p.y else p.z
  }

  lemma Attained(ps: seq<Point3>, points: set<Point3>, cs: seq<int>, v: int, axis: nat) returns (p: Point3)
    requires points == set k | 0 <= k < |ps| :: ps[k]
    requires |cs| == |ps| && forall k :: 0 <= k < |ps| ==> cs[k] == Coordinate(ps[k], axis)
    requires v in cs
    ensures p in points && Coordinate(p, axis) == v
  {
    var k :| 0 <= k < |cs| && cs[k] == v;
    p := ps[k];
  }

  // Counting open sides.

  /** The sides of `p` towards the offsets `ds` that face no cube of `points`. */
  function FreeSides(points: set<Point3>, p: Point3, ds: seq<Point3>): (r: nat)
    ensures r <= |ds|
  {
    if ds == [] then 0
    else FreeSides(points, p, ds[..|ds| - 1]) + (if Add(p, ds[|ds| - 1]) in points then 0 else 1)
  }

  /** The open sides of the cubes `part` of the droplet `points`, summed in
      any order. */
  ghost function OpenSides(points: set<Point3>, part: set<Point3>): nat
    decreases part
  {
    if part == {} then 0
    else var p :| p in part; FreeSides(points, p, Directions) + OpenSides(points, part - {p})
  }

  /** The sum does not depend on the cube taken first. */
  lemma {:induction false} OpenSidesOf(points: set<Point3>, part: set<Point3>, p: Point3)
    requires p in part
    ensures OpenSides(points, part) == FreeSides(points, p, Directions) + OpenSides(points, part - {p})
    decreases part
  {
    var q :| q in part && OpenSides(points, part) == FreeSides(points, q, Directions) + OpenSides(points, part - {q});
    if q != p {
      OpenSidesOf(points, part - {q}, p);
      OpenSidesOf(points, part - {p}, q);
      assert part - {q} - {p} == part - {p} - {q};
    }
  }

  /** Every cube has at most six open sides. */
  lemma {:induction false} OpenSidesBound(points: set<Point3>, part: set<Point3>)
    ensures OpenSides(points, part) <= 6 * |part|
    decreases part
  {
    if part != {} {
      var p :| p in part;
      OpenSidesOf(points, part, p);
      OpenSidesBound(points, part - {p});
    }
  }

  lemma {:induction false} AllSidesFree(points: set<Point3>, p: Point3, ds: seq<Point3>)
    requires forall k :: 0 <= k < |ds| ==> Add(p, ds[k]) !in points
    ensures FreeSides(points, p, ds) == |ds|
  {
    if ds != [] {
      AllSidesFree(points, p, ds[..|ds| - 1]);
    }
  }

  /** A lone cube shows all six sides. */
  lemma LoneCube(p: Point3)
    ensures OpenSides({p}, {p}) == 6
  {
    OpenSidesOf({p}, {p}, p);
    assert {p} - {p} == {};
    forall k | 0 <= k < |Directions| ensures Add(p, Directions[k]) !in {p} {
      assert Directions[k] != Point3(0, 0, 0);
    }
    AllSidesFree({p}, p, Directions);
  }

  /** `count_open_sides`: for every cube, in the set's own order, the
      sides whose neighbour is not a cube. */
  method CountOpenSides(points: set<Point3>) returns (tracker: nat)
    ensures tracker == OpenSides(points, points)
  {
    tracker := 0;
    var rest := points;
    while rest != {}
      invariant rest <= points
      invariant tracker + OpenSides(points, rest) == OpenSides(points, points)
      decreases rest
    {
      var point :| point in rest;
      OpenSidesOf(points, rest, point);
      ghost var before := tracker;
      for i := 0 to |Directions|
        invariant tracker == before + FreeSides(points, point, Directions[..i])
      {
        assert Directions[..i + 1][..i] == Directions[..i];
        var neighbor := Add(point, Directions[i]);
        if neighbor in points {
          continue;
        }
        tracker := tracker + 1;
      }
      assert Directions[..|Directions|] == Directions;
      rest := rest - {point};
    }
  }

  // The flood fill.

  /** A walk from `start` through cubes of `points`, face to face. */
  ghost predicate IsWalk(points: set<Point3>, start: Point3, walk: seq<Point3>) {
    |walk| >= 1 && walk[0] == start
    && forall k :: 1 <= k < |walk| ==> walk[k] in points && Adjacent(walk[k - 1], walk[k])
  }

  /** `p` is reached from `start` in one step or more. */
  ghost predicate Reachable(points: set<Point3>, start: Point3, p: Point3) {
    exists walk :: IsWalk(points, start, walk) && |walk| >= 2 && walk[|walk| - 1] == p
  }

  lemma ReachStep(points: set<Point3>, start: Point3, from: Point3, p: Point3)
    requires from == start || Reachable(points, start, from)
    requires p in points && Adjacent(from, p)
    ensures Reachable(points, start, p)
  {
    if from == start {
      assert IsWalk(points, start, [start, p]);
    } else {
      var walk :| IsWalk(points, start, walk) && |walk| >= 2 && walk[|walk| - 1] == from;
      assert IsWalk(points, start, walk + [p]);
    }
  }

  lemma RemoveOne(s: set<Point3>, p: Point3)
    requires p in s
    ensures |s - {p}| == |s| - 1
  {
  }

  /** Every step of a walk lands in a set that holds the neighbours in
      `points` of each cube it has expanded, when the walk starts in an
      expanded cube and every member has been expanded. */
  lemma {:induction false} WalkStaysInside(points: set<Point3>, start: Point3, done: set<Point3>, closed: set<Point3>, walk: seq<Point3>, k: nat)
    requires IsWalk(points, start, walk) && 1 <= k < |walk|
    requires start in done && closed <= done
    requires forall c :: c in done ==> Expanded(points, closed, c, |Directions|)
    ensures walk[k] in closed
  {
    if k > 1 {
      WalkStaysInside(points, start, done, closed, walk, k - 1);
    }
    DirectionsAreFaces(walk[k - 1]);
    var i :| 0 <= i < |Directions| && walk[k] == Add(walk[k - 1], Directions[i]);
    assert walk[k - 1] in done;
    assert Expanded(points, closed, walk[k - 1], |Directions|);
  }

  /** The neighbours of `point` in `points` towards the first `n` offsets
      are in `closed`. */
  predicate Expanded(points: set<Point3>, closed: set<Point3>, point: Point3, n: nat)
    requires n <= |Directions|
  {
    forall j :: 0 <= j < n && Add(point, Directions[j]) in points ==> Add(point, Directions[j]) in closed
  }

  lemma ExpandOne(points: set<Point3>, closed: set<Point3>, point: Point3, i: nat)
    requires i < |Directions| && Expanded(points, closed, point, i)
    ensures forall more :: (closed <= more && (Add(point, Directions[i]) in points ==> Add(point, Directions[i]) in more))
                           ==> Expanded(points, more, point, i + 1)
  {
  }

  lemma ExpandedGrows(points: set<Point3>, closed: set<Point3>, more: set<Point3>, point: Point3)
    requires closed <= more && Expanded(points, closed, point, |Directions|)
    ensures Expanded(points, more, point, |Directions|)
  {
  }

  /** One visit appends at most one newly closed point: the original queue
      stays a prefix and everything after it is closed. */
  lemma QueueAppend(queue: seq<Point3>, previous: seq<Point3>, next: seq<Point3>,
                    closed: set<Point3>, closed': set<Point3>)
    requires |previous| >= |queue| && previous[..|queue|] == queue
    requires forall k :: |queue| <= k < |previous| ==> previous[k] in closed
    requires closed <= closed'
    requires next == previous || (|next| == |previous| + 1 && next[..|previous|] == previous && next[|previous|] in closed')
    ensures |next| >= |queue| && next[..|queue|] == queue
    ensures forall k :: |queue| <= k < |next| ==> next[k] in closed'
  {
    if next != previous {
      assert next[..|queue|] == next[..|previous|][..|queue|];
      forall k | |queue| <= k < |next| ensures next[k] in closed' {
        if k < |previous| {
          assert next[k] == next[..|previous|][k];
        }
      }
    }
  }

  /** Appending newly closed points to the queue keeps every queued point
      either the start or closed, and keeps what was waiting. */
  lemma QueueGrows(start: Point3, waiting: seq<Point3>, queue: seq<Point3>,
                   closed: set<Point3>, closed': set<Point3>)
    requires closed <= closed'
    requires forall k :: 0 <= k < |waiting| ==> waiting[k] == start || waiting[k] in closed
    requires |queue| >= |waiting| && queue[..|waiting|] == waiting
    requires forall k :: |waiting| <= k < |queue| ==> queue[k] in closed'
    ensures forall k :: 0 <= k < |queue| ==> queue[k] == start || queue[k] in closed'
    ensures forall c :: c in waiting ==> c in queue
  {
    forall k | 0 <= k < |queue| ensures queue[k] == start || queue[k] in closed' {
      if k < |waiting| {
        assert queue[k] == waiting[k];
      }
    }
    forall c | c in waiting ensures c in queue {
      var k :| 0 <= k < |waiting| && waiting[k] == c;
      assert queue[k] == c;
    }
  }

  /** Every member of `closed` is reached from `start`. */
  ghost predicate AllReachable(points: set<Point3>, start: Point3, closed: set<Point3>) {
    forall p :: p in closed ==> Reachable(points, start, p)
  }

  /** The body of the flood's loop: the neighbours of `point` in `points`
      not yet closed are closed and queued, in the order of the offsets. */
  method ExpandPoint(points: set<Point3>, start: Point3, point: Point3, closed: set<Point3>, queue: seq<Point3>)
    returns (closed': set<Point3>, queue': seq<Point3>)
    requires closed <= points && (point == start || Reachable(points, start, point))
    requires AllReachable(points, start, closed)
    ensures closed <= closed' <= points
    ensures AllReachable(points, start, closed')
    ensures |queue'| >= |queue| && queue'[..|queue|] == queue
    ensures forall k :: |queue| <= k < |queue'| ==> queue'[k] in closed'
    ensures forall c :: c in closed' - closed ==> c in queue'
    ensures Expanded(points, closed', point, |Directions|)
    ensures |queue'| - |queue| == |points - closed| - |points - closed'|
  {
    closed', queue' := closed, queue;
    for i := 0 to |Directions|
      invariant closed <= closed' <= points
      invariant AllReachable(points, start, closed')
      invariant |queue'| >= |queue| && queue'[..|queue|] == queue
      invariant forall k :: |queue| <= k < |queue'| ==> queue'[k] in closed'
      invariant forall c :: c in closed' - closed ==> c in queue'
      invariant Expanded(points, closed', point, i)
      invariant |queue'| - |queue| == |points - closed| - |points - closed'|
    {
      ExpandOne(points, closed', point, i);
      ghost var previous := queue';
      ghost var closedBefore := closed';
      closed', queue' := Visit(points, start, point, i, closed', queue');
      QueueAppend(queue, previous, queue', closedBefore, closed');
    }
  }

  /** One offset of the flood: the neighbour is closed and queued when it is
      a cube not yet closed. */
  method Visit(points: set<Point3>, start: Point3, point: Point3, i: nat, closed: set<Point3>, queue: seq<Point3>)
    returns (closed': set<Point3>, queue': seq<Point3>)
    requires i < |Directions| && closed <= points && (point == start || Reachable(points, start, point))
    requires AllReachable(points, start, closed)
    ensures closed' == closed || (closed' == closed + {Add(point, Directions[i])} && queue' == queue + [Add(point, Directions[i])])
    ensures closed' == closed ==> queue' == queue
    ensures closed' <= points && AllReachable(points, start, closed')
    ensures Add(point, Directions[i]) in points ==> Add(point, Directions[i]) in closed'
    ensures |queue'| - |queue| == |points - closed| - |points - closed'|
  {
    closed', queue' := closed, queue;
    var neighbor := Add(point, Directions[i]);
    if neighbor in closed {
      return;
    }
    if neighbor in points {
      DirectionIsFace(point, i);
      ReachStep(points, start, point, neighbor);
      assert points - (closed + {neighbor}) == (points - closed) - {neighbor};
      RemoveOne(points - closed, neighbor);
      queue' := queue + [neighbor];
      closed' := closed + {neighbor};
      return;
    }
  }

  /** `find_connected_points`: a breadth-first flood from `start` through
      `points`. It returns exactly the cubes reachable from `start`; `start`
      itself only when a walk leads back to it. */
  method FindConnectedPoints(points: set<Point3>, start: Point3) returns (closed: set<Point3>)
    ensures closed <= points
    ensures forall p :: p in closed <==> Reachable(points, start, p)
  {
    closed := {};
    var queue := [start];
    ghost var done: set<Point3> := {};
    while queue != []
      invariant closed <= points
      invariant forall p :: p in closed ==> Reachable(points, start, p)
      invariant forall k :: 0 <= k < |queue| ==> queue[k] == start || queue[k] in closed
      invariant start in done || start in queue
      invariant forall c :: c in closed ==> c in done || c in queue
      invariant forall c :: c in done ==> Expanded(points, closed, c, |Directions|)
      decreases 2 * |points - closed| + |queue|
    {
      var point := queue[0];
      ghost var before, waiting := closed, queue[1..];
      var closed', queue' := ExpandPoint(points, start, point, closed, queue[1..]);
      forall c | c in done ensures Expanded(points, closed', c, |Directions|) {
        ExpandedGrows(points, closed, closed', c);
      }
      assert forall c :: c in queue ==> c == point || c in waiting;
      QueueGrows(start, waiting, queue', closed, closed');
      closed, queue := closed', queue';
      done := done + {point};
    }
    forall p | Reachable(points, start, p) ensures p in closed {
      var walk :| IsWalk(points, start, walk) && |walk| >= 2 && walk[|walk| - 1] == p;
      WalkStaysInside(points, start, done, closed, walk, |walk| - 1);
    }
  }
  // The bounding box.

  predicate InBox(minpoint: Point3, maxpoint: Point3, p: Point3) {
    minpoint.x <= p.x < maxpoint.x && minpoint.y <= p.y < maxpoint.y && minpoint.z <= p.z < maxpoint.z
  }

  /** In the box and before `(x, y, z)` in the order the loops visit. */
  predicate Visited(minpoint: Point3, maxpoint: Point3, x: int, y: int, z: int, p: Point3) {
    InBox(minpoint, maxpoint, p) && (p.x < x || (p.x == x && (p.y < y || (p.y == y && p.z < z))))
  }

  /** `create_cube`: every cell of the half-open box from `minpoint` to
      `maxpoint`; none when the box is empty. */
  method CreateCube(minpoint: Point3, maxpoint: Point3) returns (closed: set<Point3>)
    ensures forall p :: p in closed <==> InBox(minpoint, maxpoint, p)
  {
    closed := {};
    var x := minpoint.x;
    while x < maxpoint.x
      invariant minpoint.x <= x && (x <= maxpoint.x || x == minpoint.x)
      invariant forall p :: p in closed <==> Visited(minpoint, maxpoint, x, minpoint.y, minpoint.z, p)
    {
      var y := minpoint.y;
      while y < maxpoint.y
        invariant minpoint.y <= y && (y <= maxpoint.y || y == minpoint.y)
        invariant forall p :: p in closed <==> Visited(minpoint, maxpoint, x, y, minpoint.z, p)
      {
        var z := minpoint.z;
        while z < maxpoint.z
          invariant minpoint.z <= z && (z <= maxpoint.z || z == minpoint.z)
          invariant forall p :: p in closed <==> Visited(minpoint, maxpoint, x, y, z, p)
        {
          closed := closed + {Point3(x, y, z)};
          z := z + 1;
        }
        y := y + 1;
      }
      x := x + 1;
    }
  }

  ghost function Box(minpoint: Point3, maxpoint: Point3): (r: set<Point3>)
    ensures forall p :: p in r <==> InBox(minpoint, maxpoint, p)
  {
    var r := set x, y, z | minpoint.x <= x < maxpoint.x && minpoint.y <= y < maxpoint.y && minpoint.z <= z < maxpoint.z :: Point3(x, y, z);
    assert forall p :: InBox(minpoint, maxpoint, p) ==> p in r by {
      forall p | InBox(minpoint, maxpoint, p) ensures p in r {
        assert p == Point3(p.x, p.y, p.z);
      }
    }
    r
  }

  // The two parts.

  const One: Point3 := Point3(1, 1, 1)
  const Two: Point3 := Point3(2, 2, 2)

  /** The air pocket: the empty cells of the padded box that cannot be
      reached from its corner without passing through a cube. */
  ghost function Cavity(points: set<Point3>, minpoint: Point3, maxpoint: Point3): set<Point3> {
    var air := Box(Sub(minpoint, One), Add(maxpoint, Two)) - points;
    set c | c in air && !Reachable(air, Sub(minpoint, One), c)
  }

  method PartOne(points: set<Point3>) returns (r: nat)
    ensures r == OpenSides(points, points)
  {
    r := CountOpenSides(points);
  }

  /** `part_two`: the open sides of the droplet less the open sides of its
      cavity; the unsigned subtraction fails when the cavity shows more. */
  method PartTwo(points: set<Point3>, minpoint: Point3, maxpoint: Point3) returns (r: Option<int>)
    ensures var (all, inner) := (OpenSides(points, points), OpenSides(Cavity(points, minpoint, maxpoint), Cavity(points, minpoint, maxpoint)));
      r == if inner <= all then Some(all - inner) else None
  {
    var cube := CreateCube(Sub(minpoint, One), Add(maxpoint, Two));
    var difference := cube - points;
    assert cube == Box(Sub(minpoint, One), Add(maxpoint, Two));
    var outside := FindConnectedPoints(difference, Sub(minpoint, One));
    var inside := difference - outside;
    assert inside == Cavity(points, minpoint, maxpoint);
    var all := CountOpenSides(points);
    var inner := CountOpenSides(inside);
    r := if inner <= all then Some(all - inner) else None;
  }
}
