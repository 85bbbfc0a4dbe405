/** A rope of knots on a grid: the head moves one step at a time and every
    other knot follows the knot before it. */
module Day09 {
  import Helpers
  import opened Wrappers
  import opened Text

  type Point = Helpers.Point

  /** `add` on coordinate pairs. */
  function Add(a: Point, b: Point): (r: Point)
    ensures r == Helpers.Add(a, b)
  {
    Helpers.Point(a.x + b.x, a.y + b.y)
  }

  /** `substract` on coordinate pairs. */
  function Substract(a: Point, b: Point): (r: Point)
    ensures r == Helpers.Sub(a, b)
  {
    Helpers.Point(a.x - b.x, a.y - b.y)
  }

  predicate IsDirectionChar(c: char) {
    c == 'U' || c == 'R' || c == 'D' || c == 'L'
  }

  /** `get_direction_from_char`; any other character is unreachable. */
  function Direction(c: char): (d: Point)
    requires IsDirectionChar(c)
    ensures Abs(d.x) + Abs(d.y) == 1
  {
    match c
    case 'U' => Helpers.Point(0, 1)
    case 'R' => Helpers.Point(1, 0)
    case 'D' => Helpers.Point(0, -1)
    case 'L' => Helpers.Point(-1, 0)
  }

  /** The four directions are different. */
  lemma DirectionsDistinct(c: char, e: char)
    requires IsDirectionChar(c) && IsDirectionChar(e)
    ensures Direction(c) == Direction(e) <==> c == e
  {
  }

  function Abs(v: int): nat {
    if v < 0 then -v else v
  }

  function Signum(v: int): int {
    if v < 0 then -1 else if v > 0 then 1 else 0
  }

  function MaxNat(a: nat, b: nat): nat {
    if a < b then b else a
  }

  /** The distance in king moves. */
  function Chebyshev(a: Point, b: Point): nat {
    MaxNat(Abs(a.x - b.x), Abs(a.y - b.y))
  }

  /** `move_towards`: a tail more than one away on either axis steps one
      unit on each axis towards the head; otherwise it stays. */
  function MoveTowards(h: Point, t: Point): Point {
    var d := Substract(h, t);
    if Abs(d.x) > 1 || Abs(d.y) > 1 then Helpers.Point(t.x + Signum(d.x), t.y + Signum(d.y)) else t
  }

  /** A tail touching the head stays. */
  lemma TouchingTailStays(h: Point, t: Point)
    ensures Chebyshev(h, t) <= 1 <==> MoveTowards(h, t) == t
  {
  }

  /** A tail that moves takes at most one step per axis, each towards the
      head, and gets strictly closer to it. */
  lemma TailStepsTowardsHead(h: Point, t: Point)
    ensures Chebyshev(t, MoveTowards(h, t)) <= 1
    ensures Chebyshev(h, t) > 1 ==>
      Abs(h.x - MoveTowards(h, t).x) <= Abs(h.x - t.x) &&
      Abs(h.y - MoveTowards(h, t).y) <= Abs(h.y - t.y) &&
      Chebyshev(h, MoveTowards(h, t)) < Chebyshev(h, t)
  {
  }

  /** A tail at most two away on each axis ends touching the head. */
  lemma TailEndsAdjacent(h: Point, t: Point)
    requires Chebyshev(h, t) <= 2
    ensures Chebyshev(h, MoveTowards(h, t)) <= 1
  {
  }

  /** Every knot touches the one before it. */
  predicate Taut(rope: seq<Point>) {
    forall k :: 1 <= k < |rope| ==> Chebyshev(rope[k - 1], rope[k]) <= 1
  }

  /** The rope after the head moved by d and the knots 1..k followed, one
      after the other. */
  function Pulled(rope: seq<Point>, d: Point, k: nat): (r: seq<Point>)
    requires 1 <= |rope| && k < |rope|
    ensures |r| == |rope|
    ensures r[0] == Add(rope[0], d)
    ensures forall j :: k < j < |rope| ==> r[j] == rope[j]
    ensures forall j :: 1 <= j <= k ==> r[j] == MoveTowards(r[j - 1], rope[j])
  {
    if k == 0 then rope[0 := Add(rope[0], d)]
    else
      var before := Pulled(rope, d, k - 1);
      before[k := MoveTowards(before[k - 1], rope[k])]
  }

  /** A unit step of the head keeps the rope taut, and moves every knot by at
      most one step per axis. */
  lemma {:induction false} PulledStaysTaut(rope: seq<Point>, d: Point, k: nat)
    requires 1 <= |rope| && k < |rope| && Taut(rope) && Chebyshev(d, Helpers.Point(0, 0)) <= 1
    ensures forall j :: 1 <= j <= k ==> Chebyshev(Pulled(rope, d, k)[j - 1], Pulled(rope, d, k)[j]) <= 1
    ensures forall j :: 0 <= j <= k ==> Chebyshev(rope[j], Pulled(rope, d, k)[j]) <= 1
  {
    if k > 0 {
      PulledStaysTaut(rope, d, k - 1);
      var before := Pulled(rope, d, k - 1);
      var r := Pulled(rope, d, k);
      assert r == before[k := MoveTowards(before[k - 1], rope[k])];
      // The knot before moved at most one step from its old place, which
      // touched this knot: the two are at most two apart.
      assert Chebyshev(before[k - 1], rope[k]) <= 2;
      TailEndsAdjacent(before[k - 1], rope[k]);
      TailStepsTowardsHead(before[k - 1], rope[k]);
    }
  }

  lemma StepRopeStaysTaut(rope: seq<Point>, d: Point)
    requires 1 <= |rope| && Taut(rope) && Chebyshev(d, Helpers.Point(0, 0)) <= 1
    ensures Taut(Pulled(rope, d, |rope| - 1))
  {
    PulledStaysTaut(rope, d, |rope| - 1);
  }

  /** A line of input: a direction and a step count. */
  datatype Movement = Movement(c: char, amount: nat)

  /** Every movement that takes a step has a direction the source knows; a
      movement of no steps never looks at its direction. */
  predicate ValidMovements(movements: seq<Movement>) {
    forall k :: 0 <= k < |movements| ==> movements[k].amount > 0 ==> IsDirectionChar(movements[k].c)
  }

  /** A movement of no steps is accepted whatever its direction, and adds
      no step. */
  lemma ZeroStepsSkipped(movements: seq<Movement>, c: char)
    requires ValidMovements(movements)
    ensures ValidMovements(movements + [Movement(c, 0)])
    ensures Steps(movements + [Movement(c, 0)]) == Steps(movements)
  {
    var more := movements + [Movement(c, 0)];
    assert more[..|more| - 1] == movements;
    assert Repeat(c, 0) == [];
  }

  /** `n` copies of the step `c`. */
  function Repeat(c: char, n: nat): (r: seq<char>)
    ensures |r| == n && forall k :: 0 <= k < n ==> r[k] == c
  {
    if n == 0 then [] else Repeat(c, n - 1) + [c]
  }

  /** The unit steps of the movements, in order. */
  function Steps(movements: seq<Movement>): (r: seq<char>)
    requires ValidMovements(movements)
    ensures forall k :: 0 <= k < |r| ==> IsDirectionChar(r[k])
  {
    if movements == [] then []
    else
      var last := movements[|movements| - 1];
      Steps(movements[..|movements| - 1]) + Repeat(last.c, last.amount)
  }

  /** The rope after the unit steps, and the set of places its last knot
      has been after a step. */
  function Run(rope: seq<Point>, steps: seq<char>): (r: (seq<Point>, set<Point>))
    requires |rope| >= 1
    requires forall k :: 0 <= k < |steps| ==> IsDirectionChar(steps[k])
    ensures |r.0| == |rope|
  {
    if steps == [] then (rope, {})
    else
      var before := Run(rope, steps[..|steps| - 1]);
      var after := Pulled(before.0, Direction(steps[|steps| - 1]), |rope| - 1);
      (after, before.1 + {after[|rope| - 1]})
  }

  /** The rope stays taut through any sequence of steps. */
  lemma {:induction false} RunStaysTaut(rope: seq<Point>, steps: seq<char>)
    requires |rope| >= 1 && Taut(rope)
    requires forall k :: 0 <= k < |steps| ==> IsDirectionChar(steps[k])
    ensures Taut(Run(rope, steps).0)
  {
    if steps != [] {
      RunStaysTaut(rope, steps[..|steps| - 1]);
      StepRopeStaysTaut(Run(rope, steps[..|steps| - 1]).0, Direction(steps[|steps| - 1]));
    }
  }

  /** After any step the last knot is somewhere it has been recorded. */
  lemma RunRecordsTail(rope: seq<Point>, steps: seq<char>)
    requires |rope| >= 1 && steps != []
    requires forall k :: 0 <= k < |steps| ==> IsDirectionChar(steps[k])
    ensures Run(rope, steps).0[|rope| - 1] in Run(rope, steps).1
  {
  }

  /** Recorded places only accumulate. */
  lemma {:induction false} RunGrows(rope: seq<Point>, steps: seq<char>, more: seq<char>)
    requires |rope| >= 1
    requires forall k :: 0 <= k < |steps| ==> IsDirectionChar(steps[k])
    requires forall k :: 0 <= k < |more| ==> IsDirectionChar(more[k])
    ensures Run(rope, steps).1 <= Run(rope, steps + more).1
    decreases |more|
  {
    if more != [] {
      assert (steps + more)[..|steps + more| - 1] == steps + more[..|more| - 1];
      RunGrows(rope, steps, more[..|more| - 1]);
    } else {
      assert steps + more == steps;
    }
  }

  /** One more step extends the run. */
  lemma RunSnoc(rope: seq<Point>, steps: seq<char>, c: char)
    requires |rope| >= 1 && IsDirectionChar(c)
    requires forall k :: 0 <= k < |steps| ==> IsDirectionChar(steps[k])
    ensures Run(rope, steps + [c]) ==
      var after := Pulled(Run(rope, steps).0, Direction(c), |rope| - 1);
      (after, Run(rope, steps).1 + {after[|rope| - 1]})
  {
    assert (steps + [c])[..|steps|] == steps;
  }

  /** One more movement appends its unit steps. */
  lemma StepsSnoc(movements: seq<Movement>, m: nat)
    requires ValidMovements(movements) && m < |movements|
    ensures Steps(movements[..m + 1]) == Steps(movements[..m]) + Repeat(movements[m].c, movements[m].amount)
  {
    assert movements[..m + 1][..m] == movements[..m];
  }

  /** One more step of a repeated movement extends the run by one pull. */
  lemma RunRepeat(rope: seq<Point>, done: seq<char>, c: char, i: nat)
    requires |rope| >= 1 && IsDirectionChar(c)
    requires forall k :: 0 <= k < |done| ==> IsDirectionChar(done[k])
    ensures Run(rope, done + Repeat(c, i + 1)) ==
      var after := Pulled(Run(rope, done + Repeat(c, i)).0, Direction(c), |rope| - 1);
      (after, Run(rope, done + Repeat(c, i)).1 + {after[|rope| - 1]})
  {
    RunSnoc(rope, done + Repeat(c, i), c);
    assert done + Repeat(c, i) + [c] == done + Repeat(c, i + 1);
  }

  /** The body of the step loop: the head moves, then knots 1.. follow. */
  method StepRope(rope: seq<Point>, c: char) returns (knots: seq<Point>)
    requires |rope| >= 1 && IsDirectionChar(c)
    ensures knots == Pulled(rope, Direction(c), |rope| - 1)
  {
    knots := rope[0 := Add(rope[0], Direction(c))];
    for k := 1 to |knots|
      invariant knots == Pulled(rope, Direction(c), k - 1)
    {
      knots := knots[k := MoveTowards(knots[k - 1], knots[k])];
    }
  }

  /** The inner loop of `tail_visits`: `amount` unit steps in direction `c`,
      each recording where the last knot lands. */
  method MoveRope(knots0: seq<Point>, tracker0: set<Point>, c: char, amount: nat, ghost start: seq<Point>, ghost done: seq<char>)
      returns (knots: seq<Point>, tracker: set<Point>)
    requires |start| >= 1 && (amount > 0 ==> IsDirectionChar(c))
    requires forall k :: 0 <= k < |done| ==> IsDirectionChar(done[k])
    requires (knots0, tracker0) == Run(start, done)
    ensures (knots, tracker) == Run(start, done + Repeat(c, amount))
  {
    knots, tracker := knots0, tracker0;
    assert done + Repeat(c, 0) == done;
    for i := 0 to amount
      invariant (knots, tracker) == Run(start, done + Repeat(c, i))
    {
      RunRepeat(start, done, c, i);
      knots := StepRope(knots, c);
      tracker := tracker + {knots[|knots| - 1]};
    }
  }

  /** The knot-chain loop of `part_two` (`part_one` is the same loop with two
      knots): every unit step moves the head, pulls each following knot in
      order and records where the last knot is. */
  method TailVisits(movements: seq<Movement>, count: nat) returns (tracker: set<Point>, knots: seq<Point>)
    requires count >= 1 && ValidMovements(movements)
    ensures (knots, tracker) == Run(seq(count, _ => Helpers.Point(0, 0)), Steps(movements))
    ensures Taut(knots)
  {
    knots := seq(count, _ => Helpers.Point(0, 0));
    ghost var start := knots;
    tracker := {};
    for m := 0 to |movements|
      invariant (knots, tracker) == Run(start, Steps(movements[..m]))
    {
      knots, tracker := MoveRope(knots, tracker, movements[m].c, movements[m].amount, start, Steps(movements[..m]));
      StepsSnoc(movements, m);
    }
    assert movements[..|movements|] == movements;
    assert Taut(start);
    RunStaysTaut(start, Steps(movements));
  }

  /** One input line: `split_once(' ')`, the last character of the first
      part, and the count. A line that does not split or parse panics. */
  function ParseMovement(line: string): (r: Option<Movement>)
    ensures r.Some? ==> exists a, b :: line == a + [' '] + b && |a| > 0 && r.value.c == a[|a| - 1] && ParseNat(b) == Some(r.value.amount)
  {
    match SplitOnce(line, ' ')
    case None => None
    case Some((a, b)) =>
      if a == [] then None
      else match ParseNat(b)
        case None => None
        case Some(n) => if n < 0x1_0000_0000 then Some(Movement(a[|a| - 1], n)) else None
  }

  function ShowMovement(m: Movement): string {
    [m.c] + " " + NatToString(m.amount)
  }

  /** A printed movement reads back. */
  lemma ParseShowMovement(m: Movement)
    requires m.c != ' ' && m.amount < 0x1_0000_0000
    ensures ParseMovement(ShowMovement(m)) == Some(m)
  {
    assert ShowMovement(m) == [m.c] + [' '] + NatToString(m.amount);
    SplitOnceAt([m.c], ' ', NatToString(m.amount));
    ParseNatOfNatToString(m.amount);
  }
}
