/** Beacon exclusion zone: every sensor rules out the cells closer to it than
    its closest beacon. For one row, these cells form one interval per sensor;
    the intervals are sorted and merged. */
module Day15 {
  import opened Wrappers

  datatype Coord = Coord(x: int, y: int)

  function Abs(v: int): nat {
    if v < 0 then -v else v
  }

  function Max(a: int, b: int): int {
    if a < b then b else a
  }

  function Min(a: int, b: int): int {
    if a < b then a else b
  }

  /** `Coord2D::distance`: the sum of the absolute differences per axis. */
  function Distance(a: Coord, b: Coord): (d: nat)
    ensures d == 0 <==> a == b
  {
    Abs(a.x - b.x) + Abs(a.y - b.y)
  }

  lemma DistanceSymmetric(a: Coord, b: Coord)
    ensures Distance(a, b) == Distance(b, a)
  {
  }

  lemma DistanceTriangle(a: Coord, b: Coord, c: Coord)
    ensures Distance(a, c) <= Distance(a, b) + Distance(b, c)
  {
  }

  /** A sensor with its closest beacon; `radius` is one more than their
      distance, so a cell is ruled out iff it is closer than `radius`. */
  datatype Sensor = Sensor(scanner: Coord, beacon: Coord, radius: nat)

  /** One line of `parse_input`, after its coordinates are read. */
  function MakeSensor(scanner: Coord, beacon: Coord): (s: Sensor)
    ensures s.scanner == scanner && s.beacon == beacon
    ensures s.radius == Distance(beacon, scanner) + 1
    ensures Distance(s.beacon, s.scanner) < s.radius
  {
    Sensor(scanner, beacon, Distance(beacon, scanner) + 1)
  }

  /** The half-open interval [start, end). */
  datatype Span = Span(start: int, end: int)

  predicate InSpan(r: Span, x: int) {
    r.start <= x < r.end
  }

  predicate InClamp(clamp: Option<(int, int)>, x: int) {
    clamp.None? || clamp.value.0 <= x < clamp.value.1
  }

  /** The interval of row `row` that one sensor rules out, cut to `clamp`.
      Only an interval with start == end is dropped: cutting an interval that
      lies wholly outside the clamp leaves one with start > end, which is kept. */
  function RowRange(s: Sensor, row: int, clamp: Option<(int, int)>): Option<Span> {
    var rowDistance := Abs(s.scanner.y - row);
    if s.radius <= rowDistance then None
    else
      var width := 2 * (s.radius - rowDistance) - 1;
      var start := s.scanner.x - (width - 1) / 2;
      var end := start + width;
      var start', end' :=
        if clamp.Some? then Max(start, clamp.value.0) else start,
        if clamp.Some? then Min(end, clamp.value.1) else end;
      if start' == end' then None else Some(Span(start', end'))
  }

  /** The interval holds exactly the cells of the row, inside the clamp, that
      are closer to the sensor than its radius. */
  lemma RowRangeCovers(s: Sensor, row: int, clamp: Option<(int, int)>, x: int)
    ensures (RowRange(s, row, clamp).Some? && InSpan(RowRange(s, row, clamp).value, x))
        <==> (InClamp(clamp, x) && Distance(Coord(x, row), s.scanner) < s.radius)
  {
  }

  /** Without a clamp, a sensor contributes iff its radius exceeds its distance
      to the row, and its interval is then centred on the sensor with width
      2 (radius - rowDistance) - 1. */
  lemma RowRangeUnclamped(s: Sensor, row: int)
    ensures RowRange(s, row, None).None? <==> s.radius <= Abs(s.scanner.y - row)
    ensures RowRange(s, row, None).Some? ==>
      var r := RowRange(s, row, None).value;
      var w := s.radius - Abs(s.scanner.y - row);
      r.end - r.start == 2 * w - 1 && r.start + w - 1 == s.scanner.x
  {
  }

  /** The intervals of all sensors, in the order the sensors are visited. */
  function Collect(sensors: seq<Sensor>, row: int, clamp: Option<(int, int)>): (rs: seq<Span>)
    ensures |rs| <= |sensors|
  {
    if sensors == [] then []
    else
      var rest := Collect(sensors[..|sensors| - 1], row, clamp);
      match RowRange(sensors[|sensors| - 1], row, clamp)
      case None => rest
      case Some(r) => rest + [r]
  }

  lemma CollectStep(sensors: seq<Sensor>, i: nat, row: int, clamp: Option<(int, int)>)
    requires i < |sensors|
    ensures Collect(sensors[..i + 1], row, clamp) ==
      match RowRange(sensors[i], row, clamp)
      case None => Collect(sensors[..i], row, clamp)
      case Some(r) => Collect(sensors[..i], row, clamp) + [r]
  {
    assert sensors[..i + 1][..i] == sensors[..i];
  }

  /** Some interval of rs holds x. */
  predicate Covered(rs: seq<Span>, x: int) {
    exists r :: r in rs && InSpan(r, x)
  }

  /** Between them the intervals hold exactly the ruled-out cells of the row. */
  lemma {:induction false} CollectCovers(sensors: seq<Sensor>, row: int, clamp: Option<(int, int)>, x: int)
    ensures Covered(Collect(sensors, row, clamp), x)
        <==> InClamp(clamp, x) && exists s :: s in sensors && Distance(Coord(x, row), s.scanner) < s.radius
  {
    if sensors != [] {
      var init, last := sensors[..|sensors| - 1], sensors[|sensors| - 1];
      assert sensors == init + [last];
      CollectCovers(init, row, clamp, x);
      RowRangeCovers(last, row, clamp, x);
      var rest := Collect(init, row, clamp);
      if RowRange(last, row, clamp).Some? {
        assert Collect(sensors, row, clamp) == rest + [RowRange(last, row, clamp).value];
      }
    }
  }

  /** With a clamp, every interval starts at or after its lower bound and ends
      at or before its upper bound. */
  predicate WithinClamp(rs: seq<Span>, lo: int, hi: int) {
    forall i :: 0 <= i < |rs| ==> lo <= rs[i].start && rs[i].end <= hi
  }

  lemma {:induction false} CollectWithinClamp(sensors: seq<Sensor>, row: int, lo: int, hi: int)
    ensures WithinClamp(Collect(sensors, row, Some((lo, hi))), lo, hi)
  {
    if sensors != [] {
      CollectWithinClamp(sensors[..|sensors| - 1], row, lo, hi);
    }
  }

  predicate SortedByStart(rs: seq<Span>) {
    forall i, j :: 0 <= i < j < |rs| ==> rs[i].start <= rs[j].start
  }

  function InsertByStart(r: Span, rs: seq<Span>): (t: seq<Span>)
    requires SortedByStart(rs)
    ensures SortedByStart(t) && multiset(t) == multiset(rs) + multiset{r}
  {
    if rs == [] || r.start <= rs[0].start then
      ConsSorted(r, rs);
      [r] + rs
    else
      var head, tail := rs[0], rs[1..];
      var inner := InsertByStart(r, tail);
      PermutedLowerBound(inner, tail, r, head.start);
      ConsSorted(head, inner);
      assert rs == [head] + tail;
      assert multiset([head] + inner) == multiset{head} + multiset(inner);
      [head] + inner
  }

  /** An interval starting no later than a sorted list's first one can go in
      front of it. */
  lemma ConsSorted(x: Span, rs: seq<Span>)
    requires SortedByStart(rs) && (rs != [] ==> x.start <= rs[0].start)
    ensures SortedByStart([x] + rs)
  {
    forall i, j | 0 <= i < j < |rs| + 1 ensures ([x] + rs)[i].start <= ([x] + rs)[j].start {
      if i == 0 {
        assert ([x] + rs)[j] == rs[j - 1];
        assert rs[0].start <= rs[j - 1].start;
      } else {
        assert ([x] + rs)[i] == rs[i - 1] && ([x] + rs)[j] == rs[j - 1];
      }
    }
  }

  /** A rearrangement of rest and r starts no lower than they do. */
  lemma PermutedLowerBound(inner: seq<Span>, rest: seq<Span>, r: Span, lo: int)
    requires multiset(inner) == multiset(rest) + multiset{r}
    requires lo <= r.start && forall i :: 0 <= i < |rest| ==> lo <= rest[i].start
    ensures forall i :: 0 <= i < |inner| ==> lo <= inner[i].start
  {
    forall i | 0 <= i < |inner| ensures lo <= inner[i].start {
      assert inner[i] in multiset(inner);
      if inner[i] != r {
        assert inner[i] in multiset(rest);
        var j :| 0 <= j < |rest| && rest[j] == inner[i];
      }
    }
  }

  /** `ranges.sort_by` on the start. */
  function SortByStart(rs: seq<Span>): (t: seq<Span>)
    ensures SortedByStart(t) && multiset(t) == multiset(rs)
  {
    if rs == [] then []
    else
      assert rs == [rs[0]] + rs[1..];
      InsertByStart(rs[0], SortByStart(rs[1..]))
  }

  lemma CoveredCons(r: Span, rs: seq<Span>, x: int)
    ensures Covered([r] + rs, x) <==> InSpan(r, x) || Covered(rs, x)
  {
    if InSpan(r, x) {
      assert r in [r] + rs;
    }
    if Covered(rs, x) {
      var q :| q in rs && InSpan(q, x);
      assert q in [r] + rs;
    }
  }

  lemma SameElementsSameCover(a: seq<Span>, b: seq<Span>, x: int)
    requires multiset(a) == multiset(b)
    ensures Covered(a, x) <==> Covered(b, x)
  {
    forall r ensures r in a <==> r in b {
      assert r in a <==> r in multiset(a);
      assert r in b <==> r in multiset(b);
    }
  }

  /** The merge loop, from the interval `current` on; `rest` is what is still
      to be popped. */
  function MergeFrom(current: Span, rest: seq<Span>): (m: seq<Span>)
    ensures |m| >= 1 && m[0].start == current.start
    decreases |rest|
  {
    if rest == [] then [current]
    else if current.end < rest[0].start then [current] + MergeFrom(rest[0], rest[1..])
    else MergeFrom(Span(current.start, Max(current.end, rest[0].end)), rest[1..])
  }

  function Merged(rs: seq<Span>): (m: seq<Span>)
    ensures |m| <= |rs|
  {
    if rs == [] then [] else MergeFromLength(rs[0], rs[1..]); MergeFrom(rs[0], rs[1..])
  }

  lemma {:induction false} MergeFromLength(current: Span, rest: seq<Span>)
    ensures |MergeFrom(current, rest)| <= |rest| + 1
    decreases |rest|
  {
    if rest != [] {
      if current.end < rest[0].start {
        MergeFromLength(rest[0], rest[1..]);
      } else {
        MergeFromLength(Span(current.start, Max(current.end, rest[0].end)), rest[1..]);
      }
    }
  }

  /** Each merged interval ends before the next one starts. */
  predicate Separated(rs: seq<Span>) {
    forall i :: 0 <= i < |rs| - 1 ==> rs[i].end < rs[i + 1].start
  }

  /** `current` starts no later than any interval still to be popped. */
  predicate StartsBefore(current: Span, rest: seq<Span>) {
    forall i :: 0 <= i < |rest| ==> current.start <= rest[i].start
  }

  lemma SortedTail(current: Span, rest: seq<Span>)
    requires StartsBefore(current, rest) && SortedByStart(rest) && rest != []
    ensures current.start <= rest[0].start
    ensures StartsBefore(rest[0], rest[1..]) && SortedByStart(rest[1..])
    ensures StartsBefore(Span(current.start, Max(current.end, rest[0].end)), rest[1..])
  {
    assert forall i :: 0 <= i < |rest| - 1 ==> rest[1..][i] == rest[i + 1];
  }

  /** Merging a sorted list leaves intervals separated from each other. */
  lemma {:induction false} MergeFromSeparated(current: Span, rest: seq<Span>)
    requires StartsBefore(current, rest) && SortedByStart(rest)
    ensures Separated(MergeFrom(current, rest))
    decreases |rest|
  {
    if rest != [] {
      var next := rest[0];
      SortedTail(current, rest);
      if current.end < next.start {
        MergeFromSeparated(next, rest[1..]);
        var m := MergeFrom(next, rest[1..]);
        assert MergeFrom(current, rest) == [current] + m;
        assert forall i :: 1 <= i < |m| + 1 ==> ([current] + m)[i] == m[i - 1];
      } else {
        MergeFromSeparated(Span(current.start, Max(current.end, next.end)), rest[1..]);
      }
    }
  }

  /** Merging a sorted list keeps exactly the cells it covers. */
  lemma {:induction false} MergeFromCovers(current: Span, rest: seq<Span>, x: int)
    requires StartsBefore(current, rest) && SortedByStart(rest)
    ensures Covered(MergeFrom(current, rest), x) <==> InSpan(current, x) || Covered(rest, x)
    decreases |rest|
  {
    if rest != [] {
      var next := rest[0];
      SortedTail(current, rest);
      assert rest == [next] + rest[1..];
      CoveredCons(next, rest[1..], x);
      if current.end < next.start {
        MergeFromCovers(next, rest[1..], x);
        CoveredCons(current, MergeFrom(next, rest[1..]), x);
      } else {
        MergeFromCovers(Span(current.start, Max(current.end, next.end)), rest[1..], x);
      }
    }
  }

  /** Every interval holds a cell and lies inside [lo, hi). */
  predicate Proper(rs: seq<Span>, lo: int, hi: int) {
    forall i :: 0 <= i < |rs| ==> lo <= rs[i].start < rs[i].end <= hi
  }

  /** Merging proper intervals gives proper intervals. */
  lemma {:induction false} MergeFromKeepsProper(current: Span, rest: seq<Span>, lo: int, hi: int)
    requires lo <= current.start < current.end <= hi && Proper(rest, lo, hi)
    ensures Proper(MergeFrom(current, rest), lo, hi)
    decreases |rest|
  {
    if rest != [] {
      var next, tail := rest[0], rest[1..];
      assert Proper(tail, lo, hi) by {
        assert forall i :: 0 <= i < |tail| ==> tail[i] == rest[i + 1];
      }
      if current.end < next.start {
        MergeFromKeepsProper(next, tail, lo, hi);
        var m := MergeFrom(next, tail);
        assert MergeFrom(current, rest) == [current] + m;
        assert forall i :: 1 <= i < |m| + 1 ==> ([current] + m)[i] == m[i - 1];
      } else {
        MergeFromKeepsProper(Span(current.start, Max(current.end, next.end)), tail, lo, hi);
      }
    }
  }

  lemma MergedProperties(rs: seq<Span>)
    requires SortedByStart(rs)
    ensures Separated(Merged(rs))
    ensures forall x :: Covered(Merged(rs), x) <==> Covered(rs, x)
  {
    if rs != [] {
      assert rs == [rs[0]] + rs[1..];
      assert forall i :: 0 <= i < |rs| - 1 ==> rs[1..][i] == rs[i + 1];
      MergeFromSeparated(rs[0], rs[1..]);
      forall x ensures Covered(Merged(rs), x) <==> Covered(rs, x) {
        MergeFromCovers(rs[0], rs[1..], x);
        CoveredCons(rs[0], rs[1..], x);
      }
    }
  }

  /** Separated intervals with start < end are strictly ordered. */
  lemma {:induction false} SeparatedOrdered(m: seq<Span>, i: nat, j: nat)
    requires Separated(m) && forall k :: 0 <= k < |m| ==> m[k].start < m[k].end
    requires i < j < |m|
    ensures m[i].end < m[j].start
    decreases j - i
  {
    if i + 1 < j {
      SeparatedOrdered(m, i + 1, j);
    }
  }

  /** `calculate_ranges_of_row_where_no_beacon_is_possible`: the sensors are
      visited in the order given (the iteration order of the source's map). */
  method CalculateRanges(sensors: seq<Sensor>, row: int, clamp: Option<(int, int)>) returns (merged: seq<Span>)
    ensures merged == Merged(SortByStart(Collect(sensors, row, clamp)))
    ensures Separated(merged)
    ensures forall x :: Covered(merged, x) <==>
      InClamp(clamp, x) && exists s :: s in sensors && Distance(Coord(x, row), s.scanner) < s.radius
  {
    var ranges := CollectRanges(sensors, row, clamp);
    var sorted := SortByStart(ranges);
    merged := MergeRanges(sorted);
    MergedCovers(sensors, row, clamp);
  }

  /** The first loop of `calculate_ranges_of_row_where_no_beacon_is_possible`:
      the clamped interval of every sensor that reaches the row, empty ones
      skipped. */
  method CollectRanges(sensors: seq<Sensor>, row: int, clamp: Option<(int, int)>) returns (ranges: seq<Span>)
    ensures ranges == Collect(sensors, row, clamp)
  {
    ranges := [];
    for i := 0 to |sensors|
      invariant ranges == Collect(sensors[..i], row, clamp)
    {
      CollectStep(sensors, i, row, clamp);
      var s := sensors[i];
      var rowDistance := Abs(s.scanner.y - row);
      if s.radius <= rowDistance {
        continue;
      }
      var width := 2 * (s.radius - rowDistance) - 1;
      var start := s.scanner.x - (width - 1) / 2;
      var end := start + width;
      if clamp.Some? {
        start := Max(start, clamp.value.0);
        end := Min(end, clamp.value.1);
      }
      if start == end {
        continue;
      }
      assert RowRange(s, row, clamp) == Some(Span(start, end));
      ranges := ranges + [Span(start, end)];
    }
    assert sensors[..|sensors|] == sensors;
  }

  /** The second loop: popping the sorted intervals in order, merging each
      into the current one unless a gap separates them. */
  method MergeRanges(sorted: seq<Span>) returns (merged: seq<Span>)
    ensures merged == Merged(sorted)
  {
    merged := [];
    if |sorted| > 0 {
      var current := sorted[0];
      var k := 1;
      while k < |sorted|
        invariant 1 <= k <= |sorted|
        invariant merged + MergeFrom(current, sorted[k..]) == Merged(sorted)
      {
        var range := sorted[k];
        assert sorted[k..] == [range] + sorted[k + 1..];
        if current.end < range.start {
          merged := merged + [current];
          current := range;
        } else {
          current := Span(current.start, Max(current.end, range.end));
        }
        k := k + 1;
      }
      merged := merged + [current];
    }
  }

  lemma MergedCovers(sensors: seq<Sensor>, row: int, clamp: Option<(int, int)>)
    ensures Separated(Merged(SortByStart(Collect(sensors, row, clamp))))
    ensures forall x :: Covered(Merged(SortByStart(Collect(sensors, row, clamp))), x) <==>
      InClamp(clamp, x) && exists s :: s in sensors && Distance(Coord(x, row), s.scanner) < s.radius
  {
    var ranges := Collect(sensors, row, clamp);
    MergedProperties(SortByStart(ranges));
    forall x ensures Covered(Merged(SortByStart(ranges)), x) <==>
      InClamp(clamp, x) && exists s :: s in sensors && Distance(Coord(x, row), s.scanner) < s.radius
    {
      SameElementsSameCover(SortByStart(ranges), ranges, x);
      CollectCovers(sensors, row, clamp, x);
    }
  }

  /** The intervals with start < end: the ones that hold a cell. */
  function DropEmpty(rs: seq<Span>): (t: seq<Span>)
    ensures forall i :: 0 <= i < |t| ==> t[i].start < t[i].end && t[i] in rs
  {
    if rs == [] then []
    else
      var rest := DropEmpty(rs[1..]);
      if rs[0].start < rs[0].end then [rs[0]] + rest else rest
  }

  /** Dropping the intervals that hold no cell keeps the covered cells. */
  lemma {:induction false} DropEmptyCovers(rs: seq<Span>, x: int)
    ensures Covered(DropEmpty(rs), x) <==> Covered(rs, x)
  {
    if rs != [] {
      DropEmptyCovers(rs[1..], x);
      assert rs == [rs[0]] + rs[1..];
      CoveredCons(rs[0], rs[1..], x);
      CoveredCons(rs[0], DropEmpty(rs[1..]), x);
    }
  }

  lemma CollectProper(sensors: seq<Sensor>, row: int, lo: int, hi: int)
    ensures Proper(DropEmpty(Collect(sensors, row, Some((lo, hi)))), lo, hi)
  {
    var rs := Collect(sensors, row, Some((lo, hi)));
    CollectWithinClamp(sensors, row, lo, hi);
    var t := DropEmpty(rs);
    forall i | 0 <= i < |t| ensures lo <= t[i].start < t[i].end <= hi {
      var j :| 0 <= j < |rs| && rs[j] == t[i];
    }
  }

  lemma SortProper(rs: seq<Span>, lo: int, hi: int)
    requires Proper(rs, lo, hi)
    ensures Proper(SortByStart(rs), lo, hi)
  {
    var t := SortByStart(rs);
    forall i | 0 <= i < |t| ensures lo <= t[i].start < t[i].end <= hi {
      assert t[i] in multiset(rs);
      var j :| 0 <= j < |rs| && rs[j] == t[i];
    }
  }

  lemma MergedProper(rs: seq<Span>, lo: int, hi: int)
    requires Proper(rs, lo, hi)
    ensures Proper(Merged(rs), lo, hi)
  {
    if rs != [] {
      assert forall i :: 0 <= i < |rs| - 1 ==> rs[1..][i] == rs[i + 1];
      MergeFromKeepsProper(rs[0], rs[1..], lo, hi);
    }
  }

  /** In separated proper intervals, the end of the first one lies inside
      [lo, hi) when a second one follows, and no interval holds it. */
  lemma GapInSeparated(m: seq<Span>, lo: int, hi: int)
    requires Proper(m, lo, hi) && Separated(m) && |m| > 1
    ensures lo <= m[0].end < hi && !Covered(m, m[0].end)
  {
    var g := m[0].end;
    assert g < m[1].start;
    forall j | 1 <= j < |m| ensures g < m[j].start {
      SeparatedOrdered(m, 0, j);
    }
    forall r | r in m ensures !InSpan(r, g) {
    }
  }

  /** Two merged intervals are read as a gap: the end of the first one is a
      cell of the search square that no sensor rules out. This holds once the
      intervals with start >= end are dropped before the merge. */
  lemma GapIsPossibleBeacon(sensors: seq<Sensor>, row: int, size: int)
    ensures var m := Merged(SortByStart(DropEmpty(Collect(sensors, row, Some((0, size))))));
      |m| > 1 ==>
        0 <= m[0].end < size &&
        forall s :: s in sensors ==> Distance(Coord(m[0].end, row), s.scanner) >= s.radius
  {
    var rs := Collect(sensors, row, Some((0, size)));
    var kept := DropEmpty(rs);
    var sorted := SortByStart(kept);
    var m := Merged(sorted);
    if |m| > 1 {
      CollectProper(sensors, row, 0, size);
      SortProper(kept, 0, size);
      MergedProper(sorted, 0, size);
      MergedProperties(sorted);
      GapInSeparated(m, 0, size);
      var g := m[0].end;
      SameElementsSameCover(sorted, kept, g);
      DropEmptyCovers(rs, g);
      CollectCovers(sensors, row, Some((0, size)), g);
    }
  }

  /** As written, a sensor wholly to the right of the clamp yields the
      interval (28, 20), which is kept and merged as a second interval: the
      row reads as holding a gap at x = 20, outside the search square, though
      every cell of [0, 20) is ruled out. */
  lemma InvertedRangeMakesFalseGap()
    ensures var inside := MakeSensor(Coord(10, 0), Coord(10, 20));
      var outside := MakeSensor(Coord(30, 0), Coord(30, 2));
      var m := Merged(SortByStart(Collect([inside, outside], 0, Some((0, 20)))));
      |m| == 2 && m[0].end == 20 &&
      forall x :: 0 <= x < 20 ==> Distance(Coord(x, 0), inside.scanner) < inside.radius
  {
    var inside := MakeSensor(Coord(10, 0), Coord(10, 20));
    var outside := MakeSensor(Coord(30, 0), Coord(30, 2));
    ExampleRanges(inside, outside);
    var rs := [Span(0, 20), Span(28, 20)];
    ExampleMerge(rs);
  }

  lemma ExampleRanges(inside: Sensor, outside: Sensor)
    requires inside == MakeSensor(Coord(10, 0), Coord(10, 20))
    requires outside == MakeSensor(Coord(30, 0), Coord(30, 2))
    ensures Collect([inside, outside], 0, Some((0, 20))) == [Span(0, 20), Span(28, 20)]
  {
    assert inside.radius == 21 && outside.radius == 3;
    assert RowRange(inside, 0, Some((0, 20))) == Some(Span(0, 20));
    assert RowRange(outside, 0, Some((0, 20))) == Some(Span(28, 20));
    assert [inside, outside][..1] == [inside];
    assert [inside][..0] == [];
    assert Collect([inside], 0, Some((0, 20))) == [Span(0, 20)];
  }

  lemma ExampleMerge(rs: seq<Span>)
    requires rs == [Span(0, 20), Span(28, 20)]
    ensures Merged(SortByStart(rs)) == rs
  {
    assert rs[1..] == [Span(28, 20)];
    assert SortByStart([Span(28, 20)]) == [Span(28, 20)];
    assert SortByStart(rs) == rs;
    assert MergeFrom(Span(28, 20), []) == [Span(28, 20)];
  }
}
