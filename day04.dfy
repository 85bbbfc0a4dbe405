/** Pairs of section ranges: does one range contain the other, do they
    overlap at all. */
module Day04 {
  import opened Wrappers
  import opened Text

  /** A range of sections, first and last inclusive. */
  type Range = (nat, nat)

  predicate WellFormed(r: Range) {
    r.0 <= r.1
  }

  predicate InRange(r: Range, x: int) {
    r.0 <= x <= r.1
  }

  /** `are_ranges_containing_each_other`, compared end point by end point. */
  predicate Containing(r1: Range, r2: Range) {
    (r1.0 <= r2.0 && r1.1 >= r2.1) || (r2.0 <= r1.0 && r2.1 >= r1.1)
  }

  /** `are_ranges_overlapping`: neither range ends before the other starts. */
  predicate Overlapping(r1: Range, r2: Range) {
    !((r1.0 < r2.0 && r1.1 < r2.0) || (r2.0 < r1.0 && r2.1 < r1.0))
  }

  lemma ContainingSymmetric(r1: Range, r2: Range)
    ensures Containing(r1, r2) <==> Containing(r2, r1)
  {
  }

  lemma OverlappingSymmetric(r1: Range, r2: Range)
    ensures Overlapping(r1, r2) <==> Overlapping(r2, r1)
  {
  }

  /** On proper ranges the end point test means that every section of one
      range is a section of the other. */
  lemma ContainingMeansSubset(r1: Range, r2: Range)
    requires WellFormed(r1) && WellFormed(r2)
    ensures Containing(r1, r2) <==>
      (forall x :: InRange(r2, x) ==> InRange(r1, x)) || (forall x :: InRange(r1, x) ==> InRange(r2, x))
  {
    if (forall x :: InRange(r2, x) ==> InRange(r1, x)) {
      assert InRange(r2, r2.0) && InRange(r2, r2.1);
    }
    if (forall x :: InRange(r1, x) ==> InRange(r2, x)) {
      assert InRange(r1, r1.0) && InRange(r1, r1.1);
    }
  }

  /** On proper ranges the end point test means that the ranges share a
      section. */
  lemma OverlappingMeansShared(r1: Range, r2: Range)
    requires WellFormed(r1) && WellFormed(r2)
    ensures Overlapping(r1, r2) <==> exists x :: InRange(r1, x) && InRange(r2, x)
  {
    if Overlapping(r1, r2) {
      var x := if r1.0 < r2.0 then r2.0 else r1.0;
      assert InRange(r1, x) && InRange(r2, x);
    }
  }

  /** Containment implies overlap for proper ranges. */
  lemma ContainingImpliesOverlapping(r1: Range, r2: Range)
    requires WellFormed(r1) && WellFormed(r2)
    ensures Containing(r1, r2) ==> Overlapping(r1, r2)
  {
  }

  /** A range that ends before it starts can still "contain" a range, and
      the predicates then disagree with their names; this is the end point
      test as written, which the input never exercises. */
  lemma ImproperRangeContains()
    ensures Containing((5, 1), (3, 4)) && !Overlapping((5, 1), (3, 4))
  {
  }

  const U32Limit := 0x1_0000_0000

  function ParseBound(s: string): (r: Option<nat>)
    ensures r.Some? ==> r.value < U32Limit && ParseNat(s) == Some(r.value)
  {
    match ParseNat(s)
    case None => None
    case Some(n) => if n < U32Limit then Some(n) else None
  }

  function ParseRange(s: string): (r: Option<Range>)
    ensures r.Some? ==> exists a, b :: s == a + ['-'] + b && ParseBound(a) == Some(r.value.0) && ParseBound(b) == Some(r.value.1)
  {
    match SplitOnce(s, '-')
    case None => None
    case Some((a, b)) =>
      match (ParseBound(a), ParseBound(b))
      case (Some(x), Some(y)) => Some((x, y))
      case _ => None
  }

  /** `extract_ranges_from_line`: `a-b,c-d`; every `unwrap` failure is
      `None`. */
  function ExtractRanges(line: string): (r: Option<(Range, Range)>)
    ensures r.Some? ==> exists a, b :: line == a + [','] + b && ParseRange(a) == Some(r.value.0) && ParseRange(b) == Some(r.value.1)
  {
    match SplitOnce(line, ',')
    case None => None
    case Some((a, b)) =>
      match (ParseRange(a), ParseRange(b))
      case (Some(x), Some(y)) => Some((x, y))
      case _ => None
  }

  function ShowRange(r: Range): string {
    NatToString(r.0) + "-" + NatToString(r.1)
  }

  function ShowRanges(p: (Range, Range)): string {
    ShowRange(p.0) + "," + ShowRange(p.1)
  }

  lemma NatToStringHasNoSign(n: nat, c: char)
    requires !IsDigit(c)
    ensures c !in NatToString(n)
  {
    var s := NatToString(n);
    assert forall i :: 0 <= i < |s| ==> s[i] != c;
  }

  lemma ParseShowRange(r: Range)
    requires r.0 < U32Limit && r.1 < U32Limit
    ensures ParseRange(ShowRange(r)) == Some(r)
  {
    NatToStringHasNoSign(r.0, '-');
    SplitOnceAt(NatToString(r.0), '-', NatToString(r.1));
    ParseNatOfNatToString(r.0);
    ParseNatOfNatToString(r.1);
  }

  /** A printed pair of ranges reads back as itself. */
  lemma ParseShowRanges(p: (Range, Range))
    requires p.0.0 < U32Limit && p.0.1 < U32Limit && p.1.0 < U32Limit && p.1.1 < U32Limit
    ensures ExtractRanges(ShowRanges(p)) == Some(p)
  {
    NatToStringHasNoSign(p.0.0, ',');
    NatToStringHasNoSign(p.0.1, ',');
    assert ',' !in ShowRange(p.0);
    SplitOnceAt(ShowRange(p.0), ',', ShowRange(p.1));
    ParseShowRange(p.0);
    ParseShowRange(p.1);
  }

  /** `part_one`: the number of pairs where one range contains the other. */
  function CountContaining(pairs: seq<(Range, Range)>): (n: nat)
    ensures n <= |pairs|
  {
    if pairs == [] then 0
    else CountContaining(pairs[..|pairs| - 1]) + (if Containing(pairs[|pairs| - 1].0, pairs[|pairs| - 1].1) then 1 else 0)
  }

  /** `part_two`: the number of pairs that overlap. */
  function CountOverlapping(pairs: seq<(Range, Range)>): (n: nat)
    ensures n <= |pairs|
  {
    if pairs == [] then 0
    else CountOverlapping(pairs[..|pairs| - 1]) + (if Overlapping(pairs[|pairs| - 1].0, pairs[|pairs| - 1].1) then 1 else 0)
  }

  /** The first answer counts exactly the pairs where one range contains
      the other. */
  lemma {:induction false} CountContainingIsCardinality(pairs: seq<(Range, Range)>)
    ensures CountContaining(pairs) == |set k | 0 <= k < |pairs| && Containing(pairs[k].0, pairs[k].1)|
  {
    if pairs != [] {
      var n := |pairs|;
      var init := pairs[..n - 1];
      CountContainingIsCardinality(init);
      var before := set k | 0 <= k < n - 1 && Containing(init[k].0, init[k].1);
      var all := set k | 0 <= k < n && Containing(pairs[k].0, pairs[k].1);
      if Containing(pairs[n - 1].0, pairs[n - 1].1) {
        assert all == before + {n - 1};
      } else {
        assert all == before;
      }
    }
  }

  /** The second answer counts exactly the pairs that overlap. */
  lemma {:induction false} CountOverlappingIsCardinality(pairs: seq<(Range, Range)>)
    ensures CountOverlapping(pairs) == |set k | 0 <= k < |pairs| && Overlapping(pairs[k].0, pairs[k].1)|
  {
    if pairs != [] {
      var n := |pairs|;
      var init := pairs[..n - 1];
      CountOverlappingIsCardinality(init);
      var before := set k | 0 <= k < n - 1 && Overlapping(init[k].0, init[k].1);
      var all := set k | 0 <= k < n && Overlapping(pairs[k].0, pairs[k].1);
      if Overlapping(pairs[n - 1].0, pairs[n - 1].1) {
        assert all == before + {n - 1};
      } else {
        assert all == before;
      }
    }
  }

  /** On proper ranges the second answer is never below the first. */
  lemma {:induction false} ContainingCountAtMostOverlapping(pairs: seq<(Range, Range)>)
    requires forall k :: 0 <= k < |pairs| ==> WellFormed(pairs[k].0) && WellFormed(pairs[k].1)
    ensures CountContaining(pairs) <= CountOverlapping(pairs)
  {
    if pairs != [] {
      ContainingCountAtMostOverlapping(pairs[..|pairs| - 1]);
      ContainingImpliesOverlapping(pairs[|pairs| - 1].0, pairs[|pairs| - 1].1);
    }
  }
}
