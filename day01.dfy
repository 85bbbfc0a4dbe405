/** Calorie counting: the largest group total and the sum of the three
    largest. */
module Day01 {
  import opened Wrappers
  import opened Text

  /** A line `parse::<u32>()` accepts. */
  predicate LineParses(line: string) {
    ParseNat(line).Some? && ParseNat(line).value < 0x1_0000_0000
  }

  /** The numbers of one group, read as `u32` (a bad line panics). */
  function ParseGroup(lines: seq<string>): (r: Option<seq<nat>>)
    ensures r.Some? <==> forall k :: 0 <= k < |lines| ==> LineParses(lines[k])
    ensures r.Some? ==> |r.value| == |lines|
    ensures r.Some? ==> forall k :: 0 <= k < |lines| ==> ParseNat(lines[k]) == Some(r.value[k]) && r.value[k] < 0x1_0000_0000
  {
    if lines == [] then Some([])
    else
      assert forall k :: 1 <= k < |lines| ==> lines[1..][k - 1] == lines[k];
      match (ParseNat(lines[0]), ParseGroup(lines[1..]))
      case (Some(n), Some(rest)) => if n < 0x1_0000_0000 then Some([n] + rest) else None
      case _ => None
  }

  function Sum(s: seq<nat>): nat {
    if s == [] then 0 else s[0] + Sum(s[1..])
  }

  /** Every line of every blank-line separated group parses as a `u32`. */
  predicate AllLinesParse(input: string) {
    var groups := SplitPair(input, '\n', '\n');
    forall k :: 0 <= k < |groups| ==> ParseGroup(Lines(groups[k])).Some?
  }

  /** The total of every group, in input order. */
  function GroupSums(input: string): (r: Option<seq<nat>>)
    ensures r.Some? <==> AllLinesParse(input)
    ensures r.Some? ==> |r.value| == |SplitPair(input, '\n', '\n')|
  {
    var groups := SplitPair(input, '\n', '\n');
    GroupSumsOf(groups)
  }

  function GroupSumsOf(groups: seq<string>): (r: Option<seq<nat>>)
    ensures r.Some? <==> forall k :: 0 <= k < |groups| ==> ParseGroup(Lines(groups[k])).Some?
    ensures r.Some? ==> |r.value| == |groups|
    ensures r.Some? ==> forall k :: 0 <= k < |groups| ==> ParseGroup(Lines(groups[k])).Some? && r.value[k] == Sum(ParseGroup(Lines(groups[k])).value)
  {
    if groups == [] then Some([])
    else
      assert forall k :: 1 <= k < |groups| ==> groups[1..][k - 1] == groups[k];
      match (ParseGroup(Lines(groups[0])), GroupSumsOf(groups[1..]))
      case (Some(g), Some(rest)) => Some([Sum(g)] + rest)
      case _ => None
  }

  /** `max()` of the group totals. */
  function Max(s: seq<nat>): (m: nat)
    requires |s| >= 1
    ensures forall k :: 0 <= k < |s| ==> s[k] <= m
    ensures exists k :: 0 <= k < |s| && s[k] == m
  {
    if |s| == 1 then s[0]
    else
      var rest := Max(s[1..]);
      assert forall k :: 1 <= k < |s| ==> s[k] == s[1..][k - 1];
      if s[0] < rest then rest else s[0]
  }

  /** `part_one`: the largest group total; no answer when a line does not
      parse. */
  function PartOne(input: string): (r: Option<nat>)
    ensures r.Some? <==> AllLinesParse(input)
    ensures r.Some? ==> forall k :: 0 <= k < |GroupSums(input).value| ==> GroupSums(input).value[k] <= r.value
    ensures r.Some? ==> r.value in GroupSums(input).value
  {
    match GroupSums(input)
    case None => None
    case Some(sums) => Some(Max(sums))
  }

  predicate SortedDescending(s: seq<nat>) {
    forall i, j :: 0 <= i < j < |s| ==> s[i] >= s[j]
  }

  function Insert(x: nat, s: seq<nat>): (r: seq<nat>)
    requires SortedDescending(s)
    ensures |r| == |s| + 1
    ensures SortedDescending(r)
    ensures multiset(r) == multiset(s) + multiset{x}
  {
    if s == [] then [x]
    else if x >= s[0] then [x] + s
    else
      var rest := Insert(x, s[1..]);
      assert s == [s[0]] + s[1..];
      forall k | 0 <= k < |rest| ensures rest[k] <= s[0] {
        assert rest[k] in multiset(rest);
        if rest[k] != x {
          assert rest[k] in multiset(s[1..]);
          var j :| 0 <= j < |s[1..]| && s[1..][j] == rest[k];
          assert s[j + 1] == rest[k];
        }
      }
      [s[0]] + rest
  }

  /** `sorted().rev()`: the totals from largest to smallest. */
  function SortDescending(s: seq<nat>): (r: seq<nat>)
    ensures |r| == |s|
    ensures SortedDescending(r)
    ensures multiset(r) == multiset(s)
  {
    if s == [] then []
    else
      assert s == [s[0]] + s[1..];
      Insert(s[0], SortDescending(s[1..]))
  }

  /** `take(3).sum()`. */
  function TopThree(sorted: seq<nat>): nat {
    if |sorted| <= 3 then Sum(sorted) else sorted[0] + sorted[1] + sorted[2]
  }

  /** `part_two`: the sum of the three largest totals. No selection of at
      most three totals adds up to more, and some selection of min(3, n)
      totals adds up to it. */
  function PartTwo(input: string): (r: Option<nat>)
    ensures r.Some? <==> AllLinesParse(input)
    ensures r.Some? ==> var sums := GroupSums(input).value;
      forall mask :: |mask| == |sums| && Count(mask) <= 3 ==> Chosen(sums, mask) <= r.value
    ensures r.Some? ==> var sums := GroupSums(input).value;
      exists mask :: |mask| == |sums| && Count(mask) == Min(3, |sums|) && Chosen(sums, mask) == r.value
  {
    match GroupSums(input)
    case None => None
    case Some(sums) =>
      TopThreeOfTotals(sums);
      Some(TopThree(SortDescending(sums)))
  }

  function Min(a: nat, b: nat): nat {
    if a <= b then a else b
  }

  /** The sum of the totals a mask selects. */
  function Chosen(s: seq<nat>, mask: seq<bool>): nat
    requires |mask| == |s|
  {
    if s == [] then 0 else (if mask[0] then s[0] else 0) + Chosen(s[1..], mask[1..])
  }

  /** How many totals a mask selects. */
  function Count(mask: seq<bool>): nat {
    if mask == [] then 0 else (if mask[0] then 1 else 0) + Count(mask[1..])
  }

  /** The sum of the first `k` entries, or of all of them when there are
      fewer. */
  function TopK(t: seq<nat>, k: nat): nat {
    if k == 0 || t == [] then 0 else t[0] + TopK(t[1..], k - 1)
  }

  /** In a descending list dropping the first entry never raises a top sum. */
  lemma {:induction false} TopKTail(t: seq<nat>, k: nat)
    requires SortedDescending(t) && |t| >= 1
    ensures TopK(t[1..], k) <= TopK(t, k)
  {
    if k > 0 && |t| >= 2 {
      TopKTail(t[1..], k - 1);
    }
  }

  /** What `Insert` builds, entry by entry: the inserted total goes before
      the first entry it is at least, the entries before it stay. */
  predicate InsertShape(x: nat, t: seq<nat>, r: seq<nat>)
    decreases |t|
  {
    if t == [] then r == [x]
    else if x >= t[0] then r == [x] + t
    else r != [] && r[0] == t[0] && InsertShape(x, t[1..], r[1..])
  }

  lemma {:induction false} InsertHasShape(x: nat, t: seq<nat>)
    requires SortedDescending(t)
    ensures InsertShape(x, t, Insert(x, t))
  {
    if t != [] && x < t[0] {
      var rest := Insert(x, t[1..]);
      assert Insert(x, t) == [t[0]] + rest;
      assert (([t[0]] + rest)[1..]) == rest;
      InsertHasShape(x, t[1..]);
    }
  }

  /** Inserting a total never lowers a top sum, and the new top `k` sum is
      either the old one or the inserted total plus the old top `k - 1`;
      the latter when every entry is counted. */
  lemma {:induction false} TopKInsert(x: nat, t: seq<nat>, r: seq<nat>, k: nat)
    requires SortedDescending(t) && InsertShape(x, t, r) && k >= 1
    ensures TopK(r, k) >= TopK(t, k)
    ensures TopK(r, k) >= x + TopK(t, k - 1)
    ensures TopK(r, k) == TopK(t, k) || TopK(r, k) == x + TopK(t, k - 1)
    ensures k > |t| ==> TopK(r, k) == x + TopK(t, k - 1)
    decreases |t|, 1
  {
    if t == [] {
      assert r == [x] + [];
      TopKCons(x, [], k);
    } else if x >= t[0] {
      TopKCons(x, t, k);
      TopKTail(t, k - 1);
      TopKCons(t[0], t[1..], k);
    } else {
      TopKInsertBelow(x, t, r, k);
    }
  }

  /** The case of `TopKInsert` where the inserted total goes below the
      first entry. */
  lemma {:induction false} TopKInsertBelow(x: nat, t: seq<nat>, r: seq<nat>, k: nat)
    requires SortedDescending(t) && k >= 1 && t != [] && x < t[0] && InsertShape(x, t, r)
    ensures TopK(r, k) >= TopK(t, k)
    ensures TopK(r, k) >= x + TopK(t, k - 1)
    ensures TopK(r, k) == TopK(t, k) || TopK(r, k) == x + TopK(t, k - 1)
    ensures k > |t| ==> TopK(r, k) == x + TopK(t, k - 1)
    decreases |t|, 0
  {
    var tail, rest := t[1..], r[1..];
    assert t == [t[0]] + tail;
    assert r == [t[0]] + rest;
    TopKCons(t[0], rest, k);
    TopKCons(t[0], tail, k);
    if k == 1 {
      assert TopK(rest, 0) == 0 && TopK(tail, 0) == 0 && TopK(t, 0) == 0;
    } else {
      assert SortedDescending(tail);
      TopKInsert(x, tail, rest, k - 1);
      TopKCons(t[0], tail, k - 1);
    }
  }

  /** Sorting a non-empty list inserts its first total into the sorted
      rest. */
  lemma SortStep(s: seq<nat>)
    requires s != []
    ensures SortedDescending(SortDescending(s[1..]))
    ensures InsertShape(s[0], SortDescending(s[1..]), SortDescending(s))
  {
    InsertHasShape(s[0], SortDescending(s[1..]));
  }

  lemma TopKCons(y: nat, u: seq<nat>, k: nat)
    requires k >= 1
    ensures TopK([y] + u, k) == y + TopK(u, k - 1)
  {
    assert ([y] + u)[1..] == u;
  }

  /** A top sum of more entries is no smaller. */
  lemma {:induction false} TopKMonotone(t: seq<nat>, j: nat, k: nat)
    requires j <= k
    ensures TopK(t, j) <= TopK(t, k)
  {
    if j > 0 && t != [] {
      TopKMonotone(t[1..], j - 1, k - 1);
    }
  }

  /** No selection adds up to more than the top sum of as many entries of
      the sorted order. */
  lemma {:induction false} TopKBound(s: seq<nat>, mask: seq<bool>)
    requires |mask| == |s|
    ensures Chosen(s, mask) <= TopK(SortDescending(s), Count(mask))
  {
    if s != [] {
      var u, r := SortDescending(s[1..]), SortDescending(s);
      SortStep(s);
      TopKBound(s[1..], mask[1..]);
      BoundStep(s, u, r, mask);
    }
  }

  /** One step of `TopKBound`: the bound for the rest of the totals gives
      the bound for all of them. */
  lemma BoundStep(s: seq<nat>, u: seq<nat>, r: seq<nat>, mask: seq<bool>)
    requires |mask| == |s| && s != [] && SortedDescending(u) && InsertShape(s[0], u, r)
    requires Chosen(s[1..], mask[1..]) <= TopK(u, Count(mask[1..]))
    ensures Chosen(s, mask) <= TopK(r, Count(mask))
  {
    var c, rest := Count(mask), Count(mask[1..]);
    assert c == (if mask[0] then 1 else 0) + rest;
    if c >= 1 {
      TopKInsert(s[0], u, r, c);
    }
  }

  /** The top sum of `k` entries of the sorted order is what some selection
      of min(k, n) totals adds up to. */
  lemma TopKAttained(s: seq<nat>, k: nat)
    ensures exists mask :: |mask| == |s| && Count(mask) == Min(k, |s|) && Chosen(s, mask) == TopK(SortDescending(s), k)
  {
    var mask := AttainingMask(s, k);
    assert |mask| == |s| && Count(mask) == Min(k, |s|) && Chosen(s, mask) == TopK(SortDescending(s), k);
  }

  /** A selection witnessing `TopKAttained`: it takes the first total
      whenever the sorted order counts it. */
  lemma {:induction false} AttainingMask(s: seq<nat>, k: nat) returns (mask: seq<bool>)
    ensures |mask| == |s| && Count(mask) == Min(k, |s|) && Chosen(s, mask) == TopK(SortDescending(s), k)
  {
    if s == [] {
      mask := [];
    } else {
      var u, r := SortDescending(s[1..]), SortDescending(s);
      SortStep(s);
      if k >= 1 && TopK(r, k) == s[0] + TopK(u, k - 1) {
        var m := AttainingMask(s[1..], k - 1);
        mask := TakeFirst(s, u, r, k, m);
      } else {
        var m := AttainingMask(s[1..], k);
        mask := SkipFirst(s, u, r, k, m);
      }
    }
  }

  /** Extends a selection of the rest by the first total, when the sorted
      order counts that total. */
  lemma TakeFirst(s: seq<nat>, u: seq<nat>, r: seq<nat>, k: nat, m: seq<bool>) returns (mask: seq<bool>)
    requires s != [] && k >= 1 && TopK(r, k) == s[0] + TopK(u, k - 1)
    requires |m| == |s| - 1 && Count(m) == Min(k - 1, |s| - 1) && Chosen(s[1..], m) == TopK(u, k - 1)
    ensures |mask| == |s| && Count(mask) == Min(k, |s|) && Chosen(s, mask) == TopK(r, k)
  {
    mask := [true] + m;
    assert mask[1..] == m;
  }

  /** Extends a selection of the rest by leaving out the first total, when
      the sorted order does not count that total. */
  lemma SkipFirst(s: seq<nat>, u: seq<nat>, r: seq<nat>, k: nat, m: seq<bool>) returns (mask: seq<bool>)
    requires s != [] && |u| == |s| - 1 && SortedDescending(u) && InsertShape(s[0], u, r)
    requires !(k >= 1 && TopK(r, k) == s[0] + TopK(u, k - 1))
    requires |m| == |s| - 1 && Count(m) == Min(k, |s| - 1) && Chosen(s[1..], m) == TopK(u, k)
    ensures |mask| == |s| && Count(mask) == Min(k, |s|) && Chosen(s, mask) == TopK(r, k)
  {
    if k >= 1 {
      TopKInsert(s[0], u, r, k);
    } else {
      assert TopK(r, k) == 0 == TopK(u, k);
    }
    mask := [false] + m;
    assert mask[1..] == m;
  }

  /** `take(3).sum()` is the top sum of three. */
  lemma TopThreeIsTopK(t: seq<nat>)
    ensures TopThree(t) == TopK(t, 3)
  {
    if t != [] {
      assert TopK(t, 3) == t[0] + TopK(t[1..], 2);
      if |t| >= 2 {
        assert TopK(t[1..], 2) == t[1] + TopK(t[1..][1..], 1);
        if |t| >= 3 {
          assert TopK(t[1..][1..], 1) == t[2] + TopK(t[1..][1..][1..], 0);
          if |t| == 3 {
            assert Sum(t) == t[0] + Sum(t[1..]);
            assert Sum(t[1..]) == t[1] + Sum(t[1..][1..]);
            assert t[1..][1..][1..] == [];
          }
        } else {
          assert t[1..][1..] == [];
          assert Sum(t) == t[0] + Sum(t[1..]);
        }
      } else {
        assert t[1..] == [];
      }
    }
  }

  /** The answer of part two bounds every selection of at most three totals
      and is what some selection of min(3, n) of them adds up to. */
  lemma TopThreeOfTotals(sums: seq<nat>)
    ensures forall mask :: |mask| == |sums| && Count(mask) <= 3 ==> Chosen(sums, mask) <= TopThree(SortDescending(sums))
    ensures exists mask :: |mask| == |sums| && Count(mask) == Min(3, |sums|) && Chosen(sums, mask) == TopThree(SortDescending(sums))
  {
    var t := SortDescending(sums);
    TopThreeIsTopK(t);
    forall mask | |mask| == |sums| && Count(mask) <= 3
      ensures Chosen(sums, mask) <= TopThree(t)
    {
      TopKBound(sums, mask);
      TopKMonotone(t, Count(mask), 3);
    }
    TopKAttained(sums, 3);
  }

  /** No three totals at different places of the sorted order add up to
      more than its first three. */
  lemma TopThreeIsLargest(sorted: seq<nat>, a: nat, b: nat, c: nat)
    requires SortedDescending(sorted) && a < b < c < |sorted|
    ensures sorted[a] + sorted[b] + sorted[c] <= TopThree(sorted)
  {
    if |sorted| <= 3 {
      assert sorted[1..][1..][1..] == [];
      assert Sum(sorted[1..][1..]) == sorted[2];
      assert Sum(sorted[1..]) == sorted[1] + sorted[2];
    }
  }

  /** The largest total is first in the sorted order. */
  lemma MaxIsFirstSorted(s: seq<nat>)
    requires |s| >= 1
    ensures SortDescending(s)[0] == Max(s)
  {
    var t := SortDescending(s);
    assert t[0] in multiset(s);
    var k :| 0 <= k < |s| && s[k] == Max(s);
    assert s[k] in multiset(t);
  }

  /** The second answer is never below the first. */
  lemma PartTwoAtLeastPartOne(input: string)
    requires GroupSums(input).Some?
    ensures PartOne(input).value <= PartTwo(input).value
  {
    var sums := GroupSums(input).value;
    var t := SortDescending(sums);
    MaxIsFirstSorted(sums);
    if |t| <= 3 {
      assert Sum(t) == t[0] + Sum(t[1..]);
    }
  }
}
