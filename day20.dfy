/** Grove positioning: a list of numbers "mixed" by moving each number, in
    input order, as many places as its value around a circle. The numbers
    never move in memory; `indices` records where each one currently sits. */
module Day20 {
  import opened Wrappers

  /** Values in [0, |s|) with no repetition. */
  predicate IsPermutation(s: seq<int>) {
    (forall k :: 0 <= k < |s| ==> 0 <= s[k] < |s|) &&
    (forall j, k :: 0 <= j < k < |s| ==> s[j] != s[k])
  }

  function Identity(n: nat): (s: seq<int>)
    ensures |s| == n && forall k :: 0 <= k < n ==> s[k] == k
  {
    seq(n, k => k)
  }

  lemma IdentityIsPermutation(n: nat)
    ensures IsPermutation(Identity(n))
  {
  }

  /** An injective sequence of values below m has at most m elements. */
  lemma {:induction false} InjectiveBound(s: seq<int>, m: nat)
    requires forall k :: 0 <= k < |s| ==> 0 <= s[k] < m
    requires forall j, k :: 0 <= j < k < |s| ==> s[j] != s[k]
    ensures |s| <= m
    decreases m
  {
    if m == 0 {
      FirstInRange(s, m);
    } else {
      var t := Without(s, m - 1);
      forall k | 0 <= k < |t|
        ensures 0 <= t[k] < m - 1
      {
        var i :| 0 <= i < |s| && s[i] == t[k];
      }
      InjectiveBound(t, m - 1);
      assert |s| <= |t| + 1;
    }
  }

  /** The first value, if any, lies below m. */
  lemma FirstInRange(s: seq<int>, m: nat)
    requires forall k :: 0 <= k < |s| ==> 0 <= s[k] < m
    ensures |s| > 0 ==> 0 <= s[0] < m
  {
  }

  /** s without the entries equal to v. */
  function Without(s: seq<int>, v: int): (t: seq<int>)
    requires forall j, k :: 0 <= j < k < |s| ==> s[j] != s[k]
    ensures |t| >= |s| - 1
    ensures forall k :: 0 <= k < |t| ==> t[k] != v && t[k] in s
    ensures forall j, k :: 0 <= j < k < |t| ==> t[j] != t[k]
    ensures v !in s ==> t == s
  {
    if s == [] then []
    else if s[0] == v then
      assert v !in s[1..];
      s[1..]
    else
      var r := Without(s[1..], v);
      assert forall k :: 0 <= k < |r| ==> r[k] != s[0];
      [s[0]] + r
  }

  /** A permutation takes every position. */
  lemma PermutationIsOnto(s: seq<int>, p: int)
    requires IsPermutation(s) && 0 <= p < |s|
    ensures p in s
  {
    if p !in s {
      var t := seq(|s|, k requires 0 <= k < |s| => if s[k] > p then s[k] - 1 else s[k]);
      InjectiveBound(t, |s| - 1);
    }
  }

  /** The vector index whose number sits at position p. */
  function Find(s: seq<int>, p: int): (k: nat)
    requires p in s
    ensures k < |s| && s[k] == p
    ensures forall j :: 0 <= j < k ==> s[j] != p
  {
    if s[0] == p then 0 else 1 + Find(s[1..], p)
  }

  /** The position of an element that did not move itself: elements between
      the old and the new position shift by one towards the old one. */
  function Shift(e: int, oldPos: int, newPos: int): int {
    if oldPos < newPos && oldPos < e <= newPos then e - 1
    else if newPos < oldPos && newPos <= e < oldPos then e + 1
    else e
  }

  /** The target position of `numbers[i]`: `(old + value).rem_euclid(n - 1)`. */
  function Target(numbers: seq<int>, indices: seq<int>, i: nat): (t: int)
    requires |numbers| == |indices| >= 2 && i < |numbers|
    ensures 0 <= t < |numbers| - 1
  {
    (indices[i] + numbers[i]) % (|numbers| - 1)
  }

  /** The positions after `move_number(i)`. */
  function Moved(numbers: seq<int>, indices: seq<int>, i: nat): (r: seq<int>)
    requires |numbers| == |indices| >= 2 && i < |numbers|
    ensures |r| == |indices|
  {
    var oldPos, newPos := indices[i], Target(numbers, indices, i);
    seq(|indices|, k requires 0 <= k < |indices| => if k == i then newPos else Shift(indices[k], oldPos, newPos))
  }

  /** Moving one number keeps the positions a permutation. */
  lemma MovedIsPermutation(numbers: seq<int>, indices: seq<int>, i: nat)
    requires |numbers| == |indices| >= 2 && i < |numbers|
    requires IsPermutation(indices)
    ensures IsPermutation(Moved(numbers, indices, i))
  {
    var r := Moved(numbers, indices, i);
    var oldPos, newPos := indices[i], Target(numbers, indices, i);
    forall j, k | 0 <= j < k < |r| ensures r[j] != r[k] {
      assert indices[j] != indices[k];
      if j != i && k != i {
        assert indices[j] != oldPos && indices[k] != oldPos;
      } else if j == i {
        assert indices[k] != oldPos;
      } else {
        assert indices[j] != oldPos;
      }
    }
  }

  /** The positions after `mix`: each number moved once, in vector order. */
  function MixedUpTo(numbers: seq<int>, indices: seq<int>, i: nat): (r: seq<int>)
    requires |numbers| == |indices| >= 2 && i <= |numbers|
    requires IsPermutation(indices)
    ensures |r| == |indices| && IsPermutation(r)
  {
    if i == 0 then indices
    else
      var before := MixedUpTo(numbers, indices, i - 1);
      MovedIsPermutation(numbers, before, i - 1);
      Moved(numbers, before, i - 1)
  }

  /** `return_numbers_in_order`: the numbers sorted by their position. */
  function NumbersInOrder(numbers: seq<int>, indices: seq<int>): (r: seq<int>)
    requires |numbers| == |indices| && IsPermutation(indices)
    ensures |r| == |numbers|
    ensures forall k :: 0 <= k < |numbers| ==> r[indices[k]] == numbers[k]
  {
    seq(|numbers|, p requires 0 <= p < |numbers| =>
      PermutationIsOnto(indices, p);
      numbers[Find(indices, p)])
  }

  /** Sorting by position only reorders the numbers. */
  lemma NumbersInOrderIsPermutation(numbers: seq<int>, indices: seq<int>)
    requires |numbers| == |indices| && IsPermutation(indices)
    ensures multiset(NumbersInOrder(numbers, indices)) == multiset(numbers)
  {
    var r := NumbersInOrder(numbers, indices);
    var f := seq(|r|, p requires 0 <= p < |r| => PermutationIsOnto(indices, p); Find(indices, p));
    assert IsPermutation(f) by {
      forall j, k | 0 <= j < k < |f| ensures f[j] != f[k] {
        assert indices[f[j]] == j && indices[f[k]] == k;
      }
    }
    forall k | 0 <= k < |r| ensures r[k] == numbers[f[k]] {
    }
    Reindex(numbers, f, r);
  }

  /** Reading a sequence through a permutation keeps its multiset. */
  lemma {:induction false} Reindex(s: seq<int>, f: seq<int>, r: seq<int>)
    requires |s| == |f| == |r| && IsPermutation(f)
    requires forall k :: 0 <= k < |r| ==> r[k] == s[f[k]]
    ensures multiset(r) == multiset(s)
    decreases |s|
  {
    if |s| > 0 {
      var n := |s| - 1;
      PermutationIsOnto(f, n);
      var j := Find(f, n);
      // Remove the last element of s and the entry j of r that reads it.
      var s' := s[..n];
      var r' := r[..j] + r[j + 1..];
      var f' := f[..j] + f[j + 1..];
      DropLargest(f, j);
      forall k | 0 <= k < |r'| ensures r'[k] == s'[f'[k]] {
        assert r'[k] == (if k < j then r[k] else r[k + 1]);
      }
      Reindex(s', f', r');
      MultisetWithout(r, j);
      assert s == s' + [s[n]];
    }
  }

  /** A permutation without its largest entry is a permutation of one
      fewer positions. */
  lemma DropLargest(f: seq<int>, j: nat)
    requires IsPermutation(f) && j < |f| && f[j] == |f| - 1
    ensures var f' := f[..j] + f[j + 1..];
      IsPermutation(f') && forall k :: 0 <= k < |f'| ==> f'[k] == (if k < j then f[k] else f[k + 1])
  {
    var f' := f[..j] + f[j + 1..];
    assert forall k :: 0 <= k < |f'| ==> f'[k] == (if k < j then f[k] else f[k + 1]);
    forall k | 0 <= k < |f'| ensures 0 <= f'[k] < |f'| {
      assert f'[k] != f[j];
    }
  }

  /** Taking one entry out of a sequence takes it out of its multiset. */
  lemma MultisetWithout(r: seq<int>, j: nat)
    requires j < |r|
    ensures multiset(r) == multiset(r[..j] + r[j + 1..]) + multiset{r[j]}
  {
    assert r == r[..j] + [r[j]] + r[j + 1..];
  }

  class IndexedList {
    const numbers: seq<int>
    const indices: array<int>

    predicate Valid()
      reads this, indices
    {
      indices.Length == |numbers| && IsPermutation(indices[..])
    }

    /** `parse_input`: the numbers in input order, each at its own position. */
    constructor Parse(numbers: seq<int>)
      ensures this.numbers == numbers && indices[..] == Identity(|numbers|)
      ensures Valid() && fresh(indices)
    {
      this.numbers := numbers;
      var a := new int[|numbers|](k => k);
      indices := a;
      IdentityIsPermutation(|numbers|);
      assert a[..] == Identity(|numbers|);
    }

    /** `move_number`: moves `numbers[i]` to position
        `(old + value).rem_euclid(n - 1)`, shifting the numbers in between by
        one. With a single number the remainder by zero panics. */
    method MoveNumber(i: nat)
      requires Valid() && i < |numbers| && |numbers| >= 2
      modifies indices
      ensures indices[..] == Moved(numbers, old(indices[..]), i)
      ensures Valid()
    {
      ghost var before := indices[..];
      var amount := numbers[i];
      var oldPos := indices[i];
      var newPos := (oldPos + amount) % (|numbers| - 1);
      if oldPos == newPos {
        assert indices[..] == Moved(numbers, before, i);
        MovedIsPermutation(numbers, before, i);
        return;
      }
      var k := 0;
      while k < indices.Length
        invariant 0 <= k <= indices.Length
        invariant forall j :: 0 <= j < k ==> indices[j] == Shift(before[j], oldPos, newPos)
        invariant forall j :: k <= j < indices.Length ==> indices[j] == before[j]
      {
        if oldPos < newPos {
          if indices[k] > oldPos && indices[k] <= newPos {
            indices[k] := indices[k] - 1;
          }
        } else {
          if indices[k] < oldPos && indices[k] >= newPos {
            indices[k] := indices[k] + 1;
          }
        }
        k := k + 1;
      }
      indices[i] := newPos;
      assert indices[..] == Moved(numbers, before, i);
      MovedIsPermutation(numbers, before, i);
    }

    /** `mix`: every number moved once, in vector order. */
    method Mix()
      requires Valid() && |numbers| >= 2
      modifies indices
      ensures indices[..] == MixedUpTo(numbers, old(indices[..]), |numbers|)
      ensures Valid()
    {
      ghost var start := indices[..];
      for i := 0 to |numbers|
        invariant Valid()
        invariant indices[..] == MixedUpTo(numbers, start, i)
      {
        MoveNumber(i);
      }
    }

    /** `extract_coordinates`: the numbers 1000, 2000 and 3000 positions after
        the zero. Without a zero the `unwrap` panics. */
    method ExtractCoordinates() returns (x: int, y: int, z: int)
      requires Valid() && 0 in numbers
      ensures var inOrder := NumbersInOrder(numbers, indices[..]);
        var zero := indices[Zero(numbers)];
        x == inOrder[(zero + 1000) % |numbers|] &&
        y == inOrder[(zero + 2000) % |numbers|] &&
        z == inOrder[(zero + 3000) % |numbers|]
    {
      var zeroIndex := Zero(numbers);
      x := NumberAt((indices[zeroIndex] + 1000) % |numbers|);
      y := NumberAt((indices[zeroIndex] + 2000) % |numbers|);
      z := NumberAt((indices[zeroIndex] + 3000) % |numbers|);
    }

    /** The number whose position is p: `find_position` on `indices`. */
    method NumberAt(p: int) returns (v: int)
      requires Valid() && 0 <= p < |numbers|
      ensures v == NumbersInOrder(numbers, indices[..])[p]
    {
      PermutationIsOnto(indices[..], p);
      var k := 0;
      while indices[k] != p
        invariant 0 <= k <= Find(indices[..], p)
        decreases Find(indices[..], p) - k
      {
        k := k + 1;
      }
      v := numbers[k];
    }
  }

  /** The vector index of the first zero: `find_position(|i| *i == 0)`. */
  function Zero(numbers: seq<int>): (k: nat)
    requires 0 in numbers
    ensures k < |numbers| && numbers[k] == 0
    ensures forall j :: 0 <= j < k ==> numbers[j] != 0
  {
    if numbers[0] == 0 then 0 else 1 + Zero(numbers[1..])
  }
}
