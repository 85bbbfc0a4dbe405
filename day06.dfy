/** The start-of-packet and start-of-message markers: the first window of
    distinct characters in the datastream. */
module Day06 {
  import opened Wrappers

  /** The number of different characters in a window: what
      `sorted().dedup().count()` counts. */
  function DistinctCount(w: seq<char>): nat {
    |set c | c in w|
  }

  predicate NoDuplicates(w: seq<char>) {
    forall i, j :: 0 <= i < j < |w| ==> w[i] != w[j]
  }

  /** A window has as many different characters as it is long exactly when
      no character repeats. */
  lemma {:induction false} DistinctCountIff(w: seq<char>)
    ensures DistinctCount(w) <= |w|
    ensures DistinctCount(w) == |w| <==> NoDuplicates(w)
  {
    if w != [] {
      var init, x := w[..|w| - 1], w[|w| - 1];
      DistinctCountIff(init);
      assert (set c | c in w) == (set c | c in init) + {x} by {
        assert w == init + [x];
      }
      if x in init {
        assert (set c | c in w) == (set c | c in init);
        var k :| 0 <= k < |init| && init[k] == x;
        assert w[k] == w[|w| - 1];
      } else {
        assert NoDuplicates(w) <==> NoDuplicates(init) by {
          if NoDuplicates(init) {
            forall i, j | 0 <= i < j < |w| ensures w[i] != w[j] {
              if j == |w| - 1 {
                assert init[i] == w[i];
              } else {
                assert init[i] == w[i] && init[j] == w[j];
              }
            }
          }
          if NoDuplicates(w) {
            forall i, j | 0 <= i < j < |init| ensures init[i] != init[j] {
              assert w[i] == init[i] && w[j] == init[j];
            }
          }
        }
      }
    }
  }

  predicate Distinct(s: seq<char>, n: nat, i: nat)
    requires i + n <= |s|
  {
    NoDuplicates(s[i..i + n])
  }

  /** The first window of size `n` at or after `from` with `n` different
      characters, or -1 when there is none. */
  function FirstDistinctWindow(s: seq<char>, n: nat, from: nat): (r: int)
    ensures r == -1 || (from <= r && r + n <= |s| && Distinct(s, n, r))
    ensures r == -1 ==> forall i :: from <= i && i + n <= |s| ==> !Distinct(s, n, i)
    ensures r != -1 ==> forall i :: from <= i < r ==> !Distinct(s, n, i)
    decreases |s| - from
  {
    if from + n > |s| then -1
    else if Distinct(s, n, from) then from
    else FirstDistinctWindow(s, n, from + 1)
  }

  /** The loop over `windows(n)` that stops at the first window whose
      characters are all different; -1 when none is. */
  method FindWindow(input: seq<char>, n: nat) returns (foundIndex: int)
    requires n >= 1
    ensures foundIndex == FirstDistinctWindow(input, n, 0)
  {
    foundIndex := -1;
    if |input| < n {
      return;
    }
    var i := 0;
    while i + n <= |input|
      invariant i + n <= |input| + 1
      invariant FirstDistinctWindow(input, n, 0) == FirstDistinctWindow(input, n, i)
      decreases |input| - i
    {
      var window := input[i..i + n];
      DistinctCountIff(window);
      if DistinctCount(window) == n {
        foundIndex := i;
        return;
      }
      i := i + 1;
    }
  }

  /** `part_one` and `part_two` as written: the marker position is only
      reported when the window index is above zero, so a marker in the very
      first window gives no answer. */
  function MarkerAsWritten(input: seq<char>, n: nat): (r: Option<nat>)
    ensures r.Some? ==> exists i :: 1 <= i && i + n <= |input| && r.value == i + n && Distinct(input, n, i)
  {
    var i := FirstDistinctWindow(input, n, 0);
    if i > 0 then Some(i + n) else None
  }

  method StartOfMarkerAsWritten(input: seq<char>, n: nat) returns (r: Option<nat>)
    requires n >= 1
    ensures r == MarkerAsWritten(input, n)
  {
    var foundIndex := FindWindow(input, n);
    if foundIndex > 0 {
      return Some(foundIndex + n);
    }
    return None;
  }

  /** The stream `abcd` starts with a marker, but the test as written
      reports none. */
  lemma FirstWindowMarkerIsLost()
    ensures Distinct("abcd", 4, 0) && MarkerAsWritten("abcd", 4) == None
  {
    assert "abcd"[0..4] == "abcd";
  }

  /** The marker position the puzzle asks for: the number of characters up
      to and including the first window of `n` different characters. */
  function Marker(input: seq<char>, n: nat): (r: Option<nat>)
    ensures r.Some? <==> exists i: nat :: i + n <= |input| && Distinct(input, n, i)
    ensures r.Some? ==> n <= r.value <= |input| && Distinct(input, n, r.value - n)
    ensures r.Some? ==> forall i: nat :: i + n < r.value ==> !Distinct(input, n, i)
  {
    var i := FirstDistinctWindow(input, n, 0);
    if i >= 0 then Some(i + n) else None
  }

  /** The corrected search: any window index, 0 included, is a marker. */
  method StartOfMarker(input: seq<char>, n: nat) returns (r: Option<nat>)
    requires n >= 1
    ensures r == Marker(input, n)
  {
    var foundIndex := FindWindow(input, n);
    if foundIndex >= 0 {
      return Some(foundIndex + n);
    }
    return None;
  }

  /** The two differ only when the first window is a marker. */
  lemma AsWrittenAgreesElsewhere(input: seq<char>, n: nat)
    requires n <= |input| ==> !Distinct(input, n, 0)
    ensures MarkerAsWritten(input, n) == Marker(input, n)
  {
  }
}
