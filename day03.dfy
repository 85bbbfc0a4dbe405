/** Rucksacks: the item type found in both compartments, the badge shared by
    a group of three, and item priorities. */
module Day03 {

  /** `split_rucksack`: the first half and the rest (characters are taken
      to be one byte each). */
  function SplitRucksack(rucksack: string): (r: (string, string))
    ensures r.0 + r.1 == rucksack
    ensures |r.0| == |rucksack| / 2 && |r.1| - |r.0| in {0, 1}
  {
    (rucksack[..|rucksack| / 2], rucksack[|rucksack| / 2..])
  }

  predicate NoDuplicates(s: seq<char>) {
    forall i, j :: 0 <= i < j < |s| ==> s[i] != s[j]
  }

  /** `unique()`: the first occurrence of every element, in order. */
  function Unique(s: seq<char>): (r: seq<char>)
    ensures NoDuplicates(r)
    ensures forall c :: c in r <==> c in s
    ensures |r| <= |s|
  {
    if s == [] then []
    else
      var before := Unique(s[..|s| - 1]);
      if s[|s| - 1] in before then before else before + [s[|s| - 1]]
  }

  /** The elements of `s` that occur in `other`, in order. */
  function Filter(s: seq<char>, other: seq<char>): (r: seq<char>)
    ensures forall c :: c in r <==> c in s && c in other
    ensures NoDuplicates(s) ==> NoDuplicates(r)
    ensures |r| <= |s|
  {
    if s == [] then []
    else
      var before := Filter(s[..|s| - 1], other);
      if s[|s| - 1] in other then before + [s[|s| - 1]] else before
  }

  /** `gather_same_items`: each item type in both halves, once. */
  function GatherSameItems(left: seq<char>, right: seq<char>): (r: seq<char>)
    ensures NoDuplicates(r)
    ensures forall c :: c in r <==> c in left && c in right
  {
    Filter(Unique(left), right)
  }

  /** The items common to the first `k` rucksacks of a group. */
  function Common(group: seq<string>, k: nat): (r: seq<char>)
    requires 1 <= k <= |group|
    ensures NoDuplicates(r)
    ensures forall c :: c in r <==> forall j :: 0 <= j < k ==> c in group[j]
  {
    if k == 1 then Unique(group[0]) else Filter(Common(group, k - 1), group[k - 1])
  }

  /** `gather_same_items_in_rucksack_group`: the unique items of the first
      rucksack, narrowed by every other rucksack in turn. An empty group
      panics. */
  method GatherSameItemsInGroup(group: seq<string>) returns (same: seq<char>)
    requires |group| >= 1
    ensures same == Common(group, |group|)
    ensures NoDuplicates(same)
    ensures forall c :: c in same <==> forall j :: 0 <= j < |group| ==> c in group[j]
  {
    same := Unique(group[0]);
    for k := 1 to |group|
      invariant same == Common(group, k)
    {
      same := Filter(same, group[k]);
    }
  }

  predicate IsLetter(c: char) {
    'A' <= c <= 'Z' || 'a' <= c <= 'z'
  }

  /** `priority_of_item`: a..z are 1..26, A..Z are 27..52; any other
      character panics. */
  function Priority(c: char): (p: nat)
    requires IsLetter(c)
    ensures 1 <= p <= 52
    ensures 'a' <= c <= 'z' <==> p <= 26
  {
    if 'A' <= c <= 'Z' then c as nat - 38 else c as nat - 96
  }

  /** Different letters have different priorities. */
  lemma PriorityInjective(c: char, d: char)
    requires IsLetter(c) && IsLetter(d)
    ensures Priority(c) == Priority(d) <==> c == d
  {
  }

  function PrioritySum(items: seq<char>): (n: nat)
    requires forall k :: 0 <= k < |items| ==> IsLetter(items[k])
    ensures |items| <= n <= 52 * |items|
  {
    if items == [] then 0 else PrioritySum(items[..|items| - 1]) + Priority(items[|items| - 1])
  }

  /** `chunks(3)`: consecutive groups of `n`, the last one possibly shorter. */
  function Chunks(lines: seq<string>, n: nat): (r: seq<seq<string>>)
    requires n >= 1
    ensures forall k :: 0 <= k < |r| ==> 1 <= |r[k]| <= n
    ensures forall k :: 0 <= k < |r| - 1 ==> |r[k]| == n
    decreases |lines|
  {
    if |lines| <= n then (if lines == [] then [] else [lines])
    else [lines[..n]] + Chunks(lines[n..], n)
  }

  function Concat(chunks: seq<seq<string>>): seq<string> {
    if chunks == [] then [] else chunks[0] + Concat(chunks[1..])
  }

  /** The chunks, put back together, are the lines. */
  lemma {:induction false} ChunksConcat(lines: seq<string>, n: nat)
    requires n >= 1
    ensures Concat(Chunks(lines, n)) == lines
    decreases |lines|
  {
    if |lines| > n {
      ChunksConcat(lines[n..], n);
      assert Chunks(lines, n)[1..] == Chunks(lines[n..], n);
      assert lines[..n] + lines[n..] == lines;
    } else if lines != [] {
      assert Chunks(lines, n)[1..] == [];
    }
  }
}
