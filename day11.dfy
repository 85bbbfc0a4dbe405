/** Monkeys throwing items. In the second part an item keeps, instead of
    its worry level, the remainder of that level for every monkey's test
    divisor, which is enough to answer every divisibility test. */
module Day11 {
  import opened Arith

  datatype Operation = Square | Add(x: nat) | Multiply(x: nat)

  /** The worry level after a monkey inspects an item. */
  function Apply(op: Operation, v: nat): nat {
    match op
    case Square => v * v
    case Add(x) => v + x
    case Multiply(x) => v * x
  }

  /** The operation respects remainders: applying it to anything with the
      same remainder gives a result with the same remainder. */
  lemma ApplyResidue(op: Operation, r: nat, w: nat, m: nat)
    requires m > 0 && r % m == w % m
    ensures Apply(op, r) % m == Apply(op, w) % m
  {
    match op
    case Square =>
      ModMul(r, r, m);
      ModMul(w, w, m);
    case Add(x) =>
      ModAdd(r, x, m);
      ModAdd(w, x, m);
    case Multiply(x) =>
      ModMul(r, x, m);
      ModMul(w, x, m);
  }

  /** What an item holds: its starting value, its part-one worry level and
      its (divisor, remainder) pairs. */
  datatype ItemState = ItemState(startingValue: nat, currentValue: nat, moduli: seq<(nat, nat)>)

  predicate ModuliPositive(s: ItemState) {
    forall i :: 0 <= i < |s.moduli| ==> s.moduli[i].0 > 0
  }

  /** Every remainder is the worry level `w` modulo its divisor. */
  predicate Tracks(s: ItemState, w: nat) {
    forall i :: 0 <= i < |s.moduli| ==> s.moduli[i].0 > 0 && s.moduli[i].1 == w % s.moduli[i].0
  }

  function Residues(v: nat, modList: seq<nat>): (r: seq<(nat, nat)>)
    requires forall i :: 0 <= i < |modList| ==> modList[i] > 0
    ensures |r| == |modList|
  {
    seq(|modList|, i requires 0 <= i < |modList| => (modList[i], v % modList[i]))
  }

  /** `Item::init`: the worry level restarts, and a remainder of the
      starting value is appended for every divisor. */
  function InitState(s: ItemState, modList: seq<nat>): ItemState
    requires forall i :: 0 <= i < |modList| ==> modList[i] > 0
  {
    s.(currentValue := s.startingValue, moduli := s.moduli + Residues(s.startingValue, modList))
  }

  /** A fresh item, once initialised, tracks its starting value. */
  lemma InitTracks(s: ItemState, modList: seq<nat>)
    requires forall i :: 0 <= i < |modList| ==> modList[i] > 0
    requires Tracks(s, s.startingValue)
    ensures Tracks(InitState(s, modList), s.startingValue)
    ensures InitState(s, modList).currentValue == s.startingValue
  {
  }

  /** `Item::calculate`: part one applies the operation and divides by
      three; part two applies it to each remainder and reduces it again. */
  function CalculateState(s: ItemState, op: Operation, part2: bool): (r: ItemState)
    requires part2 ==> ModuliPositive(s)
    ensures |r.moduli| == |s.moduli| && r.startingValue == s.startingValue
    ensures forall i :: 0 <= i < |s.moduli| ==> r.moduli[i].0 == s.moduli[i].0
  {
    if !part2 then s.(currentValue := Apply(op, s.currentValue) / 3)
    else s.(moduli := seq(|s.moduli|, i requires 0 <= i < |s.moduli| => (s.moduli[i].0, Apply(op, s.moduli[i].1) % s.moduli[i].0)))
  }

  /** Calculating on remainders gives the remainders of the new worry
      level, each below its divisor. */
  lemma CalculateTracks(s: ItemState, op: Operation, w: nat)
    requires Tracks(s, w)
    ensures Tracks(CalculateState(s, op, true), Apply(op, w))
    ensures forall i :: 0 <= i < |s.moduli| ==> CalculateState(s, op, true).moduli[i].1 < s.moduli[i].0
  {
    var r := CalculateState(s, op, true);
    forall i | 0 <= i < |s.moduli|
      ensures r.moduli[i].1 == Apply(op, w) % s.moduli[i].0
    {
      var m := s.moduli[i].0;
      assert s.moduli[i].1 % m == w % m by {
        DivModUnique(s.moduli[i].1, m, 0, w % m);
      }
      ApplyResidue(op, s.moduli[i].1, w, m);
    }
  }

  /** The first place whose divisor is `d`. */
  function FirstDivisor(moduli: seq<(nat, nat)>, d: nat): (i: nat)
    requires exists i :: 0 <= i < |moduli| && moduli[i].0 == d
    ensures i < |moduli| && moduli[i].0 == d
    ensures forall j :: 0 <= j < i ==> moduli[j].0 != d
  {
    if moduli[0].0 == d then 0
    else
      assert exists i :: 0 <= i < |moduli[1..]| && moduli[1..][i].0 == d by {
        var i :| 0 <= i < |moduli| && moduli[i].0 == d;
        assert moduli[1..][i - 1].0 == d;
      }
      1 + FirstDivisor(moduli[1..], d)
  }

  predicate HasDivisor(s: ItemState, d: nat) {
    exists i :: 0 <= i < |s.moduli| && s.moduli[i].0 == d
  }

  /** `Item::test`: part one tests the worry level; part two the remainder
      kept for that divisor (a divisor the item does not keep is
      unreachable). */
  function TestState(s: ItemState, testParameter: nat, part2: bool): bool
    requires !part2 ==> testParameter > 0
    requires part2 ==> HasDivisor(s, testParameter)
  {
    if !part2 then s.currentValue % testParameter == 0
    else s.moduli[FirstDivisor(s.moduli, testParameter)].1 == 0
  }

  /** On an item that tracks `w`, the part-two test is the divisibility of
      `w`. */
  lemma TestTracks(s: ItemState, testParameter: nat, w: nat)
    requires Tracks(s, w) && HasDivisor(s, testParameter)
    ensures TestState(s, testParameter, true) <==> w % testParameter == 0
  {
  }

  class Item {
    const startingValue: nat
    var currentValue: nat
    var moduli: seq<(nat, nat)>
    /** The worry level the remainders stand for. */
    ghost var worry: nat

    function State(): ItemState
      reads this
    {
      ItemState(startingValue, currentValue, moduli)
    }

    /** A parsed item: its starting value, no worry level yet and no
        remainders. */
    constructor (startingValue: nat)
      ensures State() == ItemState(startingValue, 0, [])
      ensures worry == startingValue
    {
      this.startingValue := startingValue;
      currentValue := 0;
      moduli := [];
      worry := startingValue;
    }

    method Init(modList: seq<nat>)
      requires forall i :: 0 <= i < |modList| ==> modList[i] > 0
      modifies this
      ensures State() == InitState(old(State()), modList)
      ensures worry == startingValue
    {
      currentValue := startingValue;
      ghost var before := moduli;
      for k := 0 to |modList|
        invariant moduli == before + Residues(startingValue, modList)[..k]
        invariant currentValue == startingValue
      {
        moduli := moduli + [(modList[k], startingValue % modList[k])];
        assert Residues(startingValue, modList)[..k + 1] == Residues(startingValue, modList)[..k] + [(modList[k], startingValue % modList[k])];
      }
      assert Residues(startingValue, modList)[..|modList|] == Residues(startingValue, modList);
      worry := startingValue;
    }

    method Calculate(op: Operation, part2: bool)
      requires part2 ==> ModuliPositive(State())
      modifies this
      ensures State() == CalculateState(old(State()), op, part2)
      ensures worry == Apply(op, old(worry))
    {
      worry := Apply(op, worry);
      if !part2 {
        var value := currentValue;
        var newValue := Apply(op, value);
        newValue := newValue / 3;
        currentValue := newValue;
        return;
      }
      ghost var target := CalculateState(State(), op, part2).moduli;
      ghost var before := moduli;
      for i := 0 to |moduli|
        invariant currentValue == old(currentValue) && worry == Apply(op, old(worry))
        invariant |moduli| == |before|
        invariant forall j :: 0 <= j < i ==> moduli[j] == target[j]
        invariant forall j :: i <= j < |moduli| ==> moduli[j] == before[j]
      {
        var (modulos, value) := moduli[i];
        var newValue := Apply(op, value);
        moduli := moduli[i := (modulos, newValue % modulos)];
      }
      assert moduli == target;
    }

    method Test(testParameter: nat, part2: bool) returns (r: bool)
      requires !part2 ==> testParameter > 0
      requires part2 ==> HasDivisor(State(), testParameter)
      ensures r == TestState(State(), testParameter, part2)
    {
      if !part2 {
        return currentValue % testParameter == 0;
      }
      var first := FirstDivisor(moduli, testParameter);
      for i := 0 to |moduli|
        invariant i <= first
      {
        if moduli[i].0 == testParameter {
          return moduli[i].1 == 0;
        }
      }
      assert false;
    }

    /** `item.clone()`. */
    method Clone() returns (c: Item)
      ensures fresh(c) && c.State() == State() && c.worry == worry
    {
      c := new Item(startingValue);
      c.currentValue := currentValue;
      c.moduli := moduli;
      c.worry := worry;
    }
  }

  /** The item state a monkey can handle in the given part. */
  predicate CanHandle(s: ItemState, testParameter: nat, part2: bool) {
    (!part2 ==> testParameter > 0) && (part2 ==> ModuliPositive(s) && HasDivisor(s, testParameter))
  }

  /** Calculating keeps an item one the monkeys can handle. */
  lemma CalculateKeepsHandled(s: ItemState, op: Operation, testParameter: nat, part2: bool)
    requires CanHandle(s, testParameter, part2)
    ensures CanHandle(CalculateState(s, op, part2), testParameter, part2)
  {
    if part2 {
      var i :| 0 <= i < |s.moduli| && s.moduli[i].0 == testParameter;
      assert CalculateState(s, op, part2).moduli[i].0 == testParameter;
    }
  }

  /** Where an item is thrown after inspection, and the inspected item. */
  function Throw(s: ItemState, op: Operation, testParameter: nat, nextOnTrue: nat, nextOnFalse: nat, part2: bool): (r: (nat, ItemState))
    requires CanHandle(s, testParameter, part2)
    ensures r.1 == CalculateState(s, op, part2)
    ensures r.0 == nextOnTrue || r.0 == nextOnFalse
  {
    CalculateKeepsHandled(s, op, testParameter, part2);
    var n := CalculateState(s, op, part2);
    (if TestState(n, testParameter, part2) then nextOnTrue else nextOnFalse, n)
  }

  /** In part two, an item tracking `w` goes to the true-monkey exactly when
      the new worry level is divisible by the test divisor. */
  lemma ThrowByWorry(s: ItemState, op: Operation, testParameter: nat, nextOnTrue: nat, nextOnFalse: nat, w: nat)
    requires nextOnTrue != nextOnFalse
    requires Tracks(s, w) && HasDivisor(s, testParameter)
    ensures Throw(s, op, testParameter, nextOnTrue, nextOnFalse, true).0 == nextOnTrue <==> Apply(op, w) % testParameter == 0
    ensures Tracks(Throw(s, op, testParameter, nextOnTrue, nextOnFalse, true).1, Apply(op, w))
  {
    CalculateTracks(s, op, w);
    CalculateKeepsHandled(s, op, testParameter, true);
    TestTracks(CalculateState(s, op, true), testParameter, Apply(op, w));
  }

  function States(items: seq<Item>): (r: seq<ItemState>)
    reads items
    ensures |r| == |items|
  {
    seq(|items|, k requires 0 <= k < |items| reads items => items[k].State())
  }

  function Targets(thrown: seq<(nat, Item)>): (r: seq<(nat, ItemState)>)
    reads set k | 0 <= k < |thrown| :: thrown[k].1
    ensures |r| == |thrown|
  {
    seq(|thrown|, k requires 0 <= k < |thrown| reads set k | 0 <= k < |thrown| :: thrown[k].1 => (thrown[k].0, thrown[k].1.State()))
  }

  class Monkey {
    var items: seq<Item>
    const operation: Operation
    const testParameter: nat
    const nextOnTrue: nat
    const nextOnFalse: nat

    constructor (items: seq<Item>, operation: Operation, testParameter: nat, nextOnTrue: nat, nextOnFalse: nat)
      ensures this.items == items && this.operation == operation && this.testParameter == testParameter
      ensures this.nextOnTrue == nextOnTrue && this.nextOnFalse == nextOnFalse
    {
      this.items := items;
      this.operation := operation;
      this.testParameter := testParameter;
      this.nextOnTrue := nextOnTrue;
      this.nextOnFalse := nextOnFalse;
    }

    /** The body of `turn` for one item: a copy of it gets the new worry
        level, and the test picks the monkey it is thrown to. */
    method Inspect(item: Item, part2: bool) returns (nextMonkey: nat, newItem: Item)
      requires CanHandle(item.State(), testParameter, part2)
      ensures fresh(newItem)
      ensures (nextMonkey, newItem.State()) == Throw(item.State(), operation, testParameter, nextOnTrue, nextOnFalse, part2)
      ensures newItem.worry == Apply(operation, item.worry)
    {
      newItem := item.Clone();
      newItem.Calculate(operation, part2);
      CalculateKeepsHandled(item.State(), operation, testParameter, part2);
      var passed := newItem.Test(testParameter, part2);
      nextMonkey := if passed then nextOnTrue else nextOnFalse;
    }

    /** `Monkey::turn`: a copy of every held item is inspected, tested and
        thrown; afterwards the monkey holds nothing. */
    method Turn(part2: bool) returns (thrown: seq<(nat, Item)>)
      requires forall k :: 0 <= k < |items| ==> CanHandle(items[k].State(), testParameter, part2)
      modifies this
      ensures items == []
      ensures |thrown| == |old(items)|
      ensures forall k :: 0 <= k < |thrown| ==> fresh(thrown[k].1)
      ensures forall k :: 0 <= k < |thrown| ==>
        Targets(thrown)[k] == Throw(old(States(items))[k], operation, testParameter, nextOnTrue, nextOnFalse, part2)
      ensures forall k :: 0 <= k < |thrown| ==> thrown[k].1.worry == Apply(operation, old(items[k].worry))
    {
      thrown := [];
      for k := 0 to |items|
        invariant items == old(items)
        invariant |thrown| == k
        invariant forall j :: 0 <= j < k ==> fresh(thrown[j].1)
        invariant forall j :: 0 <= j < k ==>
          Targets(thrown)[j] == Throw(States(items)[j], operation, testParameter, nextOnTrue, nextOnFalse, part2)
        invariant forall j :: 0 <= j < k ==> thrown[j].1.worry == Apply(operation, items[j].worry)
      {
        var nextMonkey, newItem := Inspect(items[k], part2);
        thrown := thrown + [(nextMonkey, newItem)];
      }
      items := [];
    }
  }
}
