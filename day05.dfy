/** Supply stacks: crates moved between stacks by two kinds of crane. Each
    stack lists its crates bottom first. */
module Day05 {
  import opened Wrappers
  import Text

  datatype Instruction = Instruction(amount: nat, from: nat, to: nat)

  function Reverse<T>(s: seq<T>): (r: seq<T>)
    ensures |r| == |s|
    ensures forall i :: 0 <= i < |s| ==> r[i] == s[|s| - 1 - i]
  {
    if s == [] then [] else Reverse(s[1..]) + [s[0]]
  }

  /** The crates of stack `k`'s top `n`, bottom first. */
  function Top(stacks: seq<seq<char>>, k: nat, n: nat): seq<char>
    requires k < |stacks| && n <= |stacks[k]|
  {
    stacks[k][|stacks[k]| - n..]
  }

  /** What `execute_instruction` needs to run without a panic: both stack
      numbers exist and every `pop` finds a crate. When source and destination
      coincide each popped crate is pushed straight back, so one crate is
      enough. */
  predicate CanMove9000(stacks: seq<seq<char>>, inst: Instruction) {
    inst.from < |stacks| && inst.to < |stacks| &&
    (if inst.from == inst.to then inst.amount == 0 || |stacks[inst.from]| >= 1
     else |stacks[inst.from]| >= inst.amount)
  }

  /** The stacks after the one-crate-at-a-time crane: the top `amount` crates
      of the source land on the destination in reverse order. */
  function Move9000(stacks: seq<seq<char>>, inst: Instruction): seq<seq<char>>
    requires CanMove9000(stacks, inst)
  {
    if inst.from == inst.to then stacks
    else
      var s := stacks[inst.from];
      var n := inst.amount;
      stacks[inst.from := s[..|s| - n]][inst.to := stacks[inst.to] + Reverse(Top(stacks, inst.from, n))]
  }

  /** What `execute_instruction9001` needs: the stack numbers exist and
      `len - amount` does not underflow. */
  predicate CanMove9001(stacks: seq<seq<char>>, inst: Instruction) {
    inst.from < |stacks| && inst.to < |stacks| && inst.amount <= |stacks[inst.from]|
  }

  /** The stacks after the many-crates-at-once crane: the top `amount` crates
      keep their order. */
  function Move9001(stacks: seq<seq<char>>, inst: Instruction): seq<seq<char>>
    requires CanMove9001(stacks, inst)
  {
    if inst.from == inst.to then stacks
    else
      var s := stacks[inst.from];
      var n := inst.amount;
      stacks[inst.from := s[..|s| - n]][inst.to := stacks[inst.to] + Top(stacks, inst.from, n)]
  }

  lemma Move9000None(stacks: seq<seq<char>>, from: nat, to: nat)
    requires from < |stacks| && to < |stacks|
    ensures CanMove9000(stacks, Instruction(0, from, to))
    ensures Move9000(stacks, Instruction(0, from, to)) == stacks
  {
    var s := stacks[from];
    assert s[..|s| - 0] == s;
    assert Top(stacks, from, 0) == [];
    assert stacks[to] + Reverse([]) == stacks[to];
  }

  /** One more crate: pop the source and push the crate onto the destination. */
  lemma Move9000Step(stacks: seq<seq<char>>, inst: Instruction)
    requires CanMove9000(stacks, inst)
    requires CanMove9000(stacks, Instruction(inst.amount + 1, inst.from, inst.to))
    ensures var st := Move9000(stacks, inst);
      var s := st[inst.from];
      |s| >= 1 &&
      Move9000(stacks, Instruction(inst.amount + 1, inst.from, inst.to)) ==
        st[inst.from := s[..|s| - 1]][inst.to := st[inst.from := s[..|s| - 1]][inst.to] + [s[|s| - 1]]]
  {
    var st := Move9000(stacks, inst);
    var s := st[inst.from];
    if inst.from == inst.to {
      assert s[..|s| - 1] + [s[|s| - 1]] == s;
    } else {
      var o := stacks[inst.from];
      var i := inst.amount;
      assert s == o[..|o| - i];
      assert s[..|s| - 1] == o[..|o| - (i + 1)];
      var x := o[|o| - (i + 1)];
      assert s[|s| - 1] == x;
      var top, top' := Top(stacks, inst.from, i), Top(stacks, inst.from, i + 1);
      assert top' == [x] + top;
      assert top'[1..] == top;
      assert Reverse(top') == Reverse(top) + [x];
      var t := stacks[inst.to];
      assert st[inst.from := s[..|s| - 1]][inst.to] == t + Reverse(top);
      assert (t + Reverse(top)) + [x] == t + Reverse(top');
    }
  }

  class Ship {
    var stacks: seq<seq<char>>

    constructor(stacks: seq<seq<char>>)
      ensures this.stacks == stacks
    {
      this.stacks := stacks;
    }

    /** `execute_instruction`: pop from the source and push onto the
        destination, `amount` times. */
    method ExecuteInstruction(inst: Instruction)
      requires CanMove9000(stacks, inst)
      modifies this
      ensures stacks == Move9000(old(stacks), inst)
    {
      Move9000None(stacks, inst.from, inst.to);
      var i := 0;
      while i < inst.amount
        invariant 0 <= i <= inst.amount
        invariant CanMove9000(old(stacks), Instruction(i, inst.from, inst.to))
        invariant stacks == Move9000(old(stacks), Instruction(i, inst.from, inst.to))
      {
        Move9000Step(old(stacks), Instruction(i, inst.from, inst.to));
        var s := stacks[inst.from];
        var movingCrate := s[|s| - 1];
        stacks := stacks[inst.from := s[..|s| - 1]];
        stacks := stacks[inst.to := stacks[inst.to] + [movingCrate]];
        i := i + 1;
      }
    }

    /** `execute_instruction9001`: `split_off` the top `amount` crates and
        `append` them to the destination. */
    method ExecuteInstruction9001(inst: Instruction)
      requires CanMove9001(stacks, inst)
      modifies this
      ensures stacks == Move9001(old(stacks), inst)
    {
      var splitAt := |stacks[inst.from]| - inst.amount;
      var movingCrates := stacks[inst.from][splitAt..];
      assert stacks[inst.from][..splitAt] + movingCrates == stacks[inst.from];
      stacks := stacks[inst.from := stacks[inst.from][..splitAt]];
      stacks := stacks[inst.to := stacks[inst.to] + movingCrates];
    }

    /** `top_of_stacks`: the top crate of every stack, in stack order. An
        empty stack makes `last().unwrap()` panic. */
    method TopOfStacks() returns (result: string)
      requires forall k :: 0 <= k < |stacks| ==> stacks[k] != []
      ensures |result| == |stacks|
      ensures forall k :: 0 <= k < |stacks| ==> result[k] == stacks[k][|stacks[k]| - 1]
    {
      result := "";
      for k := 0 to |stacks|
        invariant |result| == k
        invariant forall j :: 0 <= j < k ==> result[j] == stacks[j][|stacks[j]| - 1]
      {
        result := result + [stacks[k][|stacks[k]| - 1]];
      }
    }
  }

  /** All crates on the ship, counted with multiplicity. */
  function AllCrates(stacks: seq<seq<char>>): multiset<char> {
    if stacks == [] then multiset{} else multiset(stacks[0]) + AllCrates(stacks[1..])
  }

  function TotalCrates(stacks: seq<seq<char>>): nat {
    if stacks == [] then 0 else |stacks[0]| + TotalCrates(stacks[1..])
  }

  lemma {:induction false} TotalIsSize(stacks: seq<seq<char>>)
    ensures |AllCrates(stacks)| == TotalCrates(stacks)
  {
    if stacks != [] {
      TotalIsSize(stacks[1..]);
    }
  }

  lemma {:induction false} AllCratesUpdate(stacks: seq<seq<char>>, k: nat, v: seq<char>)
    requires k < |stacks|
    ensures AllCrates(stacks[k := v]) + multiset(stacks[k]) == AllCrates(stacks) + multiset(v)
  {
    var u := stacks[k := v];
    var a := stacks[0];
    if k == 0 {
      assert u[1..] == stacks[1..];
      calc {
        AllCrates(u) + multiset(stacks[k]);
        multiset(v) + AllCrates(stacks[1..]) + multiset(a);
        multiset(a) + AllCrates(stacks[1..]) + multiset(v);
        AllCrates(stacks) + multiset(v);
      }
    } else {
      var rest := stacks[1..];
      assert u[1..] == rest[k - 1 := v];
      assert rest[k - 1] == stacks[k];
      AllCratesUpdate(rest, k - 1, v);
      calc {
        AllCrates(u) + multiset(stacks[k]);
        multiset(a) + AllCrates(rest[k - 1 := v]) + multiset(rest[k - 1]);
        multiset(a) + (AllCrates(rest[k - 1 := v]) + multiset(rest[k - 1]));
        multiset(a) + (AllCrates(rest) + multiset(v));
        AllCrates(stacks) + multiset(v);
      }
    }
  }

  lemma Cancel(x: multiset<char>, y: multiset<char>, c: multiset<char>)
    requires x + c == y + c
    ensures x == y
  {
    forall e ensures x[e] == y[e] {
      assert (x + c)[e] == (y + c)[e];
    }
  }

  lemma MoveBlockKeepsCrates(stacks: seq<seq<char>>, from: nat, to: nat, n: nat, block: seq<char>)
    requires from < |stacks| && to < |stacks| && from != to && n <= |stacks[from]|
    requires multiset(block) == multiset(Top(stacks, from, n))
    ensures var s := stacks[from];
      AllCrates(stacks[from := s[..|s| - n]][to := stacks[to] + block]) == AllCrates(stacks)
  {
    var s := stacks[from];
    var p, top := s[..|s| - n], Top(stacks, from, n);
    var mid := stacks[from := p];
    var final := mid[to := stacks[to] + block];
    assert s == p + top;
    assert multiset(s) == multiset(p) + multiset(top);
    AllCratesUpdate(stacks, from, p);
    assert mid[to] == stacks[to];
    AllCratesUpdate(mid, to, stacks[to] + block);
    assert multiset(stacks[to] + block) == multiset(stacks[to]) + multiset(top);
    Cancel(AllCrates(final), AllCrates(mid) + multiset(top), multiset(stacks[to]));
    Cancel(AllCrates(mid) + multiset(top), AllCrates(stacks), multiset(p));
  }

  lemma {:induction false} ReverseMultiset<T>(s: seq<T>)
    ensures multiset(Reverse(s)) == multiset(s)
  {
    if s != [] {
      ReverseMultiset(s[1..]);
      assert s == [s[0]] + s[1..];
    }
  }

  /** The first crane keeps every crate on the ship, and so their number. */
  lemma Move9000KeepsCrates(stacks: seq<seq<char>>, inst: Instruction)
    requires CanMove9000(stacks, inst)
    ensures AllCrates(Move9000(stacks, inst)) == AllCrates(stacks)
    ensures TotalCrates(Move9000(stacks, inst)) == TotalCrates(stacks)
  {
    if inst.from != inst.to {
      ReverseMultiset(Top(stacks, inst.from, inst.amount));
      MoveBlockKeepsCrates(stacks, inst.from, inst.to, inst.amount, Reverse(Top(stacks, inst.from, inst.amount)));
    }
    TotalIsSize(stacks);
    TotalIsSize(Move9000(stacks, inst));
  }

  /** The second crane keeps every crate on the ship, and so their number. */
  lemma Move9001KeepsCrates(stacks: seq<seq<char>>, inst: Instruction)
    requires CanMove9001(stacks, inst)
    ensures AllCrates(Move9001(stacks, inst)) == AllCrates(stacks)
    ensures TotalCrates(Move9001(stacks, inst)) == TotalCrates(stacks)
  {
    if inst.from != inst.to {
      var s, block := stacks[inst.from], Top(stacks, inst.from, inst.amount);
      MoveBlockKeepsCrates(stacks, inst.from, inst.to, inst.amount, block);
      assert Move9001(stacks, inst) == stacks[inst.from := s[..|s| - inst.amount]][inst.to := stacks[inst.to] + block];
    }
    TotalIsSize(stacks);
    TotalIsSize(Move9001(stacks, inst));
  }

  /** Both cranes leave the other stacks alone, shorten the source by
      `amount` and put the same crates on the destination: the first crane in
      reverse order, the second in the original order. */
  lemma CranesCompared(stacks: seq<seq<char>>, inst: Instruction)
    requires CanMove9001(stacks, inst) && inst.from != inst.to
    ensures CanMove9000(stacks, inst)
    ensures var a, b := Move9000(stacks, inst), Move9001(stacks, inst);
      |a| == |b| == |stacks| &&
      (forall k :: 0 <= k < |stacks| && k != inst.from && k != inst.to ==> a[k] == b[k] == stacks[k]) &&
      a[inst.from] == b[inst.from] == stacks[inst.from][..|stacks[inst.from]| - inst.amount] &&
      |a[inst.to]| == |b[inst.to]| == |stacks[inst.to]| + inst.amount &&
      a[inst.to][..|stacks[inst.to]|] == b[inst.to][..|stacks[inst.to]|] == stacks[inst.to] &&
      a[inst.to][|stacks[inst.to]|..] == Reverse(b[inst.to][|stacks[inst.to]|..]) &&
      b[inst.to][|stacks[inst.to]|..] == Top(stacks, inst.from, inst.amount)
  {
    var t := stacks[inst.to];
    var top := Top(stacks, inst.from, inst.amount);
    assert Move9000(stacks, inst)[inst.to] == t + Reverse(top);
    assert Move9001(stacks, inst)[inst.to] == t + top;
    assert (t + Reverse(top))[|t|..] == Reverse(top);
    assert (t + top)[|t|..] == top;
  }

  /** Moving one crate is the same for both cranes. */
  lemma SingleCrateAgrees(stacks: seq<seq<char>>, from: nat, to: nat)
    requires CanMove9001(stacks, Instruction(1, from, to))
    ensures CanMove9000(stacks, Instruction(1, from, to))
    ensures Move9000(stacks, Instruction(1, from, to)) == Move9001(stacks, Instruction(1, from, to))
  {
    var top := Top(stacks, from, 1);
    assert Reverse(top) == top;
  }

  datatype ParseError = WrongFormat | Panic

  /** One field of an instruction: `parse::<u32>().unwrap()`, which panics on
      anything but a number below 2^32. */
  function ParseField(w: string): (r: Result<nat, ParseError>)
    ensures r.Success? ==> r.value < 0x1_0000_0000
    ensures r.Failure? ==> r.error == Panic
  {
    match Text.ParseNat(w)
    case Some(n) => if n < 0x1_0000_0000 then Success(n) else Failure(Panic)
    case None => Failure(Panic)
  }

  /** `Instruction::try_from`: the line must have exactly six words; words 1,
      3 and 5 are the amount and the 1-based stack numbers, stored 0-based.
      Stack number 0 underflows the `u32` subtraction and panics. */
  function ParseInstruction(line: string): (r: Result<Instruction, ParseError>)
    ensures r == Failure(WrongFormat) <==> |Text.SplitWhitespace(line)| != 6
    ensures r.Success? ==> FieldsAre(Text.SplitWhitespace(line), r.value)
  {
    var w := Text.SplitWhitespace(line);
    if |w| != 6 then Failure(WrongFormat) else FromWords(w)
  }

  /** Words 1, 3 and 5 hold the instruction's amount and 1-based stack numbers. */
  predicate FieldsAre(w: seq<string>, inst: Instruction) {
    |w| == 6 &&
    ParseField(w[1]) == Success(inst.amount) &&
    ParseField(w[3]) == Success(inst.from + 1) &&
    ParseField(w[5]) == Success(inst.to + 1)
  }

  /** The fields of a six-word line; the words `move`, `from` and `to` are not
      checked. */
  function FromWords(w: seq<string>): (r: Result<Instruction, ParseError>)
    requires |w| == 6
    ensures r.Failure? ==> r.error == Panic
    ensures r.Success? ==> FieldsAre(w, r.value)
    ensures (exists inst :: FieldsAre(w, inst)) ==> r.Success?
  {
    var n, f, t := ParseField(w[1]), ParseField(w[3]), ParseField(w[5]);
    if n.Failure? || f.Failure? || t.Failure? || f.value == 0 || t.value == 0 then Failure(Panic)
    else Success(Instruction(n.value, f.value - 1, t.value - 1))
  }

  /** The puzzle's own wording of an instruction. */
  function ShowInstruction(inst: Instruction): string {
    Text.JoinWords(InstructionWords(inst))
  }

  function InstructionWords(inst: Instruction): (w: seq<string>)
    ensures |w| == 6
  {
    ["move", Text.NatToString(inst.amount), "from", Text.NatToString(inst.from + 1),
     "to", Text.NatToString(inst.to + 1)]
  }

  lemma NumberIsWord(n: nat)
    ensures Text.IsWord(Text.NatToString(n))
  {
    var s := Text.NatToString(n);
    forall i | 0 <= i < |s| ensures !Text.IsWhitespace(s[i]) {
      assert Text.IsDigit(s[i]);
    }
  }

  lemma KeywordsAreWords()
    ensures Text.IsWord("move") && Text.IsWord("from") && Text.IsWord("to")
  {
  }

  lemma WordsOfShowInstruction(inst: Instruction)
    ensures Text.SplitWhitespace(ShowInstruction(inst)) == InstructionWords(inst)
  {
    var w := InstructionWords(inst);
    NumberIsWord(inst.amount);
    NumberIsWord(inst.from + 1);
    NumberIsWord(inst.to + 1);
    KeywordsAreWords();
    assert forall k :: 0 <= k < |w| ==> Text.IsWord(w[k]) by {
      assert w[0] == "move" && w[2] == "from" && w[4] == "to";
    }
    Text.SplitWhitespaceOfJoinWords(w);
  }

  lemma FieldsOfWords(inst: Instruction)
    requires inst.amount < 0x1_0000_0000 && inst.from + 1 < 0x1_0000_0000 && inst.to + 1 < 0x1_0000_0000
    ensures FieldsAre(InstructionWords(inst), inst)
  {
    var w := InstructionWords(inst);
    Text.ParseNatOfNatToString(inst.amount);
    Text.ParseNatOfNatToString(inst.from + 1);
    Text.ParseNatOfNatToString(inst.to + 1);
    assert w[1] == Text.NatToString(inst.amount);
    assert w[3] == Text.NatToString(inst.from + 1);
    assert w[5] == Text.NatToString(inst.to + 1);
  }

  /** Every instruction that fits the `u32` fields parses back from its
      wording. */
  lemma ParseShowInstruction(inst: Instruction)
    requires inst.amount < 0x1_0000_0000 && inst.from + 1 < 0x1_0000_0000 && inst.to + 1 < 0x1_0000_0000
    ensures ParseInstruction(ShowInstruction(inst)) == Success(inst)
  {
    var line := ShowInstruction(inst);
    WordsOfShowInstruction(inst);
    FieldsOfWords(inst);
    var w := Text.SplitWhitespace(line);
    assert FieldsAre(w, inst);
    var r := ParseInstruction(line);
    assert r == FromWords(w);
    assert r.Success? && FieldsAre(w, r.value);
  }
}
