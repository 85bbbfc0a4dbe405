/** Valves and tunnels: the dynamic-programming table of the best pressure
    release per time left, position and set of closed valves, and the split
    of the valves between two workers. */
module Day16 {
  import Arith

  /** A valve with its flow rate and the indices of its neighbours. */
  datatype Node = Node(flow: nat, neighbors: seq<nat>)

  predicate ValidGraph(graph: seq<Node>) {
    forall n, j :: 0 <= n < |graph| && 0 <= j < |graph[n].neighbors| ==> graph[n].neighbors[j] < |graph|
  }

  /** `1 << k`. */
  function Pow2(k: nat): (p: nat)
    ensures p >= 1
  {
    if k == 0 then 1 else 2 * Pow2(k - 1)
  }

  /** Bit `k` of `v` is set. */
  predicate Bit(v: nat, k: nat) {
    (v / Pow2(k)) % 2 == 1
  }

  /** `1 << current_node` on `u32`, with the shift amount taken modulo 32 as
      an optimised build does: the bit of node `n`. */
  function ValveBit(n: nat): nat {
    n % 32
  }

  /** `current_node_valve_bit & valve_configuration != 0`: the valve of
      node `n` is still closed in configuration `v`. */
  predicate Closed(n: nat, v: nat) {
    Bit(v, ValveBit(n))
  }

  /** `valve_configuration - current_node_valve_bit`: the configuration
      with the valve of node `n` opened. */
  function Opened(n: nat, v: nat): (r: nat)
    requires Closed(n, v)
    ensures r < v
    ensures !Closed(n, r)
  {
    ClearBit(v, ValveBit(n));
    v - Pow2(ValveBit(n))
  }

  lemma ClearBit(v: nat, b: nat)
    requires Bit(v, b)
    ensures v >= Pow2(b)
    ensures !Bit(v - Pow2(b), b)
  {
    var p := Pow2(b);
    var q, r := v / p, v % p;
    if v < p {
      Arith.DivModUnique(v, p, 0, v);
      assert false;
    }
    assert v == q * p + r;
    assert v - p == (q - 1) * p + r;
    Arith.DivModUnique(v - p, p, q - 1, r);
  }

  /** Bit `k + 1` of `a` is bit `k` of `a / 2`. */
  lemma BitOfHalf(a: nat, k: nat)
    ensures Bit(a, k + 1) <==> Bit(a / 2, k)
  {
    var p := Pow2(k);
    var q1, r1 := a / 2, a % 2;
    var q2, r2 := q1 / p, q1 % p;
    assert a == 2 * q1 + r1;
    assert q1 == p * q2 + r2;
    assert a == q2 * (2 * p) + (2 * r2 + r1);
    Arith.DivModUnique(a, 2 * p, q2, 2 * r2 + r1);
  }

  /** `me & elephant == 0` on naturals. */
  predicate Disjoint(a: nat, b: nat)
    decreases a
  {
    a == 0 || b == 0 || (!(a % 2 == 1 && b % 2 == 1) && Disjoint(a / 2, b / 2))
  }

  /** Two configurations are disjoint exactly when no valve is closed in
      both. */
  lemma {:induction false} DisjointMeansNoSharedValve(a: nat, b: nat)
    ensures Disjoint(a, b) <==> forall k: nat :: !(Bit(a, k) && Bit(b, k))
    decreases a
  {
    if a == 0 || b == 0 {
      forall k: nat ensures !(Bit(a, k) && Bit(b, k)) {
        ZeroHasNoBits(k);
      }
    } else {
      DisjointMeansNoSharedValve(a / 2, b / 2);
      forall k: nat ensures Bit(a, k + 1) == Bit(a / 2, k) && Bit(b, k + 1) == Bit(b / 2, k) {
        BitOfHalf(a, k);
        BitOfHalf(b, k);
      }
      assert Bit(a, 0) == (a % 2 == 1) && Bit(b, 0) == (b % 2 == 1);
      if Disjoint(a, b) {
        forall k: nat ensures !(Bit(a, k) && Bit(b, k)) {
          if k > 0 {
            assert Bit(a, k) == Bit(a / 2, k - 1) && Bit(b, k) == Bit(b / 2, k - 1);
          }
        }
      } else {
        if a % 2 == 1 && b % 2 == 1 {
          assert Bit(a, 0) && Bit(b, 0);
        } else {
          var k: nat :| Bit(a / 2, k) && Bit(b / 2, k);
          assert Bit(a, k + 1) && Bit(b, k + 1);
        }
      }
    }
  }

  lemma ZeroHasNoBits(k: nat)
    ensures !Bit(0, k)
  {
  }

  function Max(a: nat, b: nat): nat {
    if a < b then b else a
  }

  /** The value of opening the valve here: the table one minute later with
      the valve open, plus its flow for every remaining minute. Opening is
      considered only from `openFrom` minutes on. */
  function OpenValue(graph: seq<Node>, openFrom: nat, t: nat, n: nat, v: nat): nat
    requires ValidGraph(graph) && n < |graph| && t >= 1
    decreases t, 0, 0
  {
    if Closed(n, v) && t >= openFrom then Best(graph, openFrom, t - 1, n, Opened(n, v)) + graph[n].flow * t else 0
  }

  /** The larger of `acc` and the table entries one minute later at each
      of the nodes, with the same configuration. */
  function MaxNeighbors(graph: seq<Node>, openFrom: nat, t: nat, v: nat, nbs: seq<nat>, acc: nat): (r: nat)
    requires ValidGraph(graph)
    requires forall j :: 0 <= j < |nbs| ==> nbs[j] < |graph|
    decreases t, 2, |nbs|
  {
    if nbs == [] then acc
    else Max(MaxNeighbors(graph, openFrom, t, v, nbs[..|nbs| - 1], acc), Best(graph, openFrom, t, nbs[|nbs| - 1], v))
  }

  /** The table entry for `t` minutes left at node `n` with configuration
      `v`: zero at time zero, otherwise the better of opening here and
      moving to a neighbour. */
  function Best(graph: seq<Node>, openFrom: nat, t: nat, n: nat, v: nat): nat
    requires ValidGraph(graph) && n < |graph|
    decreases t, 1, 0
  {
    if t == 0 then 0
    else MaxNeighbors(graph, openFrom, t - 1, v, graph[n].neighbors, OpenValue(graph, openFrom, t, n, v))
  }

  lemma {:induction false} MaxNeighborsBounds(graph: seq<Node>, openFrom: nat, t: nat, v: nat, nbs: seq<nat>, acc: nat)
    requires ValidGraph(graph)
    requires forall j :: 0 <= j < |nbs| ==> nbs[j] < |graph|
    ensures MaxNeighbors(graph, openFrom, t, v, nbs, acc) >= acc
    ensures forall j :: 0 <= j < |nbs| ==> MaxNeighbors(graph, openFrom, t, v, nbs, acc) >= Best(graph, openFrom, t, nbs[j], v)
    ensures MaxNeighbors(graph, openFrom, t, v, nbs, acc) == acc
      || exists j :: 0 <= j < |nbs| && MaxNeighbors(graph, openFrom, t, v, nbs, acc) == Best(graph, openFrom, t, nbs[j], v)
  {
    if nbs != [] {
      var init := nbs[..|nbs| - 1];
      MaxNeighborsBounds(graph, openFrom, t, v, init, acc);
      assert forall j :: 0 <= j < |init| ==> init[j] == nbs[j];
    }
  }

  /** An entry is at least the entry at every neighbour one minute later,
      with the same configuration. */
  lemma BestAtLeastNeighbors(graph: seq<Node>, openFrom: nat, t: nat, n: nat, v: nat)
    requires ValidGraph(graph) && n < |graph| && t >= 1
    ensures forall j :: 0 <= j < |graph[n].neighbors| ==> Best(graph, openFrom, t, n, v) >= Best(graph, openFrom, t - 1, graph[n].neighbors[j], v)
  {
    MaxNeighborsBounds(graph, openFrom, t - 1, v, graph[n].neighbors, OpenValue(graph, openFrom, t, n, v));
  }

  /** An entry is at least the value of opening the valve here, when it is
      closed and opening is considered. */
  lemma BestAtLeastOpening(graph: seq<Node>, openFrom: nat, t: nat, n: nat, v: nat)
    requires ValidGraph(graph) && n < |graph| && t >= 1
    requires Closed(n, v) && t >= openFrom
    ensures Best(graph, openFrom, t, n, v) >= Best(graph, openFrom, t - 1, n, Opened(n, v)) + graph[n].flow * t
  {
    MaxNeighborsBounds(graph, openFrom, t - 1, v, graph[n].neighbors, OpenValue(graph, openFrom, t, n, v));
  }

  /** An entry is one of its options: opening here (or nothing), or a
      neighbour's entry. */
  lemma BestIsAnOption(graph: seq<Node>, openFrom: nat, t: nat, n: nat, v: nat)
    requires ValidGraph(graph) && n < |graph| && t >= 1
    ensures Best(graph, openFrom, t, n, v) == OpenValue(graph, openFrom, t, n, v)
      || exists j :: 0 <= j < |graph[n].neighbors| && Best(graph, openFrom, t, n, v) == Best(graph, openFrom, t - 1, graph[n].neighbors[j], v)
  {
    MaxNeighborsBounds(graph, openFrom, t - 1, v, graph[n].neighbors, OpenValue(graph, openFrom, t, n, v));
  }

  /** The guard `time_left > 1`. */
  const OpenFromAsWritten: nat := 2

  /** Every entry the loops wrote, for times below `t`, nodes and
      configurations in range. */
  predicate FilledBelow(table: array3<nat>, graph: seq<Node>, openFrom: nat, t: nat, masks: nat)
    requires ValidGraph(graph)
    reads table
  {
    table.Length1 == |graph| && table.Length2 == masks && t <= table.Length0
    && forall i, n, v :: 0 <= i < t && 0 <= n < |graph| && 0 <= v < masks ==> table[i, n, v] == Best(graph, openFrom, i, n, v)
  }

  /** The number of valves with a positive flow. */
  function RelevantCount(graph: seq<Node>): (r: nat)
    ensures r <= |graph|
  {
    if graph == [] then 0
    else RelevantCount(graph[..|graph| - 1]) + (if graph[|graph| - 1].flow > 0 then 1 else 0)
  }

  /** The order `sort_by` leaves the nodes in: flow descending. */
  predicate SortedByFlow(graph: seq<Node>) {
    forall i, j :: 0 <= i < j < |graph| ==> graph[i].flow >= graph[j].flow
  }

  /** Once sorted, the valves with a positive flow are exactly the first
      `RelevantCount` nodes. */
  lemma {:induction false} RelevantComeFirst(graph: seq<Node>)
    requires SortedByFlow(graph)
    ensures forall n :: 0 <= n < |graph| ==> (graph[n].flow > 0 <==> n < RelevantCount(graph))
  {
    if graph != [] {
      var init := graph[..|graph| - 1];
      assert SortedByFlow(init);
      RelevantComeFirst(init);
      if graph[|graph| - 1].flow > 0 {
        assert forall n :: 0 <= n < |init| ==> init[n].flow >= graph[|graph| - 1].flow;
      } else {
        assert RelevantCount(graph) == RelevantCount(init);
        if RelevantCount(init) == |init| && |init| > 0 {
          assert init[|init| - 1].flow > 0;
        }
      }
    }
  }

  lemma {:induction false} Pow2Monotone(a: nat, b: nat)
    requires a <= b
    ensures Pow2(a) <= Pow2(b)
    decreases b
  {
    if a < b {
      Pow2Monotone(a, b - 1);
    }
  }

  /** A node past the relevant ones (and below the shift width) never has
      its valve closed in a configuration of the table. */
  lemma IrrelevantNeverClosed(relevant: nat, n: nat, v: nat)
    requires relevant <= n < 32 && v < Pow2(relevant)
    ensures !Closed(n, v)
  {
    Pow2Monotone(relevant, n);
    Arith.DivModUnique(v, Pow2(n), 0, v);
  }

  /** The number of configurations, `1 << amount_of_relevant_valves` on
      `u32` with the shift amount taken modulo 32. */
  function Configurations(graph: seq<Node>): nat {
    Pow2(RelevantCount(graph) % 32)
  }

  /** `find_maximum_pressure_path_dp`: the table filled backwards in time,
      each entry from the entries one minute later. The source opens a valve
      only with `time_left > 1`, that is `openFrom == 2`. */
  method FillTable(graph: seq<Node>, maxTimeLeft: nat, openFrom: nat) returns (solution: array3<nat>)
    requires ValidGraph(graph)
    ensures fresh(solution)
    ensures solution.Length0 == maxTimeLeft && solution.Length1 == |graph| && solution.Length2 == Configurations(graph)
    ensures forall t, n, v :: 0 <= t < maxTimeLeft && 0 <= n < |graph| && 0 <= v < Configurations(graph) ==>
      solution[t, n, v] == Best(graph, openFrom, t, n, v)
    ensures forall n, v :: 0 < maxTimeLeft && 0 <= n < |graph| && 0 <= v < Configurations(graph) ==> solution[0, n, v] == 0
  {
    var configurations := Configurations(graph);
    solution := new nat[maxTimeLeft, |graph|, configurations]((i, j, k) => 0);
    if maxTimeLeft == 0 {
      return;
    }
    for timeLeft := 1 to maxTimeLeft
      invariant FilledBelow(solution, graph, openFrom, timeLeft, configurations)
    {
      FillTime(solution, graph, openFrom, timeLeft, configurations);
    }
  }

  /** The entries at `t` nodes before `nodes`, and at node `nodes` the
      configurations before `masks`, agree with `Best`. */
  predicate FilledAt(table: array3<nat>, graph: seq<Node>, openFrom: nat, t: nat, nodes: nat, masks: nat)
    requires ValidGraph(graph) && t < table.Length0 && table.Length1 == |graph| && nodes <= |graph| && masks <= table.Length2
    reads table
  {
    (forall n, v :: 0 <= n < nodes && 0 <= v < table.Length2 ==> table[t, n, v] == Best(graph, openFrom, t, n, v))
    && (forall v :: 0 <= v < masks && nodes < |graph| ==> table[t, nodes, v] == Best(graph, openFrom, t, nodes, v))
  }

  /** One iteration of the `time_left` loop: every entry at `timeLeft`. */
  method FillTime(solution: array3<nat>, graph: seq<Node>, openFrom: nat, timeLeft: nat, configurations: nat)
    requires ValidGraph(graph) && 1 <= timeLeft < solution.Length0
    requires FilledBelow(solution, graph, openFrom, timeLeft, configurations)
    modifies solution
    ensures FilledBelow(solution, graph, openFrom, timeLeft + 1, configurations)
  {
    for currentNode := 0 to |graph|
      invariant FilledBelow(solution, graph, openFrom, timeLeft, configurations)
      invariant FilledAt(solution, graph, openFrom, timeLeft, currentNode, 0)
    {
      for valveConfiguration := 0 to configurations
        invariant FilledBelow(solution, graph, openFrom, timeLeft, configurations)
        invariant FilledAt(solution, graph, openFrom, timeLeft, currentNode, valveConfiguration)
      {
        var result := Entry(solution, graph, openFrom, timeLeft, currentNode, valveConfiguration, configurations);
        solution[timeLeft, currentNode, valveConfiguration] := result;
      }
    }
  }

  /** The body of the innermost loop: one entry from the entries a minute
      later. */
  method Entry(solution: array3<nat>, graph: seq<Node>, openFrom: nat, timeLeft: nat, currentNode: nat, valveConfiguration: nat, configurations: nat)
    returns (result: nat)
    requires ValidGraph(graph) && currentNode < |graph| && valveConfiguration < configurations
    requires 1 <= timeLeft && FilledBelow(solution, graph, openFrom, timeLeft, configurations)
    ensures result == Best(graph, openFrom, timeLeft, currentNode, valveConfiguration)
  {
    result := 0;
    if Closed(currentNode, valveConfiguration) && timeLeft >= openFrom {
      var afterOpening := Opened(currentNode, valveConfiguration);
      result := solution[timeLeft - 1, currentNode, afterOpening] + graph[currentNode].flow * timeLeft;
    }
    var nbs := graph[currentNode].neighbors;
    for k := 0 to |nbs|
      invariant result == MaxNeighbors(graph, openFrom, timeLeft - 1, valveConfiguration, nbs[..k],
        OpenValue(graph, openFrom, timeLeft, currentNode, valveConfiguration))
    {
      assert nbs[..k + 1][..k] == nbs[..k];
      result := Max(result, solution[timeLeft - 1, nbs[k], valveConfiguration]);
    }
    assert nbs[..|nbs|] == nbs;
  }

  /** The pressure the two workers release from `start` with `t` minutes
      when they take configurations `me` and `elephant`. */
  function PairFlow(solution: array3<nat>, t: nat, start: nat, me: nat, elephant: nat): nat
    requires t < solution.Length0 && start < solution.Length1 && me < solution.Length2 && elephant < solution.Length2
    reads solution
  {
    solution[t, start, me] + solution[t, start, elephant]
  }

  /** `part_two`: the best sum over pairs of disjoint configurations. */
  method CombineDisjoint(solution: array3<nat>, t: nat, start: nat, configurations: nat) returns (tracker: nat)
    requires t < solution.Length0 && start < solution.Length1 && 1 <= configurations <= solution.Length2
    ensures forall me, elephant :: 0 <= me < configurations && 0 <= elephant < configurations && Disjoint(me, elephant) ==>
      tracker >= PairFlow(solution, t, start, me, elephant)
    ensures exists me, elephant ::
      (0 <= me < configurations && 0 <= elephant < configurations && Disjoint(me, elephant) && tracker == PairFlow(solution, t, start, me, elephant))
  {
    tracker := 0;
    ghost var bestMe, bestElephant := 0, 0;
    for me := 0 to configurations
      invariant 0 <= bestMe < configurations && 0 <= bestElephant < configurations && Disjoint(bestMe, bestElephant)
      invariant tracker == 0 || tracker == PairFlow(solution, t, start, bestMe, bestElephant)
      invariant me > 0 ==> tracker >= PairFlow(solution, t, start, 0, 0)
      invariant forall a, b :: 0 <= a < me && 0 <= b < configurations && Disjoint(a, b) ==>
        tracker >= PairFlow(solution, t, start, a, b)
    {
      for elephant := 0 to configurations
        invariant 0 <= bestMe < configurations && 0 <= bestElephant < configurations && Disjoint(bestMe, bestElephant)
        invariant tracker == 0 || tracker == PairFlow(solution, t, start, bestMe, bestElephant)
        invariant me > 0 || elephant > 0 ==> tracker >= PairFlow(solution, t, start, 0, 0)
        invariant forall a, b :: 0 <= a < me && 0 <= b < configurations && Disjoint(a, b) ==>
          tracker >= PairFlow(solution, t, start, a, b)
        invariant forall b :: 0 <= b < elephant && Disjoint(me, b) ==>
          tracker >= PairFlow(solution, t, start, me, b)
      {
        if !Disjoint(me, elephant) {
          continue;
        }
        var flow := solution[t, start, me] + solution[t, start, elephant];
        if flow > tracker {
          bestMe, bestElephant := me, elephant;
        }
        tracker := Max(tracker, flow);
      }
    }
    if tracker == 0 {
      bestMe, bestElephant := 0, 0;
    }
  }

  /** The guard as corrected: a valve is worth opening with any time left. */
  const OpenFromCorrected: nat := 1

  /** With the source's guard, a closed valve with two minutes left (table
      index 1) adds nothing. */
  lemma TwoMinutesLeftValveIgnored()
    ensures Best([Node(5, [])], OpenFromAsWritten, 1, 0, 1) == 0
    ensures Best([Node(5, [])], OpenFromCorrected, 1, 0, 1) == 5
  {
    assert Closed(0, 1);
    assert Opened(0, 1) == 0;
  }

  /** With the corrected guard, every entry at a closed valve counts at
      least that valve's flow for every remaining minute. */
  lemma OpenNowLowerBound(graph: seq<Node>, t: nat, n: nat, v: nat)
    requires ValidGraph(graph) && n < |graph| && t >= 1 && Closed(n, v)
    ensures Best(graph, OpenFromCorrected, t, n, v) >= graph[n].flow * t
  {
    BestAtLeastOpening(graph, OpenFromCorrected, t, n, v);
  }
}
