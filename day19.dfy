/** Robot factories: the state of robots and materials, buying robots, and
    the best number of geodes a blueprint can open in the time left. */
module Day19 {
  import Arith

  datatype RobotType = Ore | Clay | Obsidian | Geode

  /** Four counts, one per material or robot type. */
  datatype Amounts = Amounts(ore: nat, clay: nat, obsidian: nat, geode: nat)

  /** A cost in ore, clay and obsidian. */
  datatype Cost = Cost(ore: nat, clay: nat, obsidian: nat)

  datatype Costs = Costs(
    oreRobot: Cost, clayRobot: Cost, obsidianRobot: Cost, geodeRobot: Cost,
    highestOreCost: nat, highestClayCost: nat, highestObsidianCost: nat)

  datatype State = State(robots: Amounts, currency: Amounts)

  function Max(a: nat, b: nat): nat {
    if a < b then b else a
  }

  /** The costs of a blueprint from the seven numbers in its line, with the
      largest demand per material that limits buying. */
  function MakeCosts(oreOre: nat, clayOre: nat, obsidianOre: nat, obsidianClay: nat, geodeOre: nat, geodeObsidian: nat): (c: Costs)
    ensures c.highestOreCost >= c.oreRobot.ore && c.highestOreCost >= c.clayRobot.ore
    ensures c.highestOreCost >= c.obsidianRobot.ore && c.highestOreCost >= c.geodeRobot.ore
    ensures c.highestOreCost in {oreOre, clayOre, obsidianOre, geodeOre}
    ensures c.highestClayCost == c.obsidianRobot.clay && c.highestObsidianCost == c.geodeRobot.obsidian
    ensures c.oreRobot == Cost(oreOre, 0, 0) && c.clayRobot == Cost(clayOre, 0, 0)
    ensures c.obsidianRobot == Cost(obsidianOre, obsidianClay, 0) && c.geodeRobot == Cost(geodeOre, 0, geodeObsidian)
  {
    Costs(Cost(oreOre, 0, 0), Cost(clayOre, 0, 0), Cost(obsidianOre, obsidianClay, 0), Cost(geodeOre, 0, geodeObsidian),
      Max(Max(Max(oreOre, clayOre), obsidianOre), geodeOre), obsidianClay, geodeObsidian)
  }

  /** `State::generate`: every robot collects one unit of its material. */
  function Generate(s: State): (r: State)
    ensures r.robots == s.robots
    ensures r.currency.geode == s.currency.geode + s.robots.geode
    ensures forall t :: Count(r.currency, t) == Count(s.currency, t) + Count(s.robots, t)
  {
    State(s.robots, Amounts(s.currency.ore + s.robots.ore, s.currency.clay + s.robots.clay,
      s.currency.obsidian + s.robots.obsidian, s.currency.geode + s.robots.geode))
  }

  /** Generating never loses material. */
  lemma GenerateGrows(s: State)
    ensures Generate(s).currency.ore >= s.currency.ore && Generate(s).currency.clay >= s.currency.clay
    ensures Generate(s).currency.obsidian >= s.currency.obsidian && Generate(s).currency.geode >= s.currency.geode
  {
  }

  function CostOf(t: RobotType, costs: Costs): Cost {
    match t
    case Ore => costs.oreRobot
    case Clay => costs.clayRobot
    case Obsidian => costs.obsidianRobot
    case Geode => costs.geodeRobot
  }

  predicate Affords(currency: Amounts, c: Cost) {
    currency.ore >= c.ore && currency.clay >= c.clay && currency.obsidian >= c.obsidian
  }

  /** `State::can_buy`: enough of every material for the robot. */
  predicate CanBuy(s: State, t: RobotType, costs: Costs) {
    Affords(s.currency, CostOf(t, costs))
  }

  /** A purchase affordable before generating is affordable after it. */
  lemma CanBuyAfterGenerate(s: State, t: RobotType, costs: Costs)
    requires CanBuy(s, t, costs)
    ensures CanBuy(Generate(s), t, costs)
  {
  }

  function Count(a: Amounts, t: RobotType): nat {
    match t
    case Ore => a.ore
    case Clay => a.clay
    case Obsidian => a.obsidian
    case Geode => a.geode
  }

  /** `State::buy`: one more robot of the type, its cost paid from the
      materials. Buying without the materials underflows, which is refused. */
  function Buy(s: State, t: RobotType, costs: Costs): (r: State)
    requires CanBuy(s, t, costs)
    ensures forall u :: Count(r.robots, u) == Count(s.robots, u) + (if u == t then 1 else 0)
    ensures r.currency.ore + CostOf(t, costs).ore == s.currency.ore
    ensures r.currency.clay + CostOf(t, costs).clay == s.currency.clay
    ensures r.currency.obsidian + CostOf(t, costs).obsidian == s.currency.obsidian
    ensures r.currency.geode == s.currency.geode
  {
    var c := CostOf(t, costs);
    var robots := match t
      case Ore => s.robots.(ore := s.robots.ore + 1)
      case Clay => s.robots.(clay := s.robots.clay + 1)
      case Obsidian => s.robots.(obsidian := s.robots.obsidian + 1)
      case Geode => s.robots.(geode := s.robots.geode + 1);
    State(robots, Amounts(s.currency.ore - c.ore, s.currency.clay - c.clay, s.currency.obsidian - c.obsidian, s.currency.geode))
  }

  /** The robots the search may buy at a state: a geode robot whenever
      affordable, the others only below the highest demand for their
      material. */
  predicate Tries(s: State, t: RobotType, costs: Costs) {
    CanBuy(s, t, costs) &&
    match t
    case Geode => true
    case Obsidian => s.robots.obsidian < costs.highestObsidianCost
    case Clay => s.robots.clay < costs.highestClayCost
    case Ore => s.robots.ore < costs.highestOreCost
  }

  function BestAfterBuying(time: nat, costs: Costs, s: State, t: RobotType): nat
    requires time >= 1
    decreases time, 0
  {
    if Tries(s, t, costs) then
      CanBuyAfterGenerate(s, t, costs);
      Optimum(time - 1, costs, Buy(Generate(s), t, costs))
    else 0
  }

  /** The most geodes reachable in `time` minutes, trying the same choices
      in the same order as `find_optimum_return_recursivly`. */
  function Optimum(time: nat, costs: Costs, s: State): nat
    decreases time, 1
  {
    if time == 0 then s.currency.geode
    else
      var geode := BestAfterBuying(time, costs, s, Geode);
      var obsidian := BestAfterBuying(time, costs, s, Obsidian);
      var clay := BestAfterBuying(time, costs, s, Clay);
      var ore := BestAfterBuying(time, costs, s, Ore);
      Max(Max(Max(Max(geode, obsidian), clay), ore), Optimum(time - 1, costs, Generate(s)))
  }

  /** Waiting alone already opens the current geodes plus one per geode
      robot and minute. */
  lemma {:induction false} OptimumAtLeastWaiting(time: nat, costs: Costs, s: State)
    ensures Optimum(time, costs, s) >= s.currency.geode + time * s.robots.geode
  {
    if time > 0 {
      var n := Generate(s);
      OptimumAtLeastWaiting(time - 1, costs, n);
      assert Optimum(time, costs, s) >= Optimum(time - 1, costs, n);
      assert (time - 1) * s.robots.geode + s.robots.geode == time * s.robots.geode;
    }
  }

  /** No more geodes than if a new geode robot were bought every minute. */
  function Ceiling(time: nat, s: State): nat {
    s.currency.geode + time * s.robots.geode + time * (time - 1) / 2
  }

  lemma CeilingStep(time: nat, s: State, n: State)
    requires time >= 1
    requires n.currency.geode == s.currency.geode + s.robots.geode
    requires n.robots.geode <= s.robots.geode + 1
    ensures Ceiling(time - 1, n) <= Ceiling(time, s)
  {
    var t := time - 1;
    var r, rn := s.robots.geode, n.robots.geode;
    Arith.MulMonotone(rn, r + 1, t);
    assert (r + 1) * t == r * t + t;
    assert time * r == t * r + r;
    TriangleStep(t);
  }

  /** The triangle numbers grow by `t` from `t - 1` to `t`. */
  lemma TriangleStep(t: nat)
    ensures (t + 1) * t / 2 == t * (t - 1) / 2 + t
  {
    var m := t * (t - 1);
    assert (t + 1) * t == m + 2 * t;
    Arith.DivModUnique((t + 1) * t, 2, m / 2 + t, m % 2);
  }

  lemma {:induction false} OptimumAtMostCeiling(time: nat, costs: Costs, s: State)
    ensures Optimum(time, costs, s) <= Ceiling(time, s)
  {
    if time > 0 {
      OptimumAtMostCeiling(time - 1, costs, Generate(s));
      CeilingStep(time, s, Generate(s));
      forall t: RobotType | Tries(s, t, costs)
        ensures BestAfterBuying(time, costs, s, t) <= Ceiling(time, s)
      {
        CanBuyAfterGenerate(s, t, costs);
        var n := Buy(Generate(s), t, costs);
        assert Count(n.robots, Geode) == Count(Generate(s).robots, Geode) + (if t == Geode then 1 else 0);
        OptimumAtMostCeiling(time - 1, costs, n);
        CeilingStep(time, s, n);
      }
    }
  }

  /** Every cached entry holds the optimum for its time and state. */
  predicate CacheValid(cache: map<(nat, State), nat>, costs: Costs) {
    forall key :: key in cache ==> cache[key] == Optimum(key.0, costs, key.1)
  }

  /** `find_optimum_return_recursivly`: the recursion with its memo table,
      passed in and handed back. */
  method FindOptimum(time: nat, costs: Costs, s: State, cache: map<(nat, State), nat>) returns (result: nat, cache': map<(nat, State), nat>)
    requires CacheValid(cache, costs)
    ensures result == Optimum(time, costs, s)
    ensures CacheValid(cache', costs)
    decreases time, 1
  {
    cache' := cache;
    if time == 0 {
      return s.currency.geode, cache';
    }
    if (time, s) in cache' {
      return cache'[(time, s)], cache';
    }
    var generated := Generate(s);
    var maxGeodes := 0;
    var value;
    value, cache' := TryBuying(time, costs, s, Geode, cache');
    maxGeodes := Max(maxGeodes, value);
    value, cache' := TryBuying(time, costs, s, Obsidian, cache');
    maxGeodes := Max(maxGeodes, value);
    value, cache' := TryBuying(time, costs, s, Clay, cache');
    maxGeodes := Max(maxGeodes, value);
    value, cache' := TryBuying(time, costs, s, Ore, cache');
    maxGeodes := Max(maxGeodes, value);
    var waiting;
    waiting, cache' := FindOptimum(time - 1, costs, generated, cache');
    maxGeodes := Max(maxGeodes, waiting);
    cache' := cache'[(time, s) := maxGeodes];
    return maxGeodes, cache';
  }

  /** One buying branch of the search: when the robot is tried, the best
      result after buying it, otherwise nothing. */
  method TryBuying(time: nat, costs: Costs, s: State, t: RobotType, cache: map<(nat, State), nat>) returns (result: nat, cache': map<(nat, State), nat>)
    requires time >= 1 && CacheValid(cache, costs)
    ensures result == BestAfterBuying(time, costs, s, t)
    ensures CacheValid(cache', costs)
    decreases time, 0
  {
    cache' := cache;
    result := 0;
    if Tries(s, t, costs) {
      CanBuyAfterGenerate(s, t, costs);
      result, cache' := FindOptimum(time - 1, costs, Buy(Generate(s), t, costs), cache);
    }
  }
}
