/** Unstable diffusion: elves spreading out on an unbounded grid. The
    shared `PointGrid`, `get_point_in_direction` and `dimensions` are not
    part of this model. A grid of elves is taken to be the set of occupied
    points, the point one step in a direction the point plus that
    direction's offset (`Helpers.Offset`), and `dimensions` the smallest and
    largest coordinates of the occupied points. */
module Day23 {
  import opened Wrappers
  import opened Helpers
  import opened Text
  import Arith

  /** `get_point_in_direction(d, 1)`. */
  function Step(p: Point, d: Direction): Point {
    Add(p, Offset(d))
  }

  lemma StepMoves(p: Point, d: Direction)
    ensures Step(p, d) != p
  {
  }

  const AllWithDiagonals: seq<Direction> :=
    [North, NorthEast, East, SouthEast, South, SouthWest, West, NorthWest]

  /** The three cells an elf looks at before stepping in `d`; `d` first. */
  function Side(d: Direction): (r: seq<Direction>)
    requires Cardinal(d)
    ensures |r| == 3 && r[0] == d
  {
    match d
    case North => [North, NorthEast, NorthWest]
    case South => [South, SouthEast, SouthWest]
    case West => [West, NorthWest, SouthWest]
    case East => [East, NorthEast, SouthEast]
  }

  function RotateLeft<T>(s: seq<T>, k: nat): (r: seq<T>)
    requires k <= |s|
    ensures |r| == |s| && forall i :: 0 <= i < |s| ==> r[i] == s[(i + k) % |s|]
  {
    var r := s[k..] + s[..k];
    forall i | 0 <= i < |s| ensures r[i] == s[(i + k) % |s|] {
      if i + k < |s| {
        Arith.DivModUnique(i + k, |s|, 0, i + k);
      } else {
        Arith.DivModUnique(i + k, |s|, 1, i + k - |s|);
      }
    }
    r
  }

  /** `directions_order`: north, south, west, east, rotated left by the
      cycle. */
  function DirectionsOrder(cycle: nat): (r: seq<Direction>)
    requires cycle <= 4
    ensures |r| == 4 && forall i :: 0 <= i < 4 ==> Cardinal(r[i])
    ensures forall i :: 0 <= i < 4 ==> r[i] == [North, South, West, East][(i + cycle) % 4]
  {
    RotateLeft([North, South, West, East], cycle)
  }

  /** No elf one step away in any of the directions `ds`. */
  function AllEmpty(grid: set<Point>, elf: Point, ds: seq<Direction>): (r: bool)
    ensures r <==> forall i :: 0 <= i < |ds| ==> Step(elf, ds[i]) !in grid
  {
    if ds == [] then true else Step(elf, ds[0]) !in grid && AllEmpty(grid, elf, ds[1..])
  }

  predicate Isolated(grid: set<Point>, elf: Point) {
    AllEmpty(grid, elf, AllWithDiagonals)
  }

  predicate AllCardinal(order: seq<Direction>) {
    forall i :: 0 <= i < |order| ==> Cardinal(order[i])
  }

  /** The first direction of `order` whose side is free. */
  function FirstOpen(grid: set<Point>, elf: Point, order: seq<Direction>): (r: Option<Direction>)
    requires AllCardinal(order)
    ensures r.Some? ==> r.value in order && Cardinal(r.value) && AllEmpty(grid, elf, Side(r.value))
    ensures r.None? ==> forall i :: 0 <= i < |order| ==> !AllEmpty(grid, elf, Side(order[i]))
  {
    if order == [] then None
    else if AllEmpty(grid, elf, Side(order[0])) then Some(order[0])
    else FirstOpen(grid, elf, order[1..])
  }

  /** The cell an elf proposes: its own when it is isolated or every side in
      the order is blocked, else one step towards the first free side. */
  function Target(grid: set<Point>, order: seq<Direction>, elf: Point): Point
    requires AllCardinal(order)
  {
    if Isolated(grid, elf) then elf
    else match FirstOpen(grid, elf, order)
      case Some(d) => Step(elf, d)
      case None => elf
  }

  /** An isolated elf proposes its own cell. */
  lemma IsolatedStays(grid: set<Point>, order: seq<Direction>, elf: Point)
    requires AllCardinal(order) && Isolated(grid, elf)
    ensures Target(grid, order, elf) == elf
  {
  }

  /** An elf proposes another cell only towards a free side, and the
      proposed cell is empty. */
  lemma ProposalNeedsFreeSide(grid: set<Point>, order: seq<Direction>, elf: Point)
    requires AllCardinal(order) && Target(grid, order, elf) != elf
    ensures exists i :: 0 <= i < |order| && AllEmpty(grid, elf, Side(order[i])) && Target(grid, order, elf) == Step(elf, order[i])
    ensures Target(grid, order, elf) !in grid
  {
    var d := FirstOpen(grid, elf, order).value;
    var i :| 0 <= i < |order| && order[i] == d;
    assert Step(elf, Side(d)[0]) !in grid;
  }

  /** Only the elf standing on a cell proposes it. */
  lemma TargetOfOccupied(grid: set<Point>, order: seq<Direction>, elf: Point, other: Point)
    requires AllCardinal(order) && other in grid && Target(grid, order, elf) == other
    ensures elf == other
  {
    if Target(grid, order, elf) != elf {
      ProposalNeedsFreeSide(grid, order, elf);
    }
  }

  predicate NoDuplicates(s: seq<Point>) {
    forall i, j :: 0 <= i < j < |s| ==> s[i] != s[j]
  }

  /** `proposed_by` after the elves `processed`: each proposed cell maps to
      the elves proposing it, without repeats. */
  ghost predicate ProposalsOf(grid: set<Point>, order: seq<Direction>, processed: set<Point>, proposedBy: map<Point, seq<Point>>)
    requires AllCardinal(order)
  {
    (forall e :: e in processed ==> Target(grid, order, e) in proposedBy)
    && forall p :: p in proposedBy ==>
      proposedBy[p] != [] && NoDuplicates(proposedBy[p])
      && forall e :: e in proposedBy[p] <==> e in processed && Target(grid, order, e) == p
  }

  ghost predicate AnyoneMoves(grid: set<Point>) {
    exists e {:trigger Isolated(grid, e)} :: e in grid && !Isolated(grid, e)
  }

  /** `get_proposed_moves`: whether some elf has a neighbour, and every
      elf's proposal, gathered per proposed cell. */
  method GetProposedMoves(grid: set<Point>, cycle: nat) returns (anyoneMoved: bool, proposedBy: map<Point, seq<Point>>)
    requires cycle <= 4
    ensures anyoneMoved <==> AnyoneMoves(grid)
    ensures ProposalsOf(grid, DirectionsOrder(cycle), grid, proposedBy)
  {
    proposedBy := map[];
    anyoneMoved := false;
    var directionsOrder := DirectionsOrder(cycle);
    var rest := grid;
    while rest != {}
      invariant rest <= grid
      invariant ProposalsOf(grid, directionsOrder, grid - rest, proposedBy)
      invariant anyoneMoved <==> exists e :: e in grid - rest && !Isolated(grid, e)
      decreases rest
    {
      var elf :| elf in rest;
      ghost var processed := grid - rest;
      assert forall e :: e in processed ==> Target(grid, directionsOrder, e) != elf by {
        forall e | e in processed ensures Target(grid, directionsOrder, e) != elf {
          if Target(grid, directionsOrder, e) == elf {
            TargetOfOccupied(grid, directionsOrder, e, elf);
          }
        }
      }
      if AllEmpty(grid, elf, AllWithDiagonals) {
        proposedBy := proposedBy[elf := [elf]];
        rest := rest - {elf};
        assert grid - rest == processed + {elf};
        continue;
      }
      anyoneMoved := true;
      proposedBy := ProposeMove(grid, directionsOrder, processed, elf, proposedBy);
      rest := rest - {elf};
      assert grid - rest == processed + {elf};
    }
  }

  /** The inner loop of `get_proposed_moves` for an elf that has a
      neighbour: it adds itself to the list of the first free side's cell,
      or stays when every side is blocked. */
  method ProposeMove(grid: set<Point>, directionsOrder: seq<Direction>, ghost processed: set<Point>, elf: Point, proposedBy: map<Point, seq<Point>>)
    returns (proposed: map<Point, seq<Point>>)
    requires |directionsOrder| == 4 && AllCardinal(directionsOrder)
    requires elf in grid && elf !in processed && !Isolated(grid, elf)
    requires ProposalsOf(grid, directionsOrder, processed, proposedBy)
    requires forall e :: e in processed ==> Target(grid, directionsOrder, e) != elf
    ensures ProposalsOf(grid, directionsOrder, processed + {elf}, proposed)
  {
    proposed := proposedBy;
    var movable := false;
    for i := 0 to 4
      invariant FirstOpen(grid, elf, directionsOrder) == FirstOpen(grid, elf, directionsOrder[i..])
      invariant proposed == proposedBy
    {
      if AllEmpty(grid, elf, Side(directionsOrder[i])) {
        var proposedPosition := Step(elf, directionsOrder[i]);
        assert Target(grid, directionsOrder, elf) == proposedPosition;
        if proposedPosition in proposed {
          proposed := proposed[proposedPosition := proposed[proposedPosition] + [elf]];
        } else {
          proposed := proposed[proposedPosition := [elf]];
        }
        movable := true;
        break;
      }
      assert directionsOrder[i..][1..] == directionsOrder[i + 1..];
    }
    if !movable {
      assert Target(grid, directionsOrder, elf) == elf;
      proposed := proposed[elf := [elf]];
    }
  }

  // Moving.

  /** A cell the round occupies: an uncontested proposed cell, or the home
      of an elf whose cell was contested. */
  predicate Arrives(proposed: map<Point, seq<Point>>, keys: set<Point>, p: Point)
    requires keys <= proposed.Keys
  {
    (p in keys && |proposed[p]| <= 1) || exists pos :: pos in keys && |proposed[pos]| > 1 && p in proposed[pos]
  }

  /** `do_proposed_move`: a contested cell sends all its elves home; an
      uncontested one receives its elf. */
  method DoProposedMove(proposedList: map<Point, seq<Point>>) returns (grid: set<Point>)
    ensures forall p :: p in grid <==> Arrives(proposedList, proposedList.Keys, p)
  {
    grid := {};
    var rest := proposedList.Keys;
    while rest != {}
      invariant rest <= proposedList.Keys
      invariant forall p :: p in grid <==> Arrives(proposedList, proposedList.Keys - rest, p)
      decreases rest
    {
      var pos :| pos in rest;
      ghost var done := proposedList.Keys - rest;
      var elves := proposedList[pos];
      if |elves| > 1 {
        for k := 0 to |elves|
          invariant forall p :: p in grid <==> Arrives(proposedList, done, p) || p in elves[..k]
        {
          grid := grid + {elves[k]};
        }
        assert elves[..|elves|] == elves;
      } else {
        grid := grid + {pos};
      }
      rest := rest - {pos};
      assert proposedList.Keys - rest == done + {pos};
    }
  }

  // One round as a whole.

  /** Some other elf proposes the same cell. */
  ghost predicate Contested(grid: set<Point>, order: seq<Direction>, elf: Point)
    requires AllCardinal(order)
  {
    exists other {:trigger Target(grid, order, other)} :: other in grid && other != elf && Target(grid, order, other) == Target(grid, order, elf)
  }

  /** Where an elf ends the round. */
  ghost function Destination(grid: set<Point>, order: seq<Direction>, elf: Point): Point
    requires AllCardinal(order)
  {
    if Contested(grid, order, elf) then elf else Target(grid, order, elf)
  }

  ghost function NextGrid(grid: set<Point>, order: seq<Direction>): set<Point>
    requires AllCardinal(order)
  {
    set e | e in grid :: Destination(grid, order, e)
  }

  lemma MoreThanOne(s: seq<Point>, e: Point)
    requires NoDuplicates(s) && e in s
    ensures |s| > 1 <==> exists x :: x in s && x != e
  {
    if |s| > 1 {
      assert s[0] != s[1];
      if s[0] == e {
        assert s[1] in s;
      } else {
        assert s[0] in s;
      }
    }
  }

  /** Moving on the gathered proposals gives the round's grid. */
  lemma ArrivalsAreNextGrid(grid: set<Point>, order: seq<Direction>, proposed: map<Point, seq<Point>>)
    requires AllCardinal(order) && ProposalsOf(grid, order, grid, proposed)
    ensures forall p :: Arrives(proposed, proposed.Keys, p) <==> p in NextGrid(grid, order)
  {
    forall p | Arrives(proposed, proposed.Keys, p) ensures p in NextGrid(grid, order) {
      if p in proposed && |proposed[p]| <= 1 {
        var e := proposed[p][0];
        assert e in proposed[p];
        MoreThanOne(proposed[p], e);
        assert !Contested(grid, order, e) by {
          forall other | other in grid && other != e ensures Target(grid, order, other) != Target(grid, order, e) {
          }
        }
        assert Destination(grid, order, e) == p;
      } else {
        var pos :| pos in proposed && |proposed[pos]| > 1 && p in proposed[pos];
        MoreThanOne(proposed[pos], p);
        var x :| x in proposed[pos] && x != p;
        assert Contested(grid, order, p);
        assert Destination(grid, order, p) == p;
      }
    }
    forall p | p in NextGrid(grid, order) ensures Arrives(proposed, proposed.Keys, p) {
      var e :| e in grid && Destination(grid, order, e) == p;
      var t := Target(grid, order, e);
      assert e in proposed[t];
      MoreThanOne(proposed[t], e);
      if Contested(grid, order, e) {
        var other :| other in grid && other != e && Target(grid, order, other) == t;
        assert other in proposed[t];
      } else {
        assert forall x :: x in proposed[t] ==> x == e;
      }
    }
  }

  /** Two elves never end a round on the same cell. */
  lemma DestinationInjective(grid: set<Point>, order: seq<Direction>, a: Point, b: Point)
    requires AllCardinal(order) && a in grid && b in grid && a != b
    ensures Destination(grid, order, a) != Destination(grid, order, b)
  {
    var (ca, cb) := (Contested(grid, order, a), Contested(grid, order, b));
    if ca && !cb && Destination(grid, order, a) == Destination(grid, order, b) {
      TargetOfOccupied(grid, order, b, a);
    } else if !ca && cb && Destination(grid, order, a) == Destination(grid, order, b) {
      TargetOfOccupied(grid, order, a, b);
    }
  }

  lemma {:induction false} ImageSize(grid: set<Point>, order: seq<Direction>, part: set<Point>)
    requires AllCardinal(order) && part <= grid
    ensures |set e | e in part :: Destination(grid, order, e)| == |part|
    decreases part
  {
    if part != {} {
      var x :| x in part;
      var rest := part - {x};
      ImageSize(grid, order, rest);
      var image := set e | e in part :: Destination(grid, order, e);
      var restImage := set e | e in rest :: Destination(grid, order, e);
      assert image == restImage + {Destination(grid, order, x)};
      assert Destination(grid, order, x) !in restImage by {
        forall e | e in rest ensures Destination(grid, order, e) != Destination(grid, order, x) {
          DestinationInjective(grid, order, e, x);
        }
      }
    }
  }

  /** A round keeps the number of elves. */
  lemma RoundKeepsElves(grid: set<Point>, order: seq<Direction>)
    requires AllCardinal(order)
    ensures |NextGrid(grid, order)| == |grid|
  {
    ImageSize(grid, order, grid);
  }

  /** Elves proposing the same cell all stay home, and nobody takes the
      cell. */
  lemma ConflictStaysHome(grid: set<Point>, order: seq<Direction>, a: Point, b: Point)
    requires AllCardinal(order) && a in grid && b in grid && a != b
    requires Target(grid, order, a) == Target(grid, order, b)
    ensures a in NextGrid(grid, order) && b in NextGrid(grid, order)
    ensures Target(grid, order, a) !in NextGrid(grid, order)
  {
    var t := Target(grid, order, a);
    assert Destination(grid, order, a) == a && Destination(grid, order, b) == b;
    if t in grid {
      TargetOfOccupied(grid, order, a, t);
      TargetOfOccupied(grid, order, b, t);
    }
    forall e | e in grid ensures Destination(grid, order, e) != t {
      if Target(grid, order, e) == t {
        var other := if e == a then b else a;
        assert other in grid && other != e && Target(grid, order, other) == Target(grid, order, e);
      }
    }
  }

  /** When every elf is isolated the round changes nothing. */
  lemma SettledIsFixed(grid: set<Point>, order: seq<Direction>)
    requires AllCardinal(order) && !AnyoneMoves(grid)
    ensures NextGrid(grid, order) == grid
  {
    forall e | e in grid ensures Destination(grid, order, e) == e {
      assert Isolated(grid, e);
    }
    assert forall e :: e in grid ==> e in NextGrid(grid, order) by {
      forall e | e in grid ensures e in NextGrid(grid, order) {
        assert Destination(grid, order, e) == e;
      }
    }
  }

  /** The grid `do_proposed_move` builds from complete proposals is the
      next grid of the round. */
  lemma MoveMakesNextGrid(grid: set<Point>, order: seq<Direction>, proposed: map<Point, seq<Point>>, next: set<Point>)
    requires AllCardinal(order) && ProposalsOf(grid, order, grid, proposed)
    requires forall p :: p in next <==> Arrives(proposed, proposed.Keys, p)
    ensures next == NextGrid(grid, order)
  {
    ArrivalsAreNextGrid(grid, order, proposed);
  }

  /** The direction order of round `k` (counting from 0). */
  function RoundOrder(k: nat): (r: seq<Direction>)
    ensures AllCardinal(r)
  {
    DirectionsOrder(k % 4)
  }

  /** The grid after `n` rounds. */
  ghost function After(grid: set<Point>, n: nat): set<Point> {
    if n == 0 then grid else NextGrid(After(grid, n - 1), RoundOrder(n - 1))
  }

  lemma {:induction false} RoundsKeepElves(grid: set<Point>, n: nat)
    ensures |After(grid, n)| == |grid|
  {
    if n > 0 {
      var prev := After(grid, n - 1);
      RoundsKeepElves(grid, n - 1);
      RoundKeepsElves(prev, RoundOrder(n - 1));
      assert After(grid, n) == NextGrid(prev, RoundOrder(n - 1));
    }
  }

  lemma {:induction false} SettledStays(grid: set<Point>, k: nat, n: nat)
    requires k <= n && !AnyoneMoves(After(grid, k))
    ensures After(grid, n) == After(grid, k)
    decreases n - k
  {
    if k < n {
      SettledIsFixed(After(grid, k), DirectionsOrder(k % 4));
      SettledStays(grid, k + 1, n);
    }
  }

  // Parsing and the answers.

  predicate ElfAt(lines: seq<string>, p: Point) {
    0 <= p.y < |lines| && 0 <= p.x < |lines[p.y]| && lines[p.y][p.x] == '#'
  }

  /** `parse_input`: each `#` is an elf at its column and line. */
  method ParseInput(input: string) returns (grid: set<Point>)
    ensures forall p :: p in grid <==> ElfAt(Lines(input), p)
  {
    var lines := Lines(input);
    grid := {};
    for y := 0 to |lines|
      invariant forall p :: p in grid <==> ElfAt(lines, p) && p.y < y
    {
      var l := lines[y];
      for x := 0 to |l|
        invariant forall p :: p in grid <==> ElfAt(lines, p) && (p.y < y || (p.y == y && p.x < x))
      {
        if l[x] == '#' {
          grid := grid + {Point(x, y)};
        }
      }
    }
  }

  /** `min` and `max` are the smallest and the largest coordinates of the
      elves. */
  ghost predicate Tight(grid: set<Point>, min: Point, max: Point) {
    (forall p :: p in grid ==> min.x <= p.x <= max.x && min.y <= p.y <= max.y)
    && (exists p :: p in grid && p.x == min.x) && (exists p :: p in grid && p.x == max.x)
    && (exists p :: p in grid && p.y == min.y) && (exists p :: p in grid && p.y == max.y)
  }

  /** The smallest and largest coordinates are unique. */
  lemma TightUnique(grid: set<Point>, min: Point, max: Point, min': Point, max': Point)
    requires Tight(grid, min, max) && Tight(grid, min', max')
    ensures min == min' && max == max'
  {
    var a :| a in grid && a.x == min.x;
    var b :| b in grid && b.x == min'.x;
    var c :| c in grid && c.y == min.y;
    var d :| d in grid && d.y == min'.y;
    var e :| e in grid && e.x == max.x;
    var f :| f in grid && f.x == max'.x;
    var g :| g in grid && g.y == max.y;
    var h :| h in grid && h.y == max'.y;
  }

  /** `dimensions`: the smallest and the largest coordinates. */
  method Dimensions(grid: set<Point>) returns (min: Point, max: Point)
    requires grid != {}
    ensures Tight(grid, min, max)
  {
    var first :| first in grid;
    min, max := first, first;
    var rest := grid - {first};
    while rest != {}
      invariant rest <= grid && first in grid - rest
      invariant forall p :: p in grid - rest ==> min.x <= p.x <= max.x && min.y <= p.y <= max.y
      invariant exists p :: p in grid - rest && p.x == min.x
      invariant exists p :: p in grid - rest && p.x == max.x
      invariant exists p :: p in grid - rest && p.y == min.y
      invariant exists p :: p in grid - rest && p.y == max.y
      decreases rest
    {
      var p :| p in rest;
      min := Point(if p.x < min.x then p.x else min.x, if p.y < min.y then p.y else min.y);
      max := Point(if p.x > max.x then p.x else max.x, if p.y > max.y then p.y else max.y);
      rest := rest - {p};
    }
  }

  /** The cells of the rectangle from `min` to `max`, both included. */
  ghost function Cells(min: Point, max: Point): (r: set<Point>)
    ensures forall p: Point :: p in r <==> min.x <= p.x <= max.x && min.y <= p.y <= max.y
  {
    var r := set x, y | min.x <= x <= max.x && min.y <= y <= max.y :: Point(x, y);
    assert forall p: Point :: min.x <= p.x <= max.x && min.y <= p.y <= max.y ==> p in r by {
      forall p: Point | min.x <= p.x <= max.x && min.y <= p.y <= max.y ensures p in r {
        assert p == Point(p.x, p.y);
      }
    }
    r
  }

  /** The rectangle holds width times height cells. */
  lemma {:induction false} CellsSize(min: Point, max: Point)
    requires min.x <= max.x + 1 && min.y <= max.y + 1
    ensures |Cells(min, max)| == (max.x + 1 - min.x) * (max.y + 1 - min.y)
    decreases max.y + 1 - min.y
  {
    var w, h := max.x + 1 - min.x, max.y + 1 - min.y;
    if h == 0 {
      assert Cells(min, max) == {};
      assert w * h == 0;
    } else {
      var top := Point(max.x, max.y - 1);
      CellsSize(min, top);
      SplitLastRow(min, max);
      RowCellsSize(min.x, max.x, max.y);
      var upper, row := Cells(min, top), RowCells(min.x, max.x, max.y);
      assert |upper + row| == |upper| + |row|;
      assert w * (h - 1) + w == w * h;
    }
  }

  /** The rectangle is the rectangle one row shorter plus its last row. */
  lemma SplitLastRow(min: Point, max: Point)
    requires min.y <= max.y
    ensures Cells(min, max) == Cells(min, Point(max.x, max.y - 1)) + RowCells(min.x, max.x, max.y)
    ensures Cells(min, Point(max.x, max.y - 1)) !! RowCells(min.x, max.x, max.y)
  {
  }

  ghost function RowCells(x0: int, x1: int, y: int): (r: set<Point>)
    ensures forall p: Point :: p in r <==> x0 <= p.x <= x1 && p.y == y
  {
    var r := set x | x0 <= x <= x1 :: Point(x, y);
    assert forall p: Point :: x0 <= p.x <= x1 && p.y == y ==> p in r by {
      forall p: Point | x0 <= p.x <= x1 && p.y == y ensures p in r {
        assert p == Point(p.x, y);
      }
    }
    r
  }

  lemma {:induction false} RowCellsSize(x0: int, x1: int, y: int)
    requires x0 <= x1 + 1
    ensures |RowCells(x0, x1, y)| == x1 + 1 - x0
    decreases x1 + 1 - x0
  {
    if x1 + 1 > x0 {
      RowCellsSize(x0, x1 - 1, y);
      assert RowCells(x0, x1, y) == RowCells(x0, x1 - 1, y) + {Point(x1, y)};
    } else {
      assert RowCells(x0, x1, y) == {};
    }
  }

  /** The cells of the bounding rectangle not taken by an elf. */
  lemma EmptyTiles(grid: set<Point>, min: Point, max: Point)
    requires grid != {} && forall p :: p in grid ==> min.x <= p.x <= max.x && min.y <= p.y <= max.y
    ensures (max.x + 1 - min.x) * (max.y + 1 - min.y) - |grid| == |Cells(min, max) - grid|
  {
    var p :| p in grid;
    CellsSize(min, max);
    assert grid <= Cells(min, max);
    assert Cells(min, max) == (Cells(min, max) - grid) + grid;
  }

  /** One round as both parts play it: the proposals, and when some elf
      moves, the grid the moves make. */
  method PlayRound(grid: set<Point>, k: nat) returns (anyoneMoved: bool, next: set<Point>)
    ensures anyoneMoved <==> AnyoneMoves(grid)
    ensures anyoneMoved ==> next == NextGrid(grid, RoundOrder(k))
  {
    var proposedList;
    anyoneMoved, proposedList := GetProposedMoves(grid, k % 4);
    next := grid;
    if anyoneMoved {
      next := DoProposedMove(proposedList);
      MoveMakesNextGrid(grid, RoundOrder(k), proposedList, next);
    }
  }

  /** `part_one`: the empty cells of the bounding rectangle after ten
      rounds, stopping early when nobody moves. */
  method PartOne(input: string) returns (tiles: int)
    requires exists p :: ElfAt(Lines(input), p)
    ensures exists min: Point, max: Point ::
              Tight(After(Elves(input), 10), min, max) && tiles == |Cells(min, max) - After(Elves(input), 10)|
  {
    var grid := ParseInput(input);
    ghost var start := grid;
    assert start == Elves(input);
    var p :| ElfAt(Lines(input), p);
    assert p in grid;
    ghost var rounds := 0;
    for i := 0 to 10
      invariant rounds == i && grid == After(start, i)
      invariant |grid| == |start|
    {
      var anyoneMoved, next := PlayRound(grid, i);
      if !anyoneMoved {
        SettledStays(start, i, 10);
        break;
      }
      RoundKeepsElves(grid, RoundOrder(i));
      grid := next;
      rounds := i + 1;
    }
    assert grid == After(start, 10);
    var min, max := Dimensions(grid);
    EmptyTiles(grid, min, max);
    tiles := (max.x + 1 - min.x) * (max.y + 1 - min.y) - |grid|;
  }

  ghost function Elves(input: string): (r: set<Point>)
    ensures forall p: Point :: p in r <==> ElfAt(Lines(input), p)
  {
    var lines := Lines(input);
    var r := set y, x | 0 <= y < |lines| && 0 <= x < |lines[y]| && lines[y][x] == '#' :: Point(x, y);
    assert forall p :: ElfAt(lines, p) ==> p in r by {
      forall p | ElfAt(lines, p) ensures p in r {
        assert p == Point(p.x, p.y);
      }
    }
    r
  }

  /** Some elf still has a neighbour after `k` rounds. */
  ghost predicate Moving(start: set<Point>, k: nat) {
    AnyoneMoves(After(start, k))
  }

  /** `part_two`: the first round in which no elf moves, searched up to
      `limit` rounds. */
  method PartTwo(input: string, limit: nat) returns (r: Option<nat>)
    ensures r.Some? ==> r.value >= 1 && !Moving(Elves(input), r.value - 1)
    ensures r.Some? ==> forall k :: 0 <= k < r.value - 1 ==> Moving(Elves(input), k)
    ensures r.None? ==> forall k :: 0 <= k < limit ==> Moving(Elves(input), k)
  {
    var grid := ParseInput(input);
    assert grid == Elves(input);
    r := Settle(grid, limit);
  }

  /** The loop of `part_two`, from the parsed grid. */
  method Settle(start: set<Point>, limit: nat) returns (r: Option<nat>)
    ensures r.Some? ==> r.value >= 1 && !Moving(start, r.value - 1)
    ensures r.Some? ==> forall k :: 0 <= k < r.value - 1 ==> Moving(start, k)
    ensures r.None? ==> forall k :: 0 <= k < limit ==> Moving(start, k)
  {
    var grid := start;
    var tracker: nat := 1;
    while tracker <= limit
      invariant 1 <= tracker <= limit + 1 && grid == After(start, tracker - 1)
      invariant forall k :: 0 <= k < tracker - 1 ==> Moving(start, k)
      decreases limit + 1 - tracker
    {
      var anyoneMoved, next := PlayRound(grid, tracker - 1);
      if !anyoneMoved {
        r := Some(tracker);
        forall k | 0 <= k < r.value - 1 ensures Moving(start, k) {
          assert k < tracker - 1;
        }
        return;
      }
      forall k | 0 <= k < tracker ensures Moving(start, k) {
        if k == tracker - 1 {
          assert AnyoneMoves(grid);
        }
      }
      grid := next;
      tracker := tracker + 1;
    }
    return None;
  }
}
