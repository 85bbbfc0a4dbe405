/** Monkey map: the two pure computations of the cube walk. A step off one
    face of the cube continues on another face, possibly turned; the
    position inside the new face is `calculate_flipped_wrap`. The final
    position and facing give the password, `calc_password`. Positions are
    face-local, `0 <= x, y < face_size`. The shared `PointDirection` is
    `Helpers.Direction`; its `direction_right` is `Helpers.Right`. */
module Day22 {
  import opened Wrappers
  import opened Helpers
  import Arith

  /** Inside a face of side `n`. */
  predicate InFace(p: Point, n: int) {
    0 <= p.x < n && 0 <= p.y < n
  }

  /** The heading after `turns` quarter turns clockwise, as the source
      matches on it. */
  function Heading(d: Direction, turns: nat): (r: Direction)
    ensures Cardinal(r) <==> Cardinal(d)
  {
    var k := turns % 4;
    if k == 0 then d
    else if k == 1 then Right(d)
    else if k == 2 then Right(Right(d))
    else Right(Right(Right(d)))
  }

  /** The edge a cell leaves its face by when it steps in `d`. */
  predicate OnExitEdge(p: Point, d: Direction, n: int) {
    match d
    case North => p.y == 0
    case East => p.x == n - 1
    case South => p.y == n - 1
    case West => p.x == 0
    case _ => false
  }

  /** The edge a cell enters its face by when it arrives heading `d`. */
  predicate OnEntryEdge(p: Point, d: Direction, n: int) {
    match d
    case North => p.y == n - 1
    case East => p.x == 0
    case South => p.y == 0
    case West => p.x == n - 1
    case _ => false
  }

  /** The coordinate running along the edges crossed when heading `d`. */
  function Along(p: Point, d: Direction): int {
    if d == North || d == South then p.x else p.y
  }

  /** `calculate_flipped_wrap`: where a walker leaving `pos` heading
      `direction` enters the next face, which is turned `turns` quarter
      turns clockwise; `None` where the source panics, on a diagonal
      direction. */
  function FlippedWrap(pos: Point, direction: Direction, faceSize: int, turns: nat): (r: Option<Point>)
    ensures r.Some? <==> Cardinal(direction)
    ensures r.Some? && InFace(pos, faceSize) ==> InFace(r.value, faceSize)
    ensures r.Some? ==> OnEntryEdge(r.value, Heading(direction, turns), faceSize)
  {
    var n := faceSize;
    var k := turns % 4;
    if k == 0 then
      match direction
      case North => Some(Point(pos.x, n - 1))
      case East => Some(Point(0, pos.y))
      case South => Some(Point(pos.x, 0))
      case West => Some(Point(n - 1, pos.y))
      case _ => None
    else if k == 1 then
      match Right(direction)
      case North => Some(Point(n - 1 - pos.y, n - 1))
      case East => Some(Point(0, pos.x))
      case South => Some(Point(n - 1 - pos.y, 0))
      case West => Some(Point(n - 1, pos.x))
      case _ => None
    else if k == 2 then
      match Right(Right(direction))
      case North => Some(Point(n - 1 - pos.x, n - 1))
      case East => Some(Point(0, n - 1 - pos.y))
      case South => Some(Point(n - 1 - pos.x, 0))
      case West => Some(Point(n - 1, n - 1 - pos.y))
      case _ => None
    else
      match Right(Right(Right(direction)))
      case North => Some(Point(pos.y, n - 1))
      case East => Some(Point(0, n - 1 - pos.x))
      case South => Some(Point(pos.y, 0))
      case West => Some(Point(n - 1, n - 1 - pos.x))
      case _ => None
  }

  /** Without a turn the walker keeps its coordinate along the edge and
      enters by the opposite edge, heading the same way. */
  lemma StraightWrap(pos: Point, direction: Direction, faceSize: int, turns: nat)
    requires Cardinal(direction) && turns % 4 == 0
    ensures FlippedWrap(pos, direction, faceSize, turns).Some?
    ensures Along(FlippedWrap(pos, direction, faceSize, turns).value, direction) == Along(pos, direction)
    ensures OnEntryEdge(FlippedWrap(pos, direction, faceSize, turns).value, direction, faceSize)
  {
  }

  /** Where along the entry edge a walker arrives: its place along the exit
      edge, kept or mirrored. */
  lemma WrapAlongEdge(pos: Point, direction: Direction, faceSize: int, turns: nat)
    requires Cardinal(direction)
    ensures var a := Along(FlippedWrap(pos, direction, faceSize, turns).value, Heading(direction, turns));
            a == Along(pos, direction) || a == faceSize - 1 - Along(pos, direction)
  {
  }

  /** Two different cells leaving by the same edge enter the next face at
      different cells. */
  lemma WrapInjective(p: Point, q: Point, direction: Direction, faceSize: int, turns: nat)
    requires Cardinal(direction) && p != q
    requires OnExitEdge(p, direction, faceSize) && OnExitEdge(q, direction, faceSize)
    ensures FlippedWrap(p, direction, faceSize, turns) != FlippedWrap(q, direction, faceSize, turns)
  {
    assert Along(p, direction) != Along(q, direction);
    var k := turns % 4;
    assert k == 0 || k == 1 || k == 2 || k == 3;
  }

  /** Every cell of the entry edge is reached from some cell of the exit
      edge, so the wrap matches the two edges one to one. */
  lemma WrapOnto(q: Point, direction: Direction, faceSize: int, turns: nat)
    requires Cardinal(direction) && InFace(q, faceSize)
    requires OnEntryEdge(q, Heading(direction, turns), faceSize)
    ensures exists p :: InFace(p, faceSize) && OnExitEdge(p, direction, faceSize)
                        && FlippedWrap(p, direction, faceSize, turns) == Some(q)
  {
    var n := faceSize;
    var k := turns % 4;
    var h := Heading(direction, turns);
    var a := if h == North || h == South then q.x else q.y;
    var intended :=
      if k == 0 then a
      else if k == 1 then (if h == North || h == South then n - 1 - a else a)
      else if k == 2 then n - 1 - a
      else (if h == North || h == South then a else n - 1 - a);
    var p := match direction
      case North => Point(intended, 0)
      case East => Point(n - 1, intended)
      case South => Point(intended, n - 1)
      case _ => Point(0, intended);
    assert FlippedWrap(p, direction, n, turns) == Some(q);
  }

  /** The facing part of the password: east 0, south 1, west 2, north 3. */
  function FacingCode(facing: Direction): (r: Option<int>)
    ensures r.Some? <==> Cardinal(facing)
    ensures r.Some? ==> 0 <= r.value < 4
  {
    match facing
    case North => Some(3)
    case East => Some(0)
    case South => Some(1)
    case West => Some(2)
    case _ => None
  }

  /** A right turn adds one to the facing code, modulo four. */
  lemma RightAddsOne(facing: Direction)
    requires Cardinal(facing)
    ensures FacingCode(Right(facing)).value == (FacingCode(facing).value + 1) % 4
  {
  }

  /** Different facings have different codes. */
  lemma FacingCodeInjective(a: Direction, b: Direction)
    requires Cardinal(a) && Cardinal(b) && FacingCode(a) == FacingCode(b)
    ensures a == b
  {
  }

  /** `calc_password`: a thousand times the row plus four times the column,
      both counted from one, plus the facing code; `None` where the source
      panics, on a diagonal facing. */
  function Password(pos: Point, facing: Direction): (r: Option<int>)
    ensures r.Some? <==> Cardinal(facing)
  {
    match FacingCode(facing)
    case Some(code) => Some(1000 * (pos.y + 1) + 4 * (pos.x + 1) + code)
    case None => None
  }

  /** On a board less than 249 columns wide the password gives back the
      row, the column and the facing code. */
  lemma PasswordDecodes(pos: Point, facing: Direction)
    requires Cardinal(facing) && 0 <= pos.x < 249
    ensures var r := Password(pos, facing).value;
            r / 1000 == pos.y + 1 && (r % 1000) / 4 == pos.x + 1 && r % 4 == FacingCode(facing).value
  {
    var r := Password(pos, facing).value;
    var code := FacingCode(facing).value;
    var low := 4 * (pos.x + 1) + code;
    Arith.DivModUnique(r, 1000, pos.y + 1, low);
    Arith.DivModUnique(low, 4, pos.x + 1, code);
    Arith.DivModUnique(r, 4, 250 * (pos.y + 1) + pos.x + 1, code);
  }

  /** So on such a board two final states with the same password are the
      same state. */
  lemma PasswordInjective(p: Point, f: Direction, q: Point, g: Direction)
    requires Cardinal(f) && Cardinal(g) && 0 <= p.x < 249 && 0 <= q.x < 249
    requires Password(p, f) == Password(q, g)
    ensures p == q && f == g
  {
    PasswordDecodes(p, f);
    PasswordDecodes(q, g);
    FacingCodeInjective(f, g);
  }
}
