/** The generic two-dimensional point of the shared helpers, with integer
    coordinates. A Rust `Point<T>` with unsigned `T` is modelled by the days
    that use it through their own preconditions. */
module Helpers {
  datatype Point = Point(x: int, y: int)

  /** Component-wise addition. */
  function Add(p: Point, q: Point): (r: Point)
    ensures r.x - q.x == p.x && r.y - q.y == p.y
  {
    Point(p.x + q.x, p.y + q.y)
  }

  /** Component-wise subtraction. */
  function Sub(p: Point, q: Point): (r: Point)
    ensures r.x + q.x == p.x && r.y + q.y == p.y
  {
    Point(p.x - q.x, p.y - q.y)
  }

  /** Subtraction undoes addition. */
  lemma SubOfAdd(p: Point, q: Point)
    ensures Sub(Add(p, q), q) == p
  {
  }

  /** Addition undoes subtraction. */
  lemma AddOfSub(p: Point, q: Point)
    ensures Add(Sub(p, q), q) == p
  {
  }

  lemma AddCommutative(p: Point, q: Point)
    ensures Add(p, q) == Add(q, p)
  {
  }

  lemma AddAssociative(p: Point, q: Point, r: Point)
    ensures Add(Add(p, q), r) == Add(p, Add(q, r))
  {
  }

  /** `PointDirection`, which is not part of this model: taken to be the
      eight compass points, north towards smaller `y`. */
  datatype Direction = North | NorthEast | East | SouthEast | South | SouthWest | West | NorthWest

  /** The offset of one step in a direction. */
  function Offset(d: Direction): Point {
    match d
    case North => Point(0, -1)
    case NorthEast => Point(1, -1)
    case East => Point(1, 0)
    case SouthEast => Point(1, 1)
    case South => Point(0, 1)
    case SouthWest => Point(-1, 1)
    case West => Point(-1, 0)
    case NorthWest => Point(-1, -1)
  }

  predicate Cardinal(d: Direction) {
    d == North || d == South || d == West || d == East
  }

  /** `direction_right`, taken to be a quarter turn clockwise. */
  function Right(d: Direction): (r: Direction)
    ensures Cardinal(r) <==> Cardinal(d)
    ensures Offset(r) == Point(-Offset(d).y, Offset(d).x)
  {
    match d
    case North => East
    case NorthEast => SouthEast
    case East => South
    case SouthEast => SouthWest
    case South => West
    case SouthWest => NorthWest
    case West => North
    case NorthWest => NorthEast
  }
}
