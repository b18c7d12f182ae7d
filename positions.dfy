/**
 * Grid positions: an immutable pair of non-negative Java `int` coordinates,
 * validated on construction, with a Manhattan distance.
 */
module Positions {
  import opened Wrappers

  /** Largest Java `int`, `Integer.MAX_VALUE`. */
  const IntMax: int := 0x7fff_ffff
  /** Smallest Java `int`, `Integer.MIN_VALUE`. */
  const IntMin: int := -0x8000_0000

  /** A value of Java's 32-bit `int`. */
  type Int32 = v: int | IntMin <= v <= IntMax

  /** A coordinate that passed validation: a non-negative `int`. */
  type Coord = v: int | 0 <= v <= IntMax

  datatype Position = Position(x: Coord, y: Coord)

  /** The reason the constructor refuses its arguments; `x` is checked before `y`. */
  datatype PositionError = NegativeX(x: int) | NegativeY(y: int)

  /** The validating constructor: a negative coordinate is an error. */
  function NewPosition(x: Int32, y: Int32): (r: Result<Position, PositionError>)
    ensures r.Ok? <==> 0 <= x && 0 <= y
    ensures r.Ok? ==> r.value.x == x && r.value.y == y
    ensures x < 0 ==> r == Err(NegativeX(x))
    ensures 0 <= x && y < 0 ==> r == Err(NegativeY(y))
  {
    if x < 0 then Err(NegativeX(x))
    else if y < 0 then Err(NegativeY(y))
    else Ok(Position(x, y))
  }

  function Abs(v: int): nat
  {
    if v < 0 then -v else v
  }

  /** Java `int` addition: the mathematical sum reduced to 32 bits, two's complement. */
  function WrapInt32(v: int): (r: Int32)
    ensures IntMin <= v <= IntMax ==> r == v
    ensures (r - v) % 0x1_0000_0000 == 0
  {
    var m := (v - IntMin) % 0x1_0000_0000;
    m + IntMin
  }

  /** The Manhattan distance `|x1 - x2| + |y1 - y2|`, on unbounded integers. */
  function Distance(p: Position, q: Position): nat
  {
    Abs(p.x - q.x) + Abs(p.y - q.y)
  }

  /**
   * `distanceTo` as written: `Integer.MAX_VALUE` for a missing position, otherwise
   * the distance computed in 32-bit `int` arithmetic.
   */
  function DistanceTo(p: Position, other: Option<Position>): (r: Int32)
    ensures other.None? ==> r == IntMax
    ensures other.Some? && Distance(p, other.value) <= IntMax ==> r == Distance(p, other.value)
  {
    match other
    case None => IntMax
    case Some(q) => WrapInt32(Abs(p.x - q.x) + Abs(p.y - q.y))
  }

  /**
   * `distanceTo` as its documentation describes it: the exact Manhattan distance,
   * `Integer.MAX_VALUE` standing for a missing position.
   */
  function DistanceOrMax(p: Position, other: Option<Position>): (r: int)
    ensures r >= 0
    ensures other.None? ==> r == IntMax
    ensures other.Some? ==> r == Distance(p, other.value)
  {
    match other
    case None => IntMax
    case Some(q) => Distance(p, q)
  }

  /** Two positions far enough apart make the 32-bit sum wrap around to a negative value. */
  lemma DistanceToOverflows()
    ensures DistanceTo(Position(0, 0), Some(Position(IntMax, IntMax))) == -2
    ensures DistanceOrMax(Position(0, 0), Some(Position(IntMax, IntMax))) == 2 * IntMax
  {
    assert (2 * IntMax - IntMin) % 0x1_0000_0000 == 0x7fff_fffe;
  }

  /** The written and the documented distance agree whenever the sum fits in an `int`. */
  lemma DistanceToAgreesWhenSmall(p: Position, other: Option<Position>)
    requires other.Some? ==> Distance(p, other.value) <= IntMax
    ensures DistanceTo(p, other) == DistanceOrMax(p, other)
  {
  }

  /** Positions inside a `width` x `height` world with `width + height <= 2^31 + 1` never overflow. */
  lemma DistanceFitsInWorld(p: Position, q: Position, width: int, height: int)
    requires p.x < width && q.x < width && p.y < height && q.y < height
    requires width + height <= IntMax + 2
    ensures Distance(p, q) <= IntMax
    ensures DistanceTo(p, Some(q)) == Distance(p, q)
  {
  }

  lemma DistanceSymmetric(p: Position, q: Position)
    ensures Distance(p, q) == Distance(q, p)
  {
  }

  lemma DistanceZeroIffEqual(p: Position, q: Position)
    ensures Distance(p, q) == 0 <==> p == q
  {
  }

  lemma DistanceTriangle(p: Position, q: Position, r: Position)
    ensures Distance(p, r) <= Distance(p, q) + Distance(q, r)
  {
  }
}
