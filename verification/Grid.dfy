/** Exact points of the canonical integer grid and the vector operations on them. */
module Grid {

  datatype Point = Point(x: int, y: int)

  function Plus(a: Point, b: Point): Point {
    Point(a.x + b.x, a.y + b.y)
  }

  function Minus(a: Point, b: Point): Point {
    Point(a.x - b.x, a.y - b.y)
  }

  function Cross(a: Point, b: Point): int {
    a.x * b.y - a.y * b.x
  }

  function Dot(a: Point, b: Point): int {
    a.x * b.x + a.y * b.y
  }

  function SquaredLength(a: Point): int {
    a.x * a.x + a.y * a.y
  }

  function SquaredDistance(a: Point, b: Point): int {
    SquaredLength(Minus(a, b))
  }

  /** The lattice vector `n * v1 + m * v2`. */
  function Combine(v1: Point, v2: Point, n: int, m: int): Point {
    Point(n * v1.x + m * v2.x, n * v1.y + m * v2.y)
  }

  /** Positive exactly when `origin`, `first`, `second` turn left. */
  function Turn(origin: Point, first: Point, second: Point): int {
    Cross(Minus(first, origin), Minus(second, origin))
  }

  function Abs(value: int): nat {
    if value < 0 then -value else value
  }
}
