/** The plain records of the raycaster: points, wall segments and direction vectors. */
module Geometry {
  import opened Arith

  datatype Point = Point(x: real, y: real)

  /** A directed segment from (x1, y1) to (x2, y2). */
  datatype Wall = Wall(x1: real, y1: real, x2: real, y2: real) {
    function Start(): Point { Point(x1, y1) }
    function End(): Point { Point(x2, y2) }
  }

  /** A direction as its two components, the `dirX`/`dirY` pair of the camera. */
  datatype Vector = Vector(dx: real, dy: real)

  /** `Math.pow(v, 2)`. */
  function Sq(v: real): (r: real)
    ensures 0.0 <= r
  {
    v * v
  }

  /** The square of the Euclidean distance between `a` and `b`. */
  function SqDist(a: Point, b: Point): (d: real)
    ensures 0.0 <= d
  {
    Sq(a.x - b.x) + Sq(a.y - b.y)
  }

  /** Two different points are a positive squared distance apart. */
  lemma SqDistPositive(a: Point, b: Point)
    requires a != b
    ensures 0.0 < SqDist(a, b)
  {
    if a.x != b.x {
      SquarePos(a.x - b.x, a.x - b.x, Sq(a.x - b.x));
    } else {
      SquarePos(a.y - b.y, a.y - b.y, Sq(a.y - b.y));
    }
  }
}
