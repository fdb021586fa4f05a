/** Pixels and axis-aligned boxes of pixels. The bounds of a box are inclusive. */
module Geometry {

  datatype Point = Point(x: int, y: int)

  function Min(a: int, b: int): int {
    if a < b then a else b
  }

  function Max(a: int, b: int): int {
    if a < b then b else a
  }

  /** `Empty` is the box after setEmpty(): extending it by a point gives the box of that point alone. */
  datatype Box = Empty | Box(minX: int, minY: int, maxX: int, maxY: int) {

    predicate IsEmpty() {
      Empty? || maxX < minX || maxY < minY
    }

    predicate Contains(p: Point) {
      Box? && minX <= p.x <= maxX && minY <= p.y <= maxY
    }

    function Extend(p: Point): (b: Box)
      ensures !IsEmpty() ==> b.Contains(p) && forall q | Contains(q) :: b.Contains(q)
    {
      match this
      case Empty => Box(p.x, p.y, p.x, p.y)
      case Box(x0, y0, x1, y1) => Box(Min(x0, p.x), Min(y0, p.y), Max(x1, p.x), Max(y1, p.y))
    }

    function Merged(o: Box): Box {
      match (this, o)
      case (Empty, _) => o
      case (_, Empty) => this
      case (Box(x0, y0, x1, y1), Box(u0, v0, u1, v1)) => Box(Min(x0, u0), Min(y0, v0), Max(x1, u1), Max(y1, v1))
    }

    function Intersection(o: Box): Box {
      match (this, o)
      case (Empty, _) => Empty
      case (_, Empty) => Empty
      case (Box(x0, y0, x1, y1), Box(u0, v0, u1, v1)) => Box(Max(x0, u0), Max(y0, v0), Min(x1, u1), Min(y1, v1))
    }

    /** Every pixel of this box is one of `o`. */
    ghost predicate Within(o: Box) {
      forall p | Contains(p) :: o.Contains(p)
    }
  }
}
