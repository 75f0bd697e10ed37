/** Screen-space geometry: points, sizes and rectangles in global coordinates. */
module Geometry {

  datatype Point = Point(x: real, y: real)

  datatype Size = Size(width: real, height: real)

  /** A rectangle given by an origin and a size; a negative size extends
      the rectangle towards smaller coordinates, as for the platform's rectangles. */
  datatype Rect = Rect(origin: Point, size: Size) {

    function MinX(): real { if size.width < 0.0 then origin.x + size.width else origin.x }
    function MaxX(): real { if size.width < 0.0 then origin.x else origin.x + size.width }
    function MinY(): real { if size.height < 0.0 then origin.y + size.height else origin.y }
    function MaxY(): real { if size.height < 0.0 then origin.y else origin.y + size.height }

    /** Half-open containment on the standardised rectangle: the minimum
        edges belong to it, the maximum edges do not, and a rectangle of
        zero width or height contains nothing. */
    function Contains(p: Point): (r: bool)
      ensures p.x == MaxX() || p.y == MaxY() ==> !r
      ensures size.width == 0.0 || size.height == 0.0 ==> !r
      ensures p == Point(MinX(), MinY()) ==> (r <==> size.width != 0.0 && size.height != 0.0)
    {
      MinX() <= p.x < MaxX() && MinY() <= p.y < MaxY()
    }
  }

  /** `p` moved by the offset `d`. */
  function Translate(p: Point, d: Point): Point {
    Point(p.x + d.x, p.y + d.y)
  }

  /** Two rectangles that share a vertical edge never both contain a point:
      a pointer on the common edge belongs to the right-hand one only. */
  lemma SharedEdgeBelongsToOne(left: Rect, right: Rect, p: Point)
    requires left.MaxX() == right.MinX()
    ensures !(left.Contains(p) && right.Contains(p))
    ensures p.x == left.MaxX() ==> !left.Contains(p)
  {
  }
}
