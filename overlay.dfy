/** The overlay position calculator: where to put the overlay window so that
    the mirrored cursor's hotspot lands on the pointer. */
module Overlay {
  import opened Geometry

  /** A system cursor: its image size and the hotspot within the image.
      Cursors are compared by identity; a cursor never changes once made. */
  class Cursor {
    const imageSize: Size
    const hotSpot: Point

    constructor (imageSize: Size, hotSpot: Point)
      ensures this.imageSize == imageSize && this.hotSpot == hotSpot
    {
      this.imageSize := imageSize;
      this.hotSpot := hotSpot;
    }
  }

  /** The arrow test: `c` counts as the arrow cursor when its image size and
      its hotspot equal the arrow's, whatever object it is. */
  function IsArrowCursor(c: Cursor, arrow: Cursor): (b: bool)
    ensures b <==> c.imageSize == arrow.imageSize && c.hotSpot == arrow.hotSpot
    ensures c == arrow ==> b
  {
    c.imageSize == arrow.imageSize && c.hotSpot == arrow.hotSpot
  }

  /** The hotspot measured from the bottom of the image: the arrow reports
      its hotspot from the top, so its vertical component is flipped. */
  function AdjustedHotSpot(c: Cursor, arrow: Cursor): (h: Point)
    ensures h.x == c.hotSpot.x
    ensures !IsArrowCursor(c, arrow) ==> h == c.hotSpot
    ensures IsArrowCursor(c, arrow) ==> h.y == c.imageSize.height - c.hotSpot.y
    ensures 0.0 <= c.hotSpot.y <= c.imageSize.height ==> 0.0 <= h.y <= c.imageSize.height
  {
    var spot := c.hotSpot;
    if IsArrowCursor(c, arrow) then Point(spot.x, c.imageSize.height - spot.y) else spot
  }

  /** The overlay window origin for pointer position `pt`: placing the cursor
      image there puts its adjusted hotspot exactly on `pt`. */
  function FrameOrigin(pt: Point, c: Cursor, arrow: Cursor): (o: Point)
    ensures Translate(o, AdjustedHotSpot(c, arrow)) == pt
    ensures !IsArrowCursor(c, arrow) ==> o == Point(pt.x - c.hotSpot.x, pt.y - c.hotSpot.y)
  {
    var hotSpot := AdjustedHotSpot(c, arrow);
    Point(pt.x - hotSpot.x, pt.y - hotSpot.y)
  }

  /** The origin is the only placement that puts the adjusted hotspot on the pointer. */
  lemma FrameOriginUnique(pt: Point, c: Cursor, arrow: Cursor, o: Point)
    requires Translate(o, AdjustedHotSpot(c, arrow)) == pt
    ensures o == FrameOrigin(pt, c, arrow)
  {
  }

  /** For the arrow with image height H and hotspot (hx, hy), the origin is
      the pointer minus (hx, H - hy). */
  lemma ArrowFrameOrigin(pt: Point, c: Cursor, arrow: Cursor)
    requires IsArrowCursor(c, arrow)
    ensures FrameOrigin(pt, c, arrow) == Point(pt.x - c.hotSpot.x, pt.y - (c.imageSize.height - c.hotSpot.y))
  {
  }

  /** A non-arrow cursor with hotspot (5, 5) at pointer (100, 100) gives origin (95, 95). */
  lemma FrameOriginExample(c: Cursor, arrow: Cursor)
    requires c.hotSpot == Point(5.0, 5.0) && !IsArrowCursor(c, arrow)
    ensures FrameOrigin(Point(100.0, 100.0), c, arrow) == Point(95.0, 95.0)
  {
  }

  /** The arrow test looks at geometry only: a different cursor object with
      the arrow's image size and hotspot is placed exactly like the arrow. */
  lemma LookalikePlacedAsArrow(pt: Point, c: Cursor, arrow: Cursor)
    requires c != arrow && c.imageSize == arrow.imageSize && c.hotSpot == arrow.hotSpot
    ensures IsArrowCursor(c, arrow)
    ensures FrameOrigin(pt, c, arrow) == FrameOrigin(pt, arrow, arrow)
  {
  }
}
