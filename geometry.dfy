/** Coordinates, rectangles and colours as iText represents them (floats become reals). */
module Geometry {

  /** `com.itextpdf.text.Rectangle(llx, lly, urx, ury)`: the constructor stores its four corners as given. */
  datatype Rect = Rect(llx: real, lly: real, urx: real, ury: real)
  {
    function Left(): real { llx }
    function Bottom(): real { lly }
    function Width(): real { urx - llx }
    function Height(): real { ury - lly }
  }

  /** A point of text space (`Vector` components I1 and I2). */
  datatype Point = Point(x: real, y: real)

  /** `BaseColor` by its red, green and blue components. */
  datatype Color = Color(red: int, green: int, blue: int)

  const RED: Color := Color(255, 0, 0)
  const GREEN: Color := Color(0, 255, 0)

  /** The rectangle moved right by `dx`. */
  function Shift(r: Rect, dx: real): (s: Rect)
    ensures s.Width() == r.Width() && s.Height() == r.Height()
    ensures s.Left() == r.Left() + dx && s.Bottom() == r.Bottom()
  {
    Rect(r.llx + dx, r.lly, r.urx + dx, r.ury)
  }
}
