/** Plain geometric values shared by recognition results and draw commands. */
module Geometry {
  /** `android.graphics.Rect`: integer edges, as reported by the detectors. */
  datatype Rect = Rect(left: int, top: int, right: int, bottom: int)

  /** `android.graphics.RectF`: the floating-point rectangle a graphic draws
      (floats are modelled as reals). */
  datatype RectF = RectF(left: real, top: real, right: real, bottom: real)

  /** A point in image pixels, such as a face landmark position. */
  datatype PointF = PointF(x: real, y: real)

  /** `RectF(rect)`: the same edges, converted to floating point. */
  function ToRectF(r: Rect): RectF {
    RectF(r.left as real, r.top as real, r.right as real, r.bottom as real)
  }
}
