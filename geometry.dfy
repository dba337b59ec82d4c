/** Integer image geometry shared by the vision modules (OpenCV's cv::Point and cv::Rect). */
module Geometry {
  /** A pixel position: `x` is the column, `y` the row. */
  datatype Point = Point(x: int, y: int)

  /** An axis-aligned rectangle with its top-left corner at (x, y). */
  datatype Rect = Rect(x: int, y: int, width: int, height: int)

  function Abs(v: int): nat
  {
    if v < 0 then -v else v
  }

  function Min(a: int, b: int): int
  {
    if a <= b then a else b
  }

  function Max(a: int, b: int): int
  {
    if a <= b then b else a
  }
}
