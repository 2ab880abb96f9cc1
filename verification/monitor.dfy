/**
 The capture rectangle `get_monitor_area` derives from the primary
 monitor's size. The monitor lookup itself is foreign code, so the width
 and height arrive as parameters.
 */
module Monitor {

  /** A screen rectangle in the form the capture library takes it. */
  datatype Rect = Rect(top: int, left: int, width: int, height: int)

  /** The capture rectangle: it starts 30% of the way down and 25% of the
      way across and spans half the width and half the height, every
      quantity rounded down (Python's `//`). Dafny's `/` by a positive
      constant also rounds down, so the arithmetic is exact for every int. */
  function MonitorArea(screenWidth: int, screenHeight: int): (r: Rect)
    ensures r.top * 100 <= 30 * screenHeight < (r.top + 1) * 100
    ensures r.left * 100 <= 25 * screenWidth < (r.left + 1) * 100
    ensures r.width * 2 <= screenWidth < (r.width + 1) * 2
    ensures r.height * 2 <= screenHeight < (r.height + 1) * 2
    ensures 0 <= screenWidth ==> 0 <= r.left && 0 <= r.width && r.left + r.width <= screenWidth
    ensures 0 <= screenHeight ==> 0 <= r.top && 0 <= r.height && r.top + r.height <= screenHeight
  {
    Rect(30 * screenHeight / 100, 25 * screenWidth / 100, screenWidth / 2, screenHeight / 2)
  }

  /** Horizontally the rectangle is centred up to rounding: the margin to
      its right is at least the margin to its left and exceeds it by at
      most two pixels. */
  lemma MonitorAreaHorizontallyCentred(screenWidth: int, screenHeight: int)
    requires 0 <= screenWidth
    ensures var r := MonitorArea(screenWidth, screenHeight);
            r.left <= screenWidth - (r.left + r.width) <= r.left + 2
  {
  }
}
