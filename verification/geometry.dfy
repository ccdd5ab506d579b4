/** Shared vocabulary of the composition canvas: points, the canvas, and the
    placed image assets (one `div.asset` each). Geometry is exact `real`
    arithmetic; the browser's pixel rounding is not modelled. */
module Geometry {

  /** Width over height of a loaded image; always positive. */
  type Ratio = r: real | r > 0.0 witness 1.0

  /** A pointer position, in the coordinates the event handlers read. */
  datatype Point = Point(x: real, y: real)

  /** The canvas element's client area. */
  datatype Canvas = Canvas(width: real, height: real)

  /** One placed asset: stacking value (`style.zIndex`), top-left corner
      (`style.left`/`style.top`), size (`style.width`/`style.height`) and the
      aspect ratio of its image, captured once when the image loads. The
      layout values the handlers read back (`offsetLeft`, `clientWidth`) are
      taken to equal these, which assumes an asset without padding, border or
      margin, positioned relative to the canvas. */
  datatype Asset = Asset(z: int, left: real, top: real, width: real, height: real, aspect: Ratio)

  /** `Math.min` on two numbers. */
  function Min(a: real, b: real): (r: real)
    ensures r <= a && r <= b
    ensures r == a || r == b
  {
    if a <= b then a else b
  }

  /** `Math.max` on two numbers. */
  function Max(a: real, b: real): (r: real)
    ensures a <= r && b <= r
    ensures r == a || r == b
  {
    if a <= b then b else a
  }

  /** The asset's width over its height equals its image's aspect ratio. */
  predicate AspectLocked(a: Asset)
  {
    a.height > 0.0 && a.width / a.height == a.aspect
  }

  /** The asset is no larger than the canvas on either axis. */
  predicate FitsIn(a: Asset, c: Canvas)
  {
    a.width <= c.width && a.height <= c.height
  }

  /** The asset's whole bounding box lies inside the canvas. */
  predicate Inside(a: Asset, c: Canvas)
  {
    && 0.0 <= a.left && a.left + a.width <= c.width
    && 0.0 <= a.top && a.top + a.height <= c.height
  }
}
