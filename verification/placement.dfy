/** Where `createAsset` puts a freshly dropped image once it has loaded:
    a fixed width, the height that keeps the image's aspect ratio, and a
    top-left corner that centres the asset on the drop point (the offset the
    drop event reports) unless that would push it past the canvas's right or
    bottom edge. Nothing stops it from sticking out past the left or top
    edge. */
module Placement {
  import opened Geometry

  /** Every asset starts this wide. */
  const InitialWidth: real := 100.0

  /** The asset created for a drop at (x, y), carrying stacking value z. */
  function Place(z: int, x: real, y: real, aspect: Ratio, c: Canvas): (a: Asset)
    ensures a.z == z && a.aspect == aspect
    ensures a.width == InitialWidth
    ensures AspectLocked(a)
    // upper clamp only: the right and bottom edges never pass the canvas's
    ensures a.left + a.width <= c.width
    ensures a.top + a.height <= c.height
    // centred on the drop point whenever the upper clamp does not bite
    ensures x + a.width / 2.0 <= c.width ==> a.left + a.width / 2.0 == x
    ensures y + a.height / 2.0 <= c.height ==> a.top + a.height / 2.0 == y
    // otherwise pushed back exactly against the right or bottom edge
    ensures x + a.width / 2.0 > c.width ==> a.left + a.width == c.width
    ensures y + a.height / 2.0 > c.height ==> a.top + a.height == c.height
  {
    var h := InitialWidth / aspect;
    Asset(z, Min(x - InitialWidth / 2.0, c.width - InitialWidth),
          Min(y - h / 2.0, c.height - h), InitialWidth, h, aspect)
  }

  /** There is no lower clamp: a drop closer to the canvas's left (top)
      edge than half the asset's width (height) places the asset partly
      outside the canvas. */
  lemma PlaceMayLeaveCanvas(z: int, x: real, y: real, aspect: Ratio, c: Canvas)
    ensures x < InitialWidth / 2.0 ==> Place(z, x, y, aspect, c).left < 0.0
    ensures y < (InitialWidth / aspect) / 2.0 ==> Place(z, x, y, aspect, c).top < 0.0
    ensures x < InitialWidth / 2.0 || y < (InitialWidth / aspect) / 2.0
            ==> !Inside(Place(z, x, y, aspect, c), c)
  {
  }
}
