/** Resizing an asset by its corner handle. `startResize` records the asset's
    width and the pointer's x; every later `mousemove` sets the width to the
    recorded width plus the pointer's horizontal travel, never below a
    minimum, and derives the height from the image's aspect ratio. The
    top-left corner stays put. */
module Resize {
  import opened Geometry

  /** No resize makes an asset narrower than this. */
  const MinWidth: real := 20.0

  /** What `startResize` captures: the width and pointer x at mousedown, and
      the aspect ratio of the asset's image. */
  datatype Handle = Handle(initialWidth: real, initialX: real, aspect: Ratio)

  /** `startResize` on the corner handle of asset a. Every later move then
      measures the width from a's width at mousedown, keeps a's own aspect
      ratio, and holding still keeps a width of at least the minimum. */
  function StartResize(a: Asset, pointerX: real): (h: Handle)
    ensures forall x: real {:trigger ResizeTo(a, h, x)} ::
              && ResizeTo(a, h, x).width == Max(MinWidth, a.width + (x - pointerX))
              && AspectLocked(ResizeTo(a, h, x))
    ensures a.width >= MinWidth ==> ResizeTo(a, h, pointerX).width == a.width
  {
    Handle(a.width, pointerX, a.aspect)
  }

  /** `resize`: one mousemove to horizontal position pointerX. */
  function ResizeTo(a: Asset, h: Handle, pointerX: real): (r: Asset)
    ensures r.width >= MinWidth
    ensures r.height > 0.0 && r.width / r.height == h.aspect
    ensures r.left == a.left && r.top == a.top
    ensures r.z == a.z && r.aspect == a.aspect
    // the width follows the pointer's travel until it would drop below the minimum
    ensures r.width >= h.initialWidth + (pointerX - h.initialX)
    ensures h.initialWidth + (pointerX - h.initialX) >= MinWidth
            ==> r.width == h.initialWidth + (pointerX - h.initialX)
    ensures h.initialWidth + (pointerX - h.initialX) < MinWidth ==> r.width == MinWidth
  {
    var w := Max(MinWidth, h.initialWidth + (pointerX - h.initialX));
    a.(width := w, height := w / h.aspect)
  }

  /** A whole resize gesture: the mousemoves between mousedown and mouseup. */
  function ResizeMoves(a: Asset, h: Handle, xs: seq<real>): (r: Asset)
    decreases |xs|
    ensures r.left == a.left && r.top == a.top
    ensures r.z == a.z && r.aspect == a.aspect
    ensures |xs| > 0 ==> r.width >= MinWidth
    ensures |xs| > 0 ==> r.height > 0.0 && r.width / r.height == h.aspect
  {
    if xs == [] then a else ResizeMoves(ResizeTo(a, h, xs[0]), h, xs[1..])
  }

  /** Corollary of `StartResize`'s first ensures: a resize started on an
      asset keeps that asset's aspect lock. */
  lemma ResizeKeepsAspect(a: Asset, x0: real, x: real)
    ensures AspectLocked(ResizeTo(a, StartResize(a, x0), x))
  {
  }

  /** With no pointer travel an aspect-locked asset at least the minimum
      wide is unchanged altogether. The width half is `StartResize`'s second
      ensures, repeated here so the lemma states the whole no-op. */
  lemma ResizeInPlace(a: Asset, x: real)
    requires a.width >= MinWidth
    ensures ResizeTo(a, StartResize(a, x), x).width == a.width
    ensures AspectLocked(a) ==> ResizeTo(a, StartResize(a, x), x) == a
  {
  }

  /** Resizing never consults the canvas and never moves the corner, so an
      asset inside the canvas grows past its right edge when the pointer
      travels further than the room left on that side. */
  lemma ResizeMayLeaveCanvas(a: Asset, x0: real, x: real, c: Canvas)
    requires a.left + a.width + (x - x0) > c.width
    ensures !Inside(ResizeTo(a, StartResize(a, x0), x), c)
  {
  }

  /** The width is taken from mousedown, not from the previous move, so only
      the last pointer position of a gesture matters. */
  lemma {:induction false} ResizeMovesLast(a: Asset, h: Handle, xs: seq<real>)
    requires |xs| > 0
    ensures ResizeMoves(a, h, xs) == ResizeTo(a, h, xs[|xs| - 1])
    decreases |xs|
  {
    var b := ResizeTo(a, h, xs[0]);
    if |xs| > 1 {
      ResizeMovesLast(b, h, xs[1..]);
      assert xs[1..][|xs[1..]| - 1] == xs[|xs| - 1];
    }
  }
}
