/** Dragging an asset with the mouse. `startDrag` records where the pointer
    grabbed the asset; every later `mousemove` puts the top-left corner where
    that grip now is, clamped axis by axis into `[0, canvas - size]`. */
module Drag {
  import opened Geometry

  /** The pointer's offset from the asset's top-left corner, taken on mousedown. */
  datatype Grip = Grip(offsetX: real, offsetY: real)

  /** `startDrag`: remember where the pointer holds the asset. Every later
      move then proposes the mousedown corner shifted by the pointer's
      travel, and holding still leaves an in-bounds asset where it is. */
  function StartDrag(a: Asset, pointer: Point): (g: Grip)
    ensures forall p: Point, c: Canvas {:trigger DragTo(a, g, p, c)} ::
              && DragTo(a, g, p, c).left == ClampAxis(a.left + (p.x - pointer.x), c.width - a.width)
              && DragTo(a, g, p, c).top == ClampAxis(a.top + (p.y - pointer.y), c.height - a.height)
    ensures forall c: Canvas {:trigger DragTo(a, g, pointer, c)} ::
              Inside(a, c) ==> DragTo(a, g, pointer, c) == a
  {
    Grip(pointer.x - a.left, pointer.y - a.top)
  }

  /** `min(max(v, 0), limit)` for one axis, where limit is the canvas's extent
      minus the asset's. */
  function ClampAxis(v: real, limit: real): (r: real)
    ensures 0.0 <= limit ==> 0.0 <= r <= limit
    ensures 0.0 <= v <= limit ==> r == v
    ensures v < 0.0 <= limit ==> r == 0.0
    ensures limit < v ==> r == limit
    // an asset larger than the canvas is pinned at the (negative) limit
    ensures limit < 0.0 ==> r == limit
  {
    Min(Max(v, 0.0), limit)
  }

  /** `drag`: one mousemove to `pointer` while holding the asset at grip g. */
  function DragTo(a: Asset, g: Grip, pointer: Point, c: Canvas): (r: Asset)
    ensures r.z == a.z && r.aspect == a.aspect
    ensures r.width == a.width && r.height == a.height
    // containment holds whenever the asset fits the canvas
    ensures FitsIn(a, c) ==> Inside(r, c)
    // the grip point follows the pointer as long as that stays in bounds
    ensures 0.0 <= pointer.x - g.offsetX && pointer.x - g.offsetX + a.width <= c.width
            ==> r.left + g.offsetX == pointer.x
    ensures 0.0 <= pointer.y - g.offsetY && pointer.y - g.offsetY + a.height <= c.height
            ==> r.top + g.offsetY == pointer.y
    // an asset wider (taller) than the canvas ends up left of (above) it
    ensures a.width > c.width ==> r.left + r.width == c.width && r.left < 0.0
    ensures a.height > c.height ==> r.top + r.height == c.height && r.top < 0.0
  {
    a.(left := ClampAxis(pointer.x - g.offsetX, c.width - a.width),
       top := ClampAxis(pointer.y - g.offsetY, c.height - a.height))
  }

  /** A whole drag gesture: the mousemoves between mousedown and mouseup. */
  function DragMoves(a: Asset, g: Grip, moves: seq<Point>, c: Canvas): (r: Asset)
    decreases |moves|
    ensures r.z == a.z && r.aspect == a.aspect
    ensures r.width == a.width && r.height == a.height
    ensures FitsIn(a, c) && Inside(a, c) ==> Inside(r, c)
    ensures |moves| > 0 && FitsIn(a, c) ==> Inside(r, c)
  {
    if moves == [] then a else DragMoves(DragTo(a, g, moves[0], c), g, moves[1..], c)
  }

  /** Corollary of `StartDrag`'s first ensures, at one pointer: a drag moves
      the asset by the pointer's travel since mousedown, clamped per axis. */
  lemma DragFollowsDelta(a: Asset, start: Point, pointer: Point, c: Canvas)
    ensures var r := DragTo(a, StartDrag(a, start), pointer, c);
            && r.left == ClampAxis(a.left + (pointer.x - start.x), c.width - a.width)
            && r.top == ClampAxis(a.top + (pointer.y - start.y), c.height - a.height)
  {
  }

  /** Corollary of `StartDrag`'s second ensures: a pointer that has not
      moved leaves an in-bounds asset where it is. */
  lemma DragInPlace(a: Asset, p: Point, c: Canvas)
    requires Inside(a, c)
    ensures DragTo(a, StartDrag(a, p), p, c) == a
  {
  }

  /** Clamping twice equals clamping once: grabbing a dragged asset again and
      not moving changes nothing, even when the asset is larger than the canvas. */
  lemma DragIdempotent(a: Asset, g: Grip, p: Point, q: Point, c: Canvas)
    ensures var b := DragTo(a, g, p, c);
            DragTo(b, StartDrag(b, q), q, c) == b
  {
  }

  /** The grip is fixed for the whole gesture, so each move overrides the
      previous one: only the last pointer position matters. */
  lemma {:induction false} DragMovesLast(a: Asset, g: Grip, moves: seq<Point>, c: Canvas)
    requires |moves| > 0
    ensures DragMoves(a, g, moves, c) == DragTo(a, g, moves[|moves| - 1], c)
    decreases |moves|
  {
    var b := DragTo(a, g, moves[0], c);
    if |moves| > 1 {
      DragMovesLast(b, g, moves[1..], c);
      assert moves[1..][|moves[1..]| - 1] == moves[|moves| - 1];
    }
  }
}
