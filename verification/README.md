# Canvas composer: placement, drag, resize, stacking and selection rules

The composer lets a user drop images onto a fixed canvas. Each dropped image
becomes an asset with a position, a size and a stacking value (`z-index`). The
user can drag an asset, resize it from its corner handle, move it up or down
the stack with two buttons, and select assets by clicking them. `main.js` wires
these interactions to browser events. Inside the handlers are a few small,
deterministic rules. This project models those rules as pure Dafny functions
and proves what they guarantee:

- **Placement** (`Placement`). A new asset is 100 units wide. Its height keeps
  the image's aspect ratio. It is centred on the drop point, but it is only
  clamped against the right and bottom edges of the canvas.
- **Drag** (`Drag`). Mousedown records where the pointer grips the asset. Each
  mousemove puts the grip under the pointer. Each axis is then clamped into
  `[0, canvas - size]`.
- **Resize** (`Resize`). Mousedown records the width and the pointer's x. Each
  mousemove sets the width to the recorded width plus the pointer's travel,
  never below 20. The height is the width divided by the aspect ratio, and the
  position does not change.
- **Stacking** (`ZOrder`). A global counter starting at 1 gives each new asset
  its z value. The buttons shift z by +3 or -3, never below 1.
- **Selection** (`Selection`). A plain click selects exactly one asset. A
  ctrl-click toggles one asset. A click on the bare canvas clears the
  selection.
- **Session** (`Editor`). A scene holds the assets, the counter and the
  selection. A step function applies one user event to a scene. An invariant
  holds in every reachable scene: the counter is one past the number of
  assets, every z is at least 1, every width is at least 20, every asset keeps
  its aspect ratio, and only live assets are selected.

Geometry uses exact `real` arithmetic. The aspect ratio is a positive real
(`Geometry.Ratio`), given as an input.

Some rules one might expect are absent from `main.js`, and the model does
not add them:

- No operation re-numbers z values. Values come from an ever-increasing
  counter, and the buttons can produce duplicates and gaps
  (`Editor.DownButtonDuplicatesZ`).
- There are no to-top or to-bottom commands. Moving the top asset up is not a
  no-op, because the value simply grows by 3.
- Placement clamps only from above. A drop near the top-left corner leaves
  the asset partly off the canvas.
- A drag keeps the asset inside the canvas only when the asset fits. A larger
  asset is pinned at a negative position.
- A resize never re-clamps the position, so an asset inside the canvas can
  grow past its right or bottom edge. Being inside the canvas is therefore not
  an invariant of the session.
- `main.js` has no rotation, deletion or export step.

## Model

| member | source | states |
|---|---|---|
| Placement.Place | main.js:33-38 | a new asset is 100 wide, with height such that width/height equals the image's aspect ratio; its right and bottom edges never pass the canvas's; it is centred on the drop point unless that would cross the right (bottom) edge, in which case it sits flush against that edge |
| Placement.PlaceMayLeaveCanvas | main.js:37-38 | there is no lower clamp: a drop closer to the left (top) edge than half the asset's width (height) gives a negative left (top), so the asset is not inside the canvas |
| Drag.StartDrag | main.js:97-101 | with the grip it records, every later move proposes the mousedown corner shifted by the pointer's travel, clamped per axis; a move back to the mousedown point leaves an in-bounds asset unchanged |
| Drag.ClampAxis | main.js:109-110 | one axis of the drag clamp: the result lies in `[0, limit]` when the limit is not negative, keeps an in-range value, raises a negative value to 0, and lowers a value above the limit to it; with a negative limit the result is that limit |
| Drag.DragTo | main.js:107-111 | a drag move changes only the position; an asset that fits the canvas ends wholly inside it; the grip point follows the pointer while the proposed position is in bounds; an asset wider (taller) than the canvas is pinned with its right (bottom) edge on the canvas's and a negative left (top) |
| Drag.DragMoves | main.js:107-111 | a whole gesture keeps size, z and aspect, and leaves an asset that fits the canvas inside it after at least one move |
| Drag.DragFollowsDelta | main.js:100-110 | corollary of `Drag.StartDrag` at one pointer: the proposed corner is the corner at mousedown plus the pointer's travel, then clamped per axis |
| Drag.DragInPlace | main.js:100-110 | corollary of `Drag.StartDrag`: a pointer that has not moved leaves an in-bounds asset unchanged |
| Drag.DragIdempotent | main.js:109-110 | clamping twice is clamping once: re-gripping the result and not moving changes nothing, also for an asset larger than the canvas |
| Drag.DragMovesLast | main.js:100-110 | the grip is fixed at mousedown, so a gesture's result depends only on its last pointer position |
| Resize.StartResize | main.js:120-124 | with the handle it records, every later move gives width `max(20, mousedown width + pointer travel)` and keeps the asset's own aspect ratio; a move back to the mousedown x keeps any width of at least 20 |
| Resize.ResizeTo | main.js:129-136 | the new width is at least 20, at least the recorded width plus the pointer's travel, and equal to that whenever it is at least 20; width/height equals the aspect ratio; position and z are untouched |
| Resize.ResizeMoves | main.js:129-136 | after any non-empty gesture the width is at least 20 and width/height equals the aspect ratio; position and z never change |
| Resize.ResizeKeepsAspect | main.js:61-64 | corollary of `Resize.StartResize`: a resize started on an asset keeps that asset's own aspect ratio, the one its handle was created with |
| Resize.ResizeInPlace | main.js:123-132 | with no pointer travel an aspect-locked asset at least 20 wide is unchanged altogether (its width half repeats `Resize.StartResize`) |
| Resize.ResizeMayLeaveCanvas | main.js:129-136 | a resize never moves the corner or consults the canvas: when the pointer travels further right than the room left, the asset ends outside the canvas |
| Resize.ResizeMovesLast | main.js:123-131 | the width is measured from mousedown, not from the previous move, so only a gesture's last pointer position matters |
| ZOrder.MoveLayer | main.js:86-90 | the new value is at least 1 and at least z + direction, and equals z + direction whenever that is at least 1 |
| ZOrder.UpThenDownRestores | main.js:49-53 | the up button then the down button restores any z of at least 1 |
| ZOrder.DownNearFloor | main.js:88 | the down button on any z up to 4 gives 1 |
| ZOrder.DownThenUpOvershoots | main.js:88 | down then up is not an inverse at the floor: 2 becomes 1, then 4 |
| ZOrder.MoveLayerMonotone | main.js:88 | moving by the same direction never reverses the order of two z values, though it may merge them |
| Selection.Toggle | main.js:73 | only the toggled asset's membership flips; every other asset keeps its own |
| Selection.DeselectAll | main.js:82-84 | every asset of the document loses `selected`; if all selected assets are in the document, nothing stays selected |
| Selection.SelectAsset | main.js:69-79 | ctrl-click flips the clicked asset alone; a plain click selects the clicked asset and deselects every other asset of the document, which leaves exactly `{asset}` |
| Selection.CtrlClickTwice | main.js:72-73 | two ctrl-clicks on one asset restore the selection |
| Selection.PlainClickIdempotent | main.js:74-77 | a second plain click on the same asset changes nothing |
| Selection.CtrlClickAddsToSelection | main.js:72-73 | ctrl-clicking an unselected asset adds it and keeps every asset already selected |
| Geometry.Min | main.js:37-38 | `Math.min`: the result is at most both arguments and equals one of them |
| Geometry.Max | main.js:131 | `Math.max`: the result is at least both arguments and equals one of them |
| Editor.IdsBelow | main.js:75 | the assets in the document are exactly the first n created, ids 0 to n-1 |
| Editor.Ids | main.js:82-84 | `querySelectorAll('.asset')` yields exactly the live assets of the scene |
| Editor.UpdateAsset | main.js:89 | writing one asset's style changes that asset alone; the other assets, the counter and the selection stay as they were |
| Editor.CreateAsset | main.js:22-38 | the new asset is exactly what the placement rule gives for the drop at the counter's current value: 100 wide, aspect-locked, right edge within the canvas, centred on the drop x when that fits; the counter grows by exactly 1; earlier assets and the selection are untouched |
| Editor.DropAll | main.js:22-28 | after a run of drops, the k-th new asset has z equal to the starting counter plus k, and the counter has grown by the number of drops |
| Editor.FreshDropsNumbered | main.js:22-28 | assets dropped on a fresh page get z = 1, 2, 3, ...: strictly increasing and distinct |
| Editor.Step | main.js:14-136 | only a drop adds an asset or advances the counter; only clicks change the selection |
| Editor.Run | main.js:22-28 | over any session, assets are never removed, the counter advances exactly once per drop, and each asset's aspect ratio never changes |
| Editor.StepPreservesValid | main.js:22-136 | every event keeps the invariant: counter one past the asset count, every z at least 1, every width at least 20, every asset aspect-locked, selection within the live assets |
| Editor.RunPreservesValid | main.js:22-136 | the invariant holds after any sequence of events |
| Editor.ReachableScenesValid | main.js:22-136 | every scene reachable from the page as loaded satisfies the invariant |
| Editor.UpThenDownRestoresScene | main.js:86-90 | up then down on one asset of a reachable scene restores the whole scene |
| Editor.ResizeInPlaceScene | main.js:123-135 | in a reachable scene, a resize gesture whose only move is back to the mousedown x leaves the whole scene unchanged |
| Editor.DownButtonDuplicatesZ | main.js:86-90 | after two drops on the loaded page and the down button on the second asset, both assets have z = 1: the buttons can make z values collide |
| Editor.StillDragMovesOffCanvasAsset | main.js:97-110 | a drag that returns to its mousedown point still moves an asset that is off the canvas: one dropped at x = 10 on a 600-wide canvas goes from left -40 to left 0 (a layer-button press starts such a drag) |
| Editor.ClicksOnValidScene | main.js:69-84 | in a reachable scene a plain click leaves exactly the clicked asset selected, and a canvas click leaves nothing selected |
| Editor.GestureTouchesOneAsset | main.js:86-136 | a layer button, drag or resize on one asset leaves every other asset unchanged |
| Editor.DragStaysInside | main.js:97-111 | dragging an asset that fits the canvas keeps its whole box inside the canvas |

## Left out

- Event wiring is not modelled: `addEventListener`/`removeEventListener`, `dataTransfer`, `preventDefault`, and the creation of handles and buttons (main.js:1-20, 40-66, 103-104, 113-118, 138-143). The drop handler creates an asset only when the dragged data carries a URL. A `DropAsset` event stands for such a drop.
- The drop position is not modelled relative to the canvas in all cases. The drop handler passes `e.offsetX`/`e.offsetY` (main.js:18), which are measured from the element under the pointer. The model's (x, y) is that offset, and the asset is placed in the canvas's frame. So centring on the drop point holds only for drops on bare canvas. A drop onto an existing asset, its handle or a layer button reports an offset from that element's corner.
- Event bubbling is not modelled. In the page, a click on a layer button also reaches the asset's click handler and selects the asset. A drag released over the asset ends in a click that selects it. A drag released over bare canvas ends in a click that clears the selection. Pressing a layer button also starts a drag of that asset, so a stray mousemove during the press can re-clamp its position (`Editor.StillDragMovesOffCanvasAsset`). The model treats each interaction as a separate event, and its `LayerButton` event changes only z.
- The gesture flags (`isDragging`, `isResizing`, `activeAsset`, `resizingAsset`) are not modelled. A gesture is one event, so two gestures never interleave.
- Asynchronous image loading is not modelled. In the page, the z value is set when the asset is created, and the size and position only when the image loads. The model does both at once, with the aspect ratio as an input. An image that never loads is not modelled. Neither is an image with zero width (aspect 0, so height `100 / 0`) or zero height (aspect not finite). `Geometry.Ratio` requires a positive ratio.
- The page layout is assumed, not modelled. The handlers read `clientWidth` (main.js:109, 123) and `offsetLeft`/`offsetTop` (main.js:100-101), and the model takes these to be the asset's `style.width`, `style.left` and `style.top`. That holds only if `.asset` has no padding, border or margin and the canvas is its offset parent. The stylesheet is not part of this model. With padding p and content-box sizing, for example, `initialWidth` is w + 2p, so a resize with no pointer travel would widen the asset by 2p. In such a page, `Resize.ResizeInPlace` and `Editor.ResizeInPlaceScene` would not hold. The same goes for `Drag.DragInPlace` if the offsets differ from the style position.
- Browser number handling is not modelled: `offsetLeft` and `clientWidth` are rounded to whole pixels, styles are strings read back with `parseInt`, and arithmetic is IEEE double precision. The model uses exact reals and integers, so aspect equality is exact only in the model, and the counter never loses precision.
- Rotation, deletion, z re-numbering, to-top and to-bottom, and export are not in `main.js`, so the model has none of them.
- Editor.Step: its own contract only frames which parts of the scene each kind of event may change. The per-event properties are stated by the lemmas below it and by the members it calls.
