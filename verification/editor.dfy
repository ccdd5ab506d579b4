/** The whole editing session as a state machine: the assets created so far
    (an asset's id is its creation index), the z counter, and the selection.
    Each user interaction is one event; a drag or resize gesture is its
    mousedown point followed by the mousemoves before mouseup. */
module Editor {
  import opened Geometry
  import Placement
  import Drag
  import Resize
  import ZOrder
  import Selection

  datatype Scene = Scene(assets: seq<Asset>, zCounter: int, selected: set<Selection.AssetId>)

  /** A dropped image: the offset inside the drop target that the drop event
      reports, and the aspect ratio of the image once loaded. */
  datatype DropPoint = DropPoint(x: real, y: real, aspect: Ratio)

  datatype Event =
    | DropAsset(drop: DropPoint)
    | ClickAsset(id: nat, ctrl: bool)
    | ClickCanvas
    | LayerButton(id: nat, up: bool)
    | DragAsset(id: nat, start: Point, moves: seq<Point>)
    | ResizeAsset(id: nat, startX: real, xs: seq<real>)

  /** The page as loaded: no assets, counter at its initial value. */
  const Empty: Scene := Scene([], ZOrder.InitialCounter, {})

  /** Every asset of the document. */
  function Ids(s: Scene): (ids: set<Selection.AssetId>)
    ensures forall i: nat :: i in ids <==> i < |s.assets|
  {
    IdsBelow(|s.assets|)
  }

  /** The ids of the first n assets created. */
  function IdsBelow(n: nat): (ids: set<Selection.AssetId>)
    ensures forall i: nat :: i in ids <==> i < n
  {
    if n == 0 then {} else IdsBelow(n - 1) + {n - 1}
  }

  /** What holds of every scene the editor can reach. */
  predicate Valid(s: Scene)
  {
    && s.zCounter == ZOrder.InitialCounter + |s.assets|
    && (forall i :: 0 <= i < |s.assets| ==> WellFormed(s.assets[i]))
    && s.selected <= Ids(s)
  }

  /** A single asset as every handler leaves it: placement makes it 100 wide,
      a resize never below the minimum, and a drag keeps the width. */
  predicate WellFormed(a: Asset)
  {
    a.z >= ZOrder.Floor && a.width >= Resize.MinWidth && AspectLocked(a)
  }

  /** `createAsset` followed by the image's load: the new asset takes the
      counter's value, is placed by the placement rule, and the counter moves
      on by one. */
  function CreateAsset(s: Scene, d: DropPoint, c: Canvas): (r: Scene)
    ensures |r.assets| == |s.assets| + 1
    ensures forall i :: 0 <= i < |s.assets| ==> r.assets[i] == s.assets[i]
    ensures r.assets[|s.assets|] == Placement.Place(s.zCounter, d.x, d.y, d.aspect, c)
    ensures r.assets[|s.assets|].z == s.zCounter
    ensures r.assets[|s.assets|].width == Placement.InitialWidth
    ensures r.assets[|s.assets|].left + Placement.InitialWidth <= c.width
    ensures d.x + Placement.InitialWidth / 2.0 <= c.width
            ==> r.assets[|s.assets|].left + Placement.InitialWidth / 2.0 == d.x
    ensures AspectLocked(r.assets[|s.assets|])
    ensures r.zCounter == s.zCounter + 1
    ensures r.selected == s.selected
  {
    s.(assets := s.assets + [Placement.Place(s.zCounter, d.x, d.y, d.aspect, c)],
       zCounter := s.zCounter + 1)
  }

  /** A run of drops with nothing in between. */
  function DropAll(s: Scene, drops: seq<DropPoint>, c: Canvas): (r: Scene)
    decreases |drops|
    ensures |r.assets| == |s.assets| + |drops|
    ensures forall i :: 0 <= i < |s.assets| ==> r.assets[i] == s.assets[i]
    ensures forall i :: |s.assets| <= i < |r.assets| ==> r.assets[i].z == s.zCounter + (i - |s.assets|)
    ensures r.zCounter == s.zCounter + |drops|
    ensures r.selected == s.selected
  {
    if drops == [] then s else DropAll(CreateAsset(s, drops[0], c), drops[1..], c)
  }

  /** Assets dropped onto a fresh page are numbered 1, 2, 3, ...: strictly
      increasing, hence distinct. */
  lemma FreshDropsNumbered(drops: seq<DropPoint>, c: Canvas)
    ensures var r := DropAll(Empty, drops, c);
            && (forall i :: 0 <= i < |r.assets| ==> r.assets[i].z == i + 1)
            && (forall i, j :: 0 <= i < j < |r.assets| ==> r.assets[i].z < r.assets[j].z)
  {
  }

  /** Replace asset id by a, leaving every other asset alone. */
  function UpdateAsset(s: Scene, id: nat, a: Asset): (r: Scene)
    requires id < |s.assets|
    ensures |r.assets| == |s.assets| && r.assets[id] == a
    ensures forall j :: 0 <= j < |s.assets| && j != id ==> r.assets[j] == s.assets[j]
    ensures r.zCounter == s.zCounter && r.selected == s.selected
  {
    s.(assets := s.assets[id := a])
  }

  /** One interaction on canvas c. Events naming an asset that does not
      exist cannot arise in the page and leave the scene unchanged. */
  function Step(s: Scene, e: Event, c: Canvas): (r: Scene)
    ensures !e.DropAsset? ==> |r.assets| == |s.assets| && r.zCounter == s.zCounter
    ensures !e.ClickAsset? && !e.ClickCanvas? ==> r.selected == s.selected
  {
    match e
    case DropAsset(d) => CreateAsset(s, d, c)
    case ClickAsset(id, ctrl) =>
      if id < |s.assets| then s.(selected := Selection.SelectAsset(Ids(s), s.selected, id, ctrl)) else s
    case ClickCanvas => s.(selected := Selection.DeselectAll(Ids(s), s.selected))
    case LayerButton(id, up) =>
      if id < |s.assets| then
        var a := s.assets[id];
        UpdateAsset(s, id, a.(z := ZOrder.MoveLayer(a.z, if up then ZOrder.UpStep else ZOrder.DownStep)))
      else s
    case DragAsset(id, start, moves) =>
      if id < |s.assets| then
        var a := s.assets[id];
        UpdateAsset(s, id, Drag.DragMoves(a, Drag.StartDrag(a, start), moves, c))
      else s
    case ResizeAsset(id, startX, xs) =>
      if id < |s.assets| then
        var a := s.assets[id];
        UpdateAsset(s, id, Resize.ResizeMoves(a, Resize.StartResize(a, startX), xs))
      else s
  }

  /** How many of the events are drops. */
  function DropCount(es: seq<Event>): nat
  {
    if es == [] then 0 else (if es[0].DropAsset? then 1 else 0) + DropCount(es[1..])
  }

  /** A session: the events in order. Assets are never removed, and the
      counter advances exactly once per drop. */
  function Run(s: Scene, es: seq<Event>, c: Canvas): (r: Scene)
    decreases |es|
    ensures |r.assets| == |s.assets| + DropCount(es)
    ensures r.zCounter == s.zCounter + DropCount(es)
    ensures forall i :: 0 <= i < |s.assets| ==> r.assets[i].aspect == s.assets[i].aspect
  {
    if es == [] then s else Run(Step(s, es[0], c), es[1..], c)
  }

  /** Every event keeps the scene invariant. */
  lemma StepPreservesValid(s: Scene, e: Event, c: Canvas)
    requires Valid(s)
    ensures Valid(Step(s, e, c))
  {
  }

  /** Any sequence of events from a scene satisfying `Valid` ends in a
      scene satisfying `Valid`. */
  lemma {:induction false} RunPreservesValid(s: Scene, es: seq<Event>, c: Canvas)
    requires Valid(s)
    ensures Valid(Run(s, es, c))
    decreases |es|
  {
    if es != [] {
      StepPreservesValid(s, es[0], c);
      RunPreservesValid(Step(s, es[0], c), es[1..], c);
    }
  }

  /** Every scene reachable from the page as loaded satisfies the invariant. */
  lemma ReachableScenesValid(es: seq<Event>, c: Canvas)
    ensures Valid(Run(Empty, es, c))
  {
    RunPreservesValid(Empty, es, c);
  }

  /** The up button followed by the down button on the same asset restores
      the whole scene. */
  lemma UpThenDownRestoresScene(s: Scene, id: nat, c: Canvas)
    requires Valid(s) && id < |s.assets|
    ensures Step(Step(s, LayerButton(id, true), c), LayerButton(id, false), c) == s
  {
    ZOrder.UpThenDownRestores(s.assets[id].z);
  }

  /** A resize gesture whose only move is back to the mousedown x changes
      nothing in a reachable scene, since every live asset is at least the
      minimum wide and aspect-locked. */
  lemma ResizeInPlaceScene(s: Scene, id: nat, x: real, c: Canvas)
    requires Valid(s) && id < |s.assets|
    ensures Step(s, ResizeAsset(id, x, [x]), c) == s
  {
    var a := s.assets[id];
    Resize.ResizeMovesLast(a, Resize.StartResize(a, x), [x]);
    Resize.ResizeInPlace(a, x);
    assert s.assets[id := a] == s.assets;
  }

  /** The down button can give two assets the same z: after two drops on the
      loaded page, the second asset moved down shares z = 1 with the first. */
  lemma DownButtonDuplicatesZ(d: DropPoint, c: Canvas)
    ensures var r := Run(Empty, [DropAsset(d), DropAsset(d), LayerButton(1, false)], c);
            |r.assets| == 2 && r.assets[0].z == r.assets[1].z == 1
  {
    var es := [DropAsset(d), DropAsset(d), LayerButton(1, false)];
    var s1 := Step(Empty, DropAsset(d), c);
    var s2 := Step(s1, DropAsset(d), c);
    var s3 := Step(s2, LayerButton(1, false), c);
    assert es[1..] == [DropAsset(d), LayerButton(1, false)];
    assert es[1..][1..] == [LayerButton(1, false)];
    assert Run(Empty, es, c) == Run(s1, es[1..], c) == Run(s2, es[1..][1..], c) == Run(s3, [], c) == s3;
    assert s2.assets[1].z == 2;
  }

  /** A drag whose only move is back to the mousedown point still re-clamps
      an asset that sits partly off the canvas: an asset dropped at x = 10 on
      a 600 x 600 canvas has left -40, and such a drag moves it to left 0.
      This is what a press on a layer button does in the page, because the
      press also starts a drag. */
  lemma StillDragMovesOffCanvasAsset(p: Point)
    ensures var c := Canvas(600.0, 600.0);
            var s := Step(Empty, DropAsset(DropPoint(10.0, 300.0, 1.0)), c);
            && s.assets[0].left == -40.0
            && Step(s, DragAsset(0, p, [p]), c).assets[0].left == 0.0
  {
    var c := Canvas(600.0, 600.0);
    var s := Step(Empty, DropAsset(DropPoint(10.0, 300.0, 1.0)), c);
    var a := s.assets[0];
    Drag.DragMovesLast(a, Drag.StartDrag(a, p), [p], c);
  }

  /** In a valid scene a plain click leaves exactly the clicked asset selected
      and a canvas click leaves nothing selected. */
  lemma ClicksOnValidScene(s: Scene, id: nat, c: Canvas)
    requires Valid(s) && id < |s.assets|
    ensures Step(s, ClickAsset(id, false), c).selected == {id}
    ensures Step(s, ClickCanvas, c).selected == {}
  {
  }

  /** A gesture or layer button on one asset leaves every other asset as it was. */
  lemma GestureTouchesOneAsset(s: Scene, e: Event, c: Canvas, j: nat)
    requires e.LayerButton? || e.DragAsset? || e.ResizeAsset?
    requires j < |s.assets| && j != e.id
    ensures Step(s, e, c).assets[j] == s.assets[j]
  {
  }

  /** Dragging an asset that fits the canvas keeps it wholly inside. */
  lemma DragStaysInside(s: Scene, id: nat, start: Point, moves: seq<Point>, c: Canvas)
    requires id < |s.assets| && FitsIn(s.assets[id], c) && moves != []
    ensures Inside(Step(s, DragAsset(id, start, moves), c).assets[id], c)
  {
  }
}
