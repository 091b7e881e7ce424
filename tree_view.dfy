/**
 * The state of the canvas view: zoom, pan, the gesture in progress, the
 * position map, the expanded layers and the selected account, and the
 * handlers that change them. Every `setState(prev => ...)` and every ref
 * write of a handler is one atomic transition of that state.
 *
 * The zoom factor is kept in tenths: 5 stands for 0.5, the clamps for 0.2 and
 * 2 are 2 and 20.
 */
module TreeView {
  import opened Wrappers
  import opened JsObject
  import opened NumericSort
  import opened HierarchyBuilder
  import opened LayerIndex
  import opened LayoutEngine

  // ---------------------------------------------------------------- expanded layers

  /** `expandedLayers[layerNum]`: an absent layer reads as collapsed. */
  predicate IsExpanded(expanded: Object<int, bool>, layer: int) {
    Get(expanded, layer) == Some(true)
  }

  /** `toggleLayer(layerNum)`: `{...prev, [layerNum]: !prev[layerNum]}`. */
  function Toggle(expanded: Object<int, bool>, layer: int): (r: Object<int, bool>) {
    Put(expanded, layer, !IsExpanded(expanded, layer))
  }

  /**
   * Toggling flips the reading of its own layer (so the first toggle of a
   * layer expands it), leaves every other entry as it was, and keeps the
   * object free of repeated keys.
   */
  lemma ToggleEffect(expanded: Object<int, bool>, layer: int, other: int)
    ensures IsExpanded(Toggle(expanded, layer), layer) <==> !IsExpanded(expanded, layer)
    ensures other != layer ==> Get(Toggle(expanded, layer), other) == Get(expanded, other)
    ensures WellFormed(expanded) ==> WellFormed(Toggle(expanded, layer))
  {
    PutGet(expanded, layer, !IsExpanded(expanded, layer), layer);
    PutGet(expanded, layer, !IsExpanded(expanded, layer), other);
    if WellFormed(expanded) {
      PutWellFormed(expanded, layer, !IsExpanded(expanded, layer));
    }
  }

  /** Two toggles of a layer give back the reading of every layer. */
  lemma ToggleTwice(expanded: Object<int, bool>, layer: int, other: int)
    ensures IsExpanded(Toggle(Toggle(expanded, layer), layer), other) <==> IsExpanded(expanded, other)
  {
    ToggleEffect(expanded, layer, other);
    ToggleEffect(Toggle(expanded, layer), layer, other);
  }

  // ---------------------------------------------------------------- zoom

  /** `handleZoomIn`: `Math.min(zoom + 0.1, 2)`. */
  function ZoomIn(zoom: int): (r: int) {
    if zoom + 1 < 20 then zoom + 1 else 20
  }

  /** `handleZoomOut`: `Math.max(zoom - 0.1, 0.2)`. */
  function ZoomOut(zoom: int): (r: int) {
    if zoom - 1 > 2 then zoom - 1 else 2
  }

  /** The reset zoom, 0.5. */
  const ResetZoom: int := 5

  /**
   * From any zoom in [0.2, 2] both buttons stay in [0.2, 2]; each moves one
   * step unless it is at its bound; below the top one zoom-out undoes a
   * zoom-in, and above the bottom one zoom-in undoes a zoom-out.
   */
  lemma ZoomSteps(zoom: int)
    requires 2 <= zoom <= 20
    ensures 2 <= ZoomIn(zoom) <= 20 && 2 <= ZoomOut(zoom) <= 20
    ensures ZoomIn(zoom) == if zoom == 20 then 20 else zoom + 1
    ensures ZoomOut(zoom) == if zoom == 2 then 2 else zoom - 1
    ensures zoom < 20 ==> ZoomOut(ZoomIn(zoom)) == zoom
    ensures zoom > 2 ==> ZoomIn(ZoomOut(zoom)) == zoom
  {
  }

  /** Repeated presses end at the bound: `n` zoom-ins from `zoom` give `min(zoom + n, 20)`. */
  function ZoomInTimes(zoom: int, n: nat): (r: int) {
    if n == 0 then zoom else ZoomIn(ZoomInTimes(zoom, n - 1))
  }

  lemma {:induction false} ZoomInSaturates(zoom: int, n: nat)
    requires 2 <= zoom <= 20
    ensures ZoomInTimes(zoom, n) == if zoom + n < 20 then zoom + n else 20
  {
    if n > 0 {
      ZoomInSaturates(zoom, n - 1);
    }
  }

  // ---------------------------------------------------------------- gestures

  /** The mouse moved more than 5 px from the gesture's start in one axis. */
  predicate Shaken(start: Point, mouse: Point) {
    mouse.x - start.x > 5.0 || start.x - mouse.x > 5.0 ||
    mouse.y - start.y > 5.0 || start.y - mouse.y > 5.0
  }

  /** The pan during a background drag: the pan at mouse-down plus the pointer's offset. */
  function PanTarget(panStart: Point, start: Point, mouse: Point): (r: Point) {
    panStart.Plus(mouse.x - start.x, mouse.y - start.y)
  }

  /** The position of a dragged node: its position at mouse-down plus the pointer's offset divided by the zoom. */
  function DragTarget(nodeStart: Point, start: Point, mouse: Point, zoom: int): (r: Point)
    requires zoom > 0
  {
    nodeStart.Plus((mouse.x - start.x) * 10.0 / (zoom as real), (mouse.y - start.y) * 10.0 / (zoom as real))
  }

  /** On screen the dragged node moves exactly with the pointer: its offset scaled by the zoom is the pointer's offset. */
  lemma DragFollowsPointer(nodeStart: Point, start: Point, mouse: Point, zoom: int)
    requires zoom > 0
    ensures var p := DragTarget(nodeStart, start, mouse, zoom);
            (p.x - nodeStart.x) * (zoom as real) / 10.0 == mouse.x - start.x &&
            (p.y - nodeStart.y) * (zoom as real) / 10.0 == mouse.y - start.y
  {
    var z := zoom as real;
    var dx, dy := mouse.x - start.x, mouse.y - start.y;
    assert dx * 10.0 / z * z == dx * 10.0;
    assert dy * 10.0 / z * z == dy * 10.0;
  }

  /**
   * Everything the handlers of the canvas view read and write: React state
   * (`zoom`, `nodePositions`, `draggingNode`, `hasDragged`, `expandedLayers`,
   * `isPanning`, `selectedNode`) and refs (`panRef`, `panStartRef`,
   * `dragStartRef`, `nodeDragStartPosRef`).
   */
  datatype View = View(
    zoom: int,
    pan: Point,
    panStart: Point,
    dragStart: Point,
    isPanning: bool,
    dragging: Option<PosKey>,
    nodeDragStart: Option<Point>,
    hasDragged: bool,
    positions: Positions,
    expanded: Object<int, bool>,
    selected: Option<Account>)

  /** A gesture is in progress, so the window listeners are bound. */
  predicate Gesturing(v: View) {
    v.isPanning || v.dragging.Some?
  }

  /** `handleCanvasMouseDown`: a press on the background starts a pan from the current pan. */
  function CanvasDown(v: View, mouse: Point): (r: View) {
    v.(isPanning := true, dragStart := mouse, panStart := v.pan, hasDragged := false)
  }

  /**
   * `handleNodeMouseDown`: a press on a hub or account card starts a drag of
   * that key from its current position.
   */
  function NodeDown(v: View, key: PosKey, mouse: Point): (r: View) {
    v.(dragging := Some(key), dragStart := mouse,
       nodeDragStart := if key in v.positions then Some(v.positions[key]) else None,
       hasDragged := false)
  }

  /**
   * `handleWindowMouseMove`: with no gesture nothing listens; otherwise a move
   * of more than 5 px marks the gesture as a drag, a pan follows the pointer
   * from the pan at mouse-down, and a node drag puts the dragged key at its
   * start position plus the pointer's offset divided by the zoom.
   */
  function Move(v: View, mouse: Point): (r: View)
    requires v.zoom > 0
    ensures r.zoom == v.zoom
  {
    if !Gesturing(v) then v
    else
      var marked := if Shaken(v.dragStart, mouse) then v.(hasDragged := true) else v;
      if v.isPanning then marked.(pan := PanTarget(v.panStart, v.dragStart, mouse))
      else if v.dragging.Some? && v.nodeDragStart.Some? then
        marked.(positions := v.positions[v.dragging.value := DragTarget(v.nodeDragStart.value, v.dragStart, mouse, v.zoom)])
      else marked
  }

  /** `handleWindowMouseUp`: the gesture ends. */
  function Up(v: View): (r: View) {
    if !Gesturing(v) then v
    else v.(isPanning := false, dragging := None, nodeDragStart := None)
  }

  /** `handleNodeClick`: a click selects the account unless the gesture moved more than 5 px or a drag is still on. */
  function Click(v: View, a: Account): (r: View) {
    if !v.hasDragged && v.dragging.None? then v.(selected := Some(a)) else v
  }

  /** The moves of one gesture, one after another. */
  function Moves(v: View, ms: seq<Point>): (r: View)
    requires v.zoom > 0
    ensures r.zoom == v.zoom
  {
    if ms == [] then v
    else
      Move(Moves(v, ms[..|ms| - 1]), ms[|ms| - 1])
  }

  /** Moves change nothing but the pan, the dragged position and the drag mark. */
  lemma {:induction false} MovesKeep(v: View, ms: seq<Point>)
    requires v.zoom > 0
    ensures var w := Moves(v, ms);
            w.zoom == v.zoom && w.dragStart == v.dragStart && w.panStart == v.panStart &&
            w.isPanning == v.isPanning && w.dragging == v.dragging && w.nodeDragStart == v.nodeDragStart &&
            w.expanded == v.expanded && w.selected == v.selected
    decreases |ms|
  {
    if ms != [] {
      MovesKeep(v, ms[..|ms| - 1]);
    }
  }

  /**
   * Moves are measured from the gesture's start, not from the previous frame:
   * repeating a move changes nothing, and a move followed by another one is
   * the second move alone, except that the drag mark remembers the first.
   */
  lemma MoveFromStart(v: View, m1: Point, m2: Point)
    requires v.zoom > 0
    ensures Move(Move(v, m1), m1) == Move(v, m1)
    ensures Move(Move(v, m1), m2) == Move(v, m2).(hasDragged := Move(v, m2).hasDragged || (Gesturing(v) && Shaken(v.dragStart, m1)))
  {
  }

  /**
   * A move leaves the set of positioned keys as it is, and changes the
   * position of no key but the one being dragged.
   */
  lemma MoveChangesOnlyDragged(v: View, mouse: Point, k: PosKey)
    requires v.zoom > 0
    requires v.nodeDragStart.Some? ==> v.dragging.Some? && v.dragging.value in v.positions
    ensures k in Move(v, mouse).positions <==> k in v.positions
    ensures k in v.positions && (v.isPanning || v.dragging != Some(k)) ==> Move(v, mouse).positions[k] == v.positions[k]
  {
  }

  /** Mouse-up ends both kinds of gesture. */
  lemma UpEnds(v: View)
    requires v.nodeDragStart.Some? ==> v.dragging.Some?
    ensures !Gesturing(Up(v)) && Up(v).nodeDragStart.None?
    ensures Up(v).positions == v.positions && Up(v).pan == v.pan && Up(v).hasDragged == v.hasDragged
  {
  }

  /** Some move of the gesture went more than 5 px from its start. */
  ghost predicate AnyShaken(start: Point, ms: seq<Point>) {
    exists i :: 0 <= i < |ms| && Shaken(start, ms[i])
  }

  /** During a node drag the mark says whether some move so far went more than 5 px. */
  lemma {:induction false} DragMark(v: View, key: PosKey, start: Point, ms: seq<Point>)
    requires v.zoom > 0
    ensures Moves(NodeDown(v, key, start), ms).hasDragged <==> AnyShaken(start, ms)
    decreases |ms|
  {
    var d := NodeDown(v, key, start);
    if ms != [] {
      var init := ms[..|ms| - 1];
      DragMark(v, key, start, init);
      MovesKeep(d, init);
      assert forall i :: 0 <= i < |init| ==> init[i] == ms[i];
      if AnyShaken(start, init) {
        var i :| 0 <= i < |init| && Shaken(start, init[i]);
        assert Shaken(start, ms[i]);
      }
      if AnyShaken(start, ms) {
        var i :| 0 <= i < |ms| && Shaken(start, ms[i]);
        if i < |init| {
          assert Shaken(start, init[i]);
        }
      }
    }
  }

  /**
   * Press on an account card, move, release, click: the account is selected
   * exactly when no move went more than 5 px from the press; otherwise the
   * selection stays as it was.
   */
  lemma ClickAfterGesture(v: View, key: PosKey, start: Point, ms: seq<Point>, a: Account)
    requires v.zoom > 0
    ensures var w := Click(Up(Moves(NodeDown(v, key, start), ms)), a);
            (!AnyShaken(start, ms) ==> w.selected == Some(a)) &&
            (AnyShaken(start, ms) ==> w.selected == v.selected)
  {
    DragMark(v, key, start, ms);
    MovesKeep(NodeDown(v, key, start), ms);
  }

  /** After a press on the background and some moves the pan is the old pan plus the last move's offset. */
  lemma {:induction false} PanGesture(v: View, start: Point, ms: seq<Point>)
    requires v.zoom > 0
    ensures var w := Moves(CanvasDown(v, start), ms);
            w.pan == if ms == [] then v.pan else PanTarget(v.pan, start, ms[|ms| - 1])
    ensures Moves(CanvasDown(v, start), ms).positions == v.positions
    decreases |ms|
  {
    if ms != [] {
      PanGesture(v, start, ms[..|ms| - 1]);
      MovesKeep(CanvasDown(v, start), ms[..|ms| - 1]);
    }
  }

  /**
   * After a press on a positioned key (with no pan on) and some moves, that
   * key sits at its old position plus the last move's offset divided by the
   * zoom, and every other key keeps its position.
   */
  lemma {:induction false} DragGesture(v: View, key: PosKey, start: Point, ms: seq<Point>)
    requires v.zoom > 0 && !v.isPanning && key in v.positions
    ensures var w := Moves(NodeDown(v, key, start), ms);
            w.positions == if ms == [] then v.positions
                           else v.positions[key := DragTarget(v.positions[key], start, ms[|ms| - 1], v.zoom)]
    ensures Moves(NodeDown(v, key, start), ms).pan == v.pan
    decreases |ms|
  {
    if ms != [] {
      var init := ms[..|ms| - 1];
      DragGesture(v, key, start, init);
      MovesKeep(NodeDown(v, key, start), init);
    }
  }

  // ---------------------------------------------------------------- the component

  /** Every hub in the position map belongs to a layer that has a bucket. */
  predicate HubsHaveBuckets(positions: Positions, buckets: Buckets) {
    forall k :: k in positions && k.Hub? ==> Get(buckets, k.layer).Some?
  }

  /** An expansion layout adds leaves only and keeps every key it had. */
  lemma RelayoutGrows(prev: Positions, e: set<int>, buckets: Buckets, next: Positions)
    requires IsRelayout(prev, e, buckets, next)
    ensures forall k :: k in prev ==> k in next
    ensures HubsHaveBuckets(prev, buckets) ==> HubsHaveBuckets(next, buckets)
  {
    forall k | k in prev
      ensures k in next
    {
      assert NewPosition(prev, e, buckets, k).Some?;
    }
    forall k | k in next && k.Hub?
      ensures k in prev
    {
      assert NewPosition(prev, e, buckets, k).Some?;
    }
  }

  /** With every hub backed by a bucket the expansion layout never throws. */
  lemma NeverThrows(prev: Positions, e: set<int>, buckets: Buckets)
    requires HubsHaveBuckets(prev, buckets)
    ensures !Throws(prev, e, buckets)
  {
  }

  /** Moving a key that is already placed keeps every hub backed by a bucket. */
  lemma DragKeepsHubs(positions: Positions, buckets: Buckets, key: PosKey, p: Point)
    requires HubsHaveBuckets(positions, buckets) && key in positions
    ensures HubsHaveBuckets(positions[key := p], buckets)
  {
  }

  /** The hub stack gives hubs only to layers that have a bucket. */
  lemma HubStackBacked(buckets: Buckets, positions: Positions)
    requires forall k :: k in positions <==> k.Hub? && k.layer in LayersOf(buckets)
    ensures HubsHaveBuckets(positions, buckets)
  {
    forall k | k in positions && k.Hub?
      ensures Get(buckets, k.layer).Some?
    {
      assert k.layer in multiset(Sort(Keys(buckets)));
      GetNone(buckets, k.layer);
    }
  }

  /**
   * What mounting computes: the layer index of the tree, its sorted layers,
   * and the hub-initialisation effect run on the empty position map, which
   * stacks one hub per layer.
   */
  method Mount(t: Tree) returns (buckets: Buckets, layers: seq<int>, positions: Positions)
    ensures buckets == LayerIndexOf(t) && layers == LayersOf(buckets)
    ensures forall k :: k in positions <==> k.Hub? && k.layer in layers
    ensures forall i :: 0 <= i < |layers| ==> positions[Hub(layers[i])] == HubSlot(i)
    ensures HubsHaveBuckets(positions, buckets)
  {
    buckets := Organize(t);
    layers := LayersOf(buckets);
    positions := InitHubs(map[], layers);
    LayersAscending(t);
    assert Distinct(layers);
    HubStackBacked(buckets, positions);
  }

  /** The canvas view mounted on the layer index of one tree. */
  class Canvas {
    const buckets: Buckets
    const layers: seq<int>
    var zoom: int
    var pan: Point
    var panStart: Point
    var dragStart: Point
    var isPanning: bool
    var dragging: Option<PosKey>
    var nodeDragStart: Option<Point>
    var hasDragged: bool
    var positions: Positions
    var expanded: Object<int, bool>
    var selected: Option<Account>

    /** The whole state as one value. */
    function State(): (r: View)
      reads this
    {
      View(zoom, pan, panStart, dragStart, isPanning, dragging, nodeDragStart, hasDragged, positions, expanded, selected)
    }

    predicate Valid()
      reads this
    {
      2 <= zoom <= 20 &&
      WellFormed(expanded) &&
      HubsHaveBuckets(positions, buckets) &&
      (nodeDragStart.Some? ==> dragging.Some? && dragging.value in positions)
    }

    /**
     * Mounting: the layer index of the tree, its sorted layers, zoom 0.5 and
     * pan (0, 0), no gesture, nothing expanded or selected, and the hub stack
     * of the hub-initialisation effect (the expansion effect then finds nothing
     * expanded and changes nothing).
     */
    constructor (t: Tree)
      ensures Valid()
      ensures buckets == LayerIndexOf(t) && layers == LayersOf(buckets)
      ensures zoom == ResetZoom && pan == Point(0.0, 0.0)
      ensures !isPanning && dragging.None? && nodeDragStart.None? && !hasDragged
      ensures expanded == [] && selected.None?
      ensures forall k :: k in positions <==> k.Hub? && k.layer in layers
      ensures forall i :: 0 <= i < |layers| ==> positions[Hub(layers[i])] == HubSlot(i)
    {
      var b, ls, ps := Mount(t);
      buckets := b;
      layers := ls;
      zoom := ResetZoom;
      pan := Point(0.0, 0.0);
      panStart := Point(0.0, 0.0);
      dragStart := Point(0.0, 0.0);
      isPanning := false;
      dragging := None;
      nodeDragStart := None;
      hasDragged := false;
      positions := ps;
      expanded := [];
      selected := None;
    }

    /** `toggleLayer(layerNum)` followed by the expansion-layout effect it triggers. */
    method ToggleLayer(layer: int)
      requires Valid()
      modifies this
      ensures Valid()
      ensures expanded == Toggle(old(expanded), layer)
      ensures IsRelayout(old(positions), ExpandedSet(expanded), buckets, positions)
      ensures State() == old(State()).(expanded := expanded, positions := positions)
    {
      ToggleEffect(expanded, layer, layer);
      expanded := Toggle(expanded, layer);
      NeverThrows(positions, ExpandedSet(expanded), buckets);
      var r := Relayout(positions, expanded, buckets);
      RelayoutGrows(positions, ExpandedSet(expanded), buckets, r.value);
      positions := r.value;
    }

    /** `handleZoomIn`. */
    method ZoomInPressed()
      requires Valid()
      modifies this
      ensures Valid() && State() == old(State()).(zoom := ZoomIn(old(zoom)))
    {
      zoom := if zoom + 1 < 20 then zoom + 1 else 20;
    }

    /** `handleZoomOut`. */
    method ZoomOutPressed()
      requires Valid()
      modifies this
      ensures Valid() && State() == old(State()).(zoom := ZoomOut(old(zoom)))
    {
      zoom := if zoom - 1 > 2 then zoom - 1 else 2;
    }

    /** `handleResetView`: zoom 0.5 and pan (0, 0); nothing else changes. */
    method ResetView()
      requires Valid()
      modifies this
      ensures Valid() && State() == old(State()).(zoom := ResetZoom, pan := Point(0.0, 0.0))
    {
      zoom := ResetZoom;
      pan := Point(0.0, 0.0);
    }

    /** `handleCanvasMouseDown`. */
    method CanvasMouseDown(mouse: Point)
      requires Valid()
      modifies this
      ensures Valid() && State() == CanvasDown(old(State()), mouse)
    {
      isPanning := true;
      dragStart := mouse;
      panStart := pan;
      hasDragged := false;
    }

    /** `handleNodeMouseDown(e, nodeKey)`. */
    method NodeMouseDown(key: PosKey, mouse: Point)
      requires Valid()
      modifies this
      ensures Valid() && State() == NodeDown(old(State()), key, mouse)
    {
      dragging := Some(key);
      dragStart := mouse;
      nodeDragStart := if key in positions then Some(positions[key]) else None;
      hasDragged := false;
    }

    /** `handleWindowMouseMove`, bound only while a gesture is on. */
    method MouseMove(mouse: Point)
      requires Valid()
      modifies this
      ensures Valid() && State() == Move(old(State()), mouse)
    {
      if !isPanning && dragging.None? {
        return;
      }
      if Shaken(dragStart, mouse) {
        hasDragged := true;
      }
      if isPanning {
        pan := PanTarget(panStart, dragStart, mouse);
      } else if dragging.Some? && nodeDragStart.Some? {
        DragKeepsHubs(positions, buckets, dragging.value, DragTarget(nodeDragStart.value, dragStart, mouse, zoom));
        positions := positions[dragging.value := DragTarget(nodeDragStart.value, dragStart, mouse, zoom)];
      }
    }

    /** `handleWindowMouseUp`, bound only while a gesture is on. */
    method MouseUp()
      requires Valid()
      modifies this
      ensures Valid() && State() == Up(old(State()))
    {
      if isPanning || dragging.Some? {
        isPanning := false;
        dragging := None;
        nodeDragStart := None;
      }
    }

    /** `handleNodeClick(node)`. */
    method NodeClick(a: Account)
      requires Valid()
      modifies this
      ensures Valid() && State() == Click(old(State()), a)
    {
      if !hasDragged && dragging.None? {
        selected := Some(a);
      }
    }

    /** `handleCloseModal`. */
    method CloseModal()
      requires Valid()
      modifies this
      ensures Valid() && State() == old(State()).(selected := None)
    {
      selected := None;
    }
  }
}
