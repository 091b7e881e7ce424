/**
 * The canvas layout of the layer view: the position map keyed by hub
 * (`hub-<layer>`) and leaf (`node-<layer>-<i>`) keys, the one-shot hub stack
 * and the re-grid of every expanded layer's leaves into four columns to the
 * right of that layer's current hub.
 *
 * Positions are exact reals: the layout constants are integers and a node
 * drag divides by the zoom factor.
 */
module LayoutEngine {
  import opened Wrappers
  import opened JsObject
  import opened HierarchyBuilder
  import opened NumericSort
  import opened LayerIndex

  datatype Point = Point(x: real, y: real) {
    function Plus(dx: real, dy: real): (r: Point) {
      Point(x + dx, y + dy)
    }
  }

  /** `hub-<layer>` and `node-<layer>-<index>`. */
  datatype PosKey = Hub(layer: int) | Leaf(layer: int, index: nat)

  /** `nodePositions`. */
  type Positions = map<PosKey, Point>

  /** Where the hub stack puts the hub of the `i`-th layer: `currentY` starts at 100 and grows by 120 + 50. */
  function HubSlot(i: nat): (r: Point) {
    Point(100.0, 100.0 + 170.0 * (i as real))
  }

  /** `Math.ceil(n / 4)`: the number of grid rows. */
  function Rows(n: nat): (r: nat)
    ensures n > 0 ==> 4 * (r - 1) < n <= 4 * r
    ensures n == 0 ==> r == 0
  {
    (n + 3) / 4
  }

  /**
   * Leaf `i` of a layer of `n` leaves: column `i % 4` and row `i / 4` of a grid
   * that starts 350 to the right of the hub and whose height `rows * 200` is
   * centred on the hub's midline (`hub.y - gridHeight / 2 + 60`).
   */
  function Slot(hub: Point, n: nat, i: nat): (r: Point) {
    Point(hub.x + 350.0 + 350.0 * ((i % 4) as real),
          hub.y - 100.0 * (Rows(n) as real) + 60.0 + 200.0 * ((i / 4) as real))
  }

  // ---------------------------------------------------------------- hub stack

  /**
   * The hub-initialisation effect: an empty map receives one hub per layer,
   * stacked 170 apart from (100, 100); a non-empty map is returned as it is.
   */
  method InitHubs(prev: Positions, layers: seq<int>) returns (positions: Positions)
    ensures |prev| > 0 ==> positions == prev
    ensures |prev| == 0 ==> forall k :: k in positions <==> k.Hub? && k.layer in layers
    ensures |prev| == 0 && Distinct(layers) ==> forall i :: 0 <= i < |layers| ==> positions[Hub(layers[i])] == HubSlot(i)
  {
    if |prev| > 0 {
      return prev;
    }
    positions := map[];
    var currentY: real := 100.0;
    var i := 0;
    while i < |layers|
      invariant 0 <= i <= |layers|
      invariant currentY == 100.0 + 170.0 * (i as real)
      invariant forall k :: k in positions <==> k.Hub? && k.layer in layers[..i]
      invariant Distinct(layers) ==> forall a :: 0 <= a < i ==> positions[Hub(layers[a])] == HubSlot(a)
    {
      assert layers[..i + 1] == layers[..i] + [layers[i]];
      positions := positions[Hub(layers[i]) := Point(100.0, currentY)];
      currentY := currentY + 120.0 + 50.0;
      i := i + 1;
    }
    assert layers[..|layers|] == layers;
  }

  // ---------------------------------------------------------------- expansion layout

  /** The layers whose entry in `expandedLayers` is `true`. */
  function ExpandedSet(expanded: Object<int, bool>): (r: set<int>) {
    set j | 0 <= j < |expanded| && expanded[j].1 :: expanded[j].0
  }

  /** In an object without repeated keys, a layer is in the set exactly when `expandedLayers[L]` reads `true`. */
  lemma ExpandedSetGet(expanded: Object<int, bool>, layer: int)
    requires WellFormed(expanded)
    ensures layer in ExpandedSet(expanded) <==> Get(expanded, layer) == Some(true)
  {
    if Get(expanded, layer).Some? {
      var i := GetFound(expanded, layer);
      if layer in ExpandedSet(expanded) {
        var j :| 0 <= j < |expanded| && expanded[j].1 && expanded[j].0 == layer;
        assert i == j;
      }
    }
  }

  /** Leaf `k` is re-gridded: its layer is expanded, has a hub and a bucket, and `k` indexes a node of that bucket. */
  predicate Regrid(prev: Positions, e: set<int>, buckets: Buckets, k: PosKey) {
    k.Leaf? && k.layer in e && Hub(k.layer) in prev && Get(buckets, k.layer).Some? &&
    k.index < |Get(buckets, k.layer).value| && Get(buckets, k.layer).value[k.index].name != FlowName
  }

  /** The position of `k` after the expansion layout. */
  function NewPosition(prev: Positions, e: set<int>, buckets: Buckets, k: PosKey): (r: Option<Point>) {
    if Regrid(prev, e, buckets, k) then Some(Slot(prev[Hub(k.layer)], |Get(buckets, k.layer).value|, k.index))
    else if k in prev then Some(prev[k])
    else None
  }

  /** `next` is the layout of `prev` for the expanded layers `e`, key by key. */
  ghost predicate IsRelayout(prev: Positions, e: set<int>, buckets: Buckets, next: Positions) {
    forall k :: (k in next <==> NewPosition(prev, e, buckets, k).Some?) &&
                (k in next ==> next[k] == NewPosition(prev, e, buckets, k).value)
  }

  /** An expanded layer with a hub but no bucket: `nodes.length` of `undefined` throws. */
  ghost predicate Throws(prev: Positions, e: set<int>, buckets: Buckets) {
    exists layer :: layer in e && Hub(layer) in prev && Get(buckets, layer).None?
  }

  /** The leaves of one layer placed on the grid of `hub`. */
  method GridLayer(next0: Positions, hub: Point, layer: int, nodes: seq<Account>) returns (next: Positions)
    ensures forall k :: k in next <==> k in next0 || (k.Leaf? && k.layer == layer && k.index < |nodes| && nodes[k.index].name != FlowName)
    ensures forall k :: k in next ==>
              next[k] == if k.Leaf? && k.layer == layer && k.index < |nodes| && nodes[k.index].name != FlowName
                         then Slot(hub, |nodes|, k.index) else next0[k]
  {
    next := next0;
    var i := 0;
    while i < |nodes|
      invariant 0 <= i <= |nodes|
      invariant forall k :: k in next <==> k in next0 || (k.Leaf? && k.layer == layer && k.index < i && nodes[k.index].name != FlowName)
      invariant forall k :: k in next ==>
                  next[k] == if k.Leaf? && k.layer == layer && k.index < i && nodes[k.index].name != FlowName
                             then Slot(hub, |nodes|, k.index) else next0[k]
    {
      if nodes[i].name != FlowName {
        next := next[Leaf(layer, i) := Slot(hub, |nodes|, i)];
      }
      i := i + 1;
    }
  }

  lemma ExpandedSetSnoc(expanded: Object<int, bool>, j: nat)
    requires j < |expanded|
    ensures ExpandedSet(expanded[..j + 1]) == ExpandedSet(expanded[..j]) + (if expanded[j].1 then {expanded[j].0} else {})
  {
    var s := expanded[..j + 1];
    assert forall a :: 0 <= a < j ==> s[a] == expanded[..j][a];
    assert s[j] == expanded[j];
  }

  /** Gridding one more expanded layer extends the layout of the earlier ones by that layer. */
  lemma RelayoutStep(prev: Positions, e: set<int>, buckets: Buckets, layer: int, next0: Positions, next: Positions)
    requires IsRelayout(prev, e, buckets, next0)
    requires Hub(layer) in prev && Get(buckets, layer).Some?
    requires var nodes := Get(buckets, layer).value;
             (forall k :: k in next <==> k in next0 || (k.Leaf? && k.layer == layer && k.index < |nodes| && nodes[k.index].name != FlowName)) &&
             forall k :: k in next ==>
               next[k] == if k.Leaf? && k.layer == layer && k.index < |nodes| && nodes[k.index].name != FlowName
                          then Slot(prev[Hub(layer)], |nodes|, k.index) else next0[k]
    ensures IsRelayout(prev, e + {layer}, buckets, next)
  {
  }

  /** A layer that is collapsed, or has no hub, leaves the layout as it is. */
  lemma RelayoutSkip(prev: Positions, e: set<int>, buckets: Buckets, layer: int, next: Positions)
    requires IsRelayout(prev, e, buckets, next)
    requires Hub(layer) !in prev
    ensures IsRelayout(prev, e + {layer}, buckets, next)
  {
  }

  /**
   * The expansion-layout effect: for every entry of `expandedLayers` that is
   * `true` and whose layer has a hub, the layer's leaves are re-gridded around
   * the hub's current position; every other key keeps its position. An
   * expanded layer with a hub but without a bucket makes the effect throw.
   */
  method Relayout(prev: Positions, expanded: Object<int, bool>, buckets: Buckets) returns (r: Option<Positions>)
    ensures r.None? <==> Throws(prev, ExpandedSet(expanded), buckets)
    ensures r.Some? ==> IsRelayout(prev, ExpandedSet(expanded), buckets, r.value)
  {
    var next := prev;
    var j := 0;
    while j < |expanded|
      invariant 0 <= j <= |expanded|
      invariant IsRelayout(prev, ExpandedSet(expanded[..j]), buckets, next)
      invariant !Throws(prev, ExpandedSet(expanded[..j]), buckets)
    {
      ExpandedSetSnoc(expanded, j);
      var (layer, on) := expanded[j];
      if on {
        if Hub(layer) in prev {
          var nodes := Get(buckets, layer);
          if nodes.None? {
            assert layer in ExpandedSet(expanded) by {
              assert expanded[j].1 && expanded[j].0 == layer;
            }
            return None;
          }
          var grid := GridLayer(next, prev[Hub(layer)], layer, nodes.value);
          RelayoutStep(prev, ExpandedSet(expanded[..j]), buckets, layer, next, grid);
          next := grid;
        } else {
          RelayoutSkip(prev, ExpandedSet(expanded[..j]), buckets, layer, next);
        }
      }
      j := j + 1;
    }
    assert expanded[..|expanded|] == expanded;
    return Some(next);
  }

  // ---------------------------------------------------------------- properties of the layout

  /** The key-by-key description determines the layout: the order in which layers are visited does not matter. */
  lemma RelayoutUnique(prev: Positions, e: set<int>, buckets: Buckets, n1: Positions, n2: Positions)
    requires IsRelayout(prev, e, buckets, n1) && IsRelayout(prev, e, buckets, n2)
    ensures n1 == n2
  {
    assert forall k :: k in n1 <==> k in n2;
  }

  /**
   * Laying out twice changes nothing more: hubs keep their positions, so the
   * second pass recomputes the same slots and leaves every other key alone.
   */
  lemma RelayoutIdempotent(prev: Positions, e: set<int>, buckets: Buckets, n1: Positions, n2: Positions)
    requires IsRelayout(prev, e, buckets, n1) && IsRelayout(n1, e, buckets, n2)
    ensures n2 == n1
  {
    forall k ensures (k in n2 <==> k in n1) && (k in n1 ==> n2[k] == n1[k]) {
      if k.Leaf? {
        assert NewPosition(prev, e, buckets, Hub(k.layer)) == if Hub(k.layer) in prev then Some(prev[Hub(k.layer)]) else None;
        assert Regrid(n1, e, buckets, k) <==> Regrid(prev, e, buckets, k);
      }
    }
    assert forall k :: k in n1 <==> k in n2;
  }

  /** Hubs never move in the expansion layout. */
  lemma RelayoutKeepsHubs(prev: Positions, e: set<int>, buckets: Buckets, next: Positions, layer: int)
    requires IsRelayout(prev, e, buckets, next)
    ensures Hub(layer) in next <==> Hub(layer) in prev
    ensures Hub(layer) in next ==> next[Hub(layer)] == prev[Hub(layer)]
  {
    assert !Regrid(prev, e, buckets, Hub(layer));
  }

  /** Where a re-gridded leaf was before (for instance dragged away) does not affect where it goes. */
  lemma RegridForgets(prev: Positions, e: set<int>, buckets: Buckets, leaf: PosKey, p: Point, k: PosKey)
    requires Regrid(prev, e, buckets, leaf)
    ensures NewPosition(prev[leaf := p], e, buckets, k) == NewPosition(prev, e, buckets, k)
  {
    assert Hub(leaf.layer) != leaf;
    if k.Leaf? {
      assert Hub(k.layer) != leaf;
    }
  }

  /** Two leaves of one layer never share a slot. */
  lemma SlotsDistinct(hub: Point, n: nat, i: nat, j: nat)
    requires i != j
    ensures Slot(hub, n, i) != Slot(hub, n, j)
  {
    if i % 4 != j % 4 {
      assert Slot(hub, n, i).x != Slot(hub, n, j).x;
    } else {
      assert i / 4 != j / 4;
      assert Slot(hub, n, i).y != Slot(hub, n, j).y;
    }
  }

  /**
   * The grid lies right of the hub in four columns, and its band, `rows * 200`
   * high from the first row's top, is centred on the hub's midline `hub.y + 60`.
   */
  lemma GridShape(hub: Point, n: nat, i: nat)
    requires i < n
    ensures var s := Slot(hub, n, i);
            hub.x + 350.0 <= s.x <= hub.x + 1400.0 &&
            Slot(hub, n, 0).y <= s.y <= Slot(hub, n, 0).y + 200.0 * ((Rows(n) - 1) as real)
    ensures Slot(hub, n, 0).y + 100.0 * (Rows(n) as real) == hub.y + 60.0
  {
    assert i / 4 <= Rows(n) - 1;
  }

  /** Leaves follow their hub: moving the hub moves every slot by the same offset. */
  lemma SlotFollowsHub(hub: Point, dx: real, dy: real, n: nat, i: nat)
    ensures Slot(hub.Plus(dx, dy), n, i) == Slot(hub, n, i).Plus(dx, dy)
  {
  }
}
