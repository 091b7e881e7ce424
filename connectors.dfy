/**
 * The connections of the canvas view: one spline from a layer's hub to each
 * positioned account of that layer, and the filter that draws only the wires
 * of expanded layers.
 */
module Connectors {
  import opened Wrappers
  import opened JsObject
  import opened JsStrings
  import opened NumericSort
  import opened HierarchyBuilder
  import opened LayerIndex
  import opened LayoutEngine
  import opened LayerColors

  /**
   * A wire: the leaf it belongs to, the four control points of its cubic
   * path and its stroke colour.
   */
  datatype Connector = Connector(layer: int, index: nat, from: Point, c1: Point, c2: Point, to: Point, color: string)

  /** The spline from the right edge of a hub to the left edge of an account card. */
  function Wire(layer: int, index: nat, layerIndex: nat, hub: Point, leaf: Point): (c: Connector)
    ensures c.from.y == c.c1.y && c.c1.x - c.from.x == 150.0
    ensures c.c2.y == c.to.y && c.to.x - c.c2.x == 100.0
    ensures c.layer == layer && c.index == index
  {
    Connector(layer, index, hub.Plus(200.0, 60.0), hub.Plus(350.0, 60.0), leaf.Plus(-100.0, 70.0), leaf.Plus(0.0, 70.0),
              CanvasLayerColor(layerIndex).stroke)
  }

  /** `layerMap[layerNum]`. */
  function NodesOf(buckets: Buckets, layer: int): (r: seq<Account>) {
    Get(buckets, layer).GetOr([])
  }

  /** Account `i` of a layer gets a wire: it is not the flow root and both it and its hub are placed. */
  predicate Wired(positions: Positions, layer: int, nodes: seq<Account>, i: nat) {
    i < |nodes| && nodes[i].name != FlowName && Leaf(layer, i) in positions && Hub(layer) in positions
  }

  /** The wires of the first `n` accounts of one layer, in order. */
  function LayerWires(positions: Positions, layer: int, layerIndex: nat, nodes: seq<Account>, n: nat): (r: seq<Connector>)
    requires n <= |nodes|
  {
    if n == 0 then []
    else
      LayerWires(positions, layer, layerIndex, nodes, n - 1)
      + if Wired(positions, layer, nodes, n - 1)
        then [Wire(layer, n - 1, layerIndex, positions[Hub(layer)], positions[Leaf(layer, n - 1)])]
        else []
  }

  /** The wires of the first `m` layers. */
  function WiresUpTo(layers: seq<int>, buckets: Buckets, positions: Positions, m: nat): (r: seq<Connector>)
    requires m <= |layers|
  {
    if m == 0 then []
    else
      var nodes := NodesOf(buckets, layers[m - 1]);
      WiresUpTo(layers, buckets, positions, m - 1) + LayerWires(positions, layers[m - 1], m - 1, nodes, |nodes|)
  }

  /** The memoised `connections` of the canvas view. */
  function ConnectionsOf(buckets: Buckets, positions: Positions): (r: seq<Connector>) {
    var layers := LayersOf(buckets);
    WiresUpTo(layers, buckets, positions, |layers|)
  }

  /** The inner `nodes.forEach` of the connections computation. */
  method LayerConnections(positions: Positions, layer: int, layerIndex: nat, nodes: seq<Account>, conns0: seq<Connector>)
    returns (conns: seq<Connector>)
    ensures conns == conns0 + LayerWires(positions, layer, layerIndex, nodes, |nodes|)
  {
    conns := conns0;
    var nodeIndex := 0;
    while nodeIndex < |nodes|
      invariant nodeIndex <= |nodes|
      invariant conns == conns0 + LayerWires(positions, layer, layerIndex, nodes, nodeIndex)
    {
      ghost var wired := if Wired(positions, layer, nodes, nodeIndex)
        then [Wire(layer, nodeIndex, layerIndex, positions[Hub(layer)], positions[Leaf(layer, nodeIndex)])]
        else [];
      if nodes[nodeIndex].name != FlowName && Leaf(layer, nodeIndex) in positions && Hub(layer) in positions {
        conns := conns + [Wire(layer, nodeIndex, layerIndex, positions[Hub(layer)], positions[Leaf(layer, nodeIndex)])];
      }
      assert conns == conns0 + LayerWires(positions, layer, layerIndex, nodes, nodeIndex) + wired;
      assert LayerWires(positions, layer, layerIndex, nodes, nodeIndex + 1)
          == LayerWires(positions, layer, layerIndex, nodes, nodeIndex) + wired;
      nodeIndex := nodeIndex + 1;
    }
  }

  /** The connections computation: every layer in ascending order, every account of it in bucket order. */
  method Connections(buckets: Buckets, positions: Positions) returns (conns: seq<Connector>)
    ensures conns == ConnectionsOf(buckets, positions)
  {
    var layers := LayersOf(buckets);
    conns := [];
    var layerIndex := 0;
    while layerIndex < |layers|
      invariant layerIndex <= |layers|
      invariant conns == WiresUpTo(layers, buckets, positions, layerIndex)
    {
      var nodes := NodesOf(buckets, layers[layerIndex]);
      conns := LayerConnections(positions, layers[layerIndex], layerIndex, nodes, conns);
      layerIndex := layerIndex + 1;
    }
  }

  /** Wire `c` is the one drawn for account `i` of `layer`, the layer at position `layerIndex`. */
  ghost predicate IsWireOf(positions: Positions, layer: int, layerIndex: nat, nodes: seq<Account>, i: nat, c: Connector) {
    Wired(positions, layer, nodes, i) && c == Wire(layer, i, layerIndex, positions[Hub(layer)], positions[Leaf(layer, i)])
  }

  lemma {:induction false} LayerWiresMembers(positions: Positions, layer: int, layerIndex: nat, nodes: seq<Account>, n: nat, c: Connector)
    requires n <= |nodes|
    ensures c in LayerWires(positions, layer, layerIndex, nodes, n)
            <==> exists i :: 0 <= i < n && IsWireOf(positions, layer, layerIndex, nodes, i, c)
  {
    if n > 0 {
      LayerWiresMembers(positions, layer, layerIndex, nodes, n - 1, c);
      var last := if Wired(positions, layer, nodes, n - 1)
        then [Wire(layer, n - 1, layerIndex, positions[Hub(layer)], positions[Leaf(layer, n - 1)])]
        else [];
      assert LayerWires(positions, layer, layerIndex, nodes, n) == LayerWires(positions, layer, layerIndex, nodes, n - 1) + last;
      assert c in last <==> IsWireOf(positions, layer, layerIndex, nodes, n - 1, c);
    }
  }

  lemma {:induction false} WiresUpToMembers(layers: seq<int>, buckets: Buckets, positions: Positions, m: nat, c: Connector)
    requires m <= |layers|
    ensures c in WiresUpTo(layers, buckets, positions, m)
            <==> exists li, i :: 0 <= li < m && IsWireOf(positions, layers[li], li, NodesOf(buckets, layers[li]), i, c)
  {
    if m > 0 {
      WiresUpToMembers(layers, buckets, positions, m - 1, c);
      var nodes := NodesOf(buckets, layers[m - 1]);
      LayerWiresMembers(positions, layers[m - 1], m - 1, nodes, |nodes|, c);
      var front := WiresUpTo(layers, buckets, positions, m - 1);
      var here := LayerWires(positions, layers[m - 1], m - 1, nodes, |nodes|);
      assert WiresUpTo(layers, buckets, positions, m) == front + here;
      if c in front + here {
        if c in front {
          var li: nat, i: nat :| 0 <= li < m - 1 && IsWireOf(positions, layers[li], li, NodesOf(buckets, layers[li]), i, c);
          assert 0 <= li < m;
        } else {
          var i: nat :| i < |nodes| && IsWireOf(positions, layers[m - 1], m - 1, nodes, i, c);
          assert IsWireOf(positions, layers[m - 1], m - 1, NodesOf(buckets, layers[m - 1]), i, c);
        }
      }
      if exists li, i :: 0 <= li < m && IsWireOf(positions, layers[li], li, NodesOf(buckets, layers[li]), i, c) {
        var li: nat, i: nat :| li < m && IsWireOf(positions, layers[li], li, NodesOf(buckets, layers[li]), i, c);
        if li < m - 1 {
          assert c in front;
        } else {
          assert IsWireOf(positions, layers[m - 1], m - 1, nodes, i, c) && 0 <= i < |nodes|;
          assert c in here;
        }
      }
    }
  }

  /**
   * The connections are exactly one wire per account that is not the flow
   * root and whose card and hub are both placed; the wire of account `i` of
   * the layer at position `li` runs from its hub's right edge to its card's
   * left edge in that layer's stroke colour.
   */
  lemma ConnectionMembers(buckets: Buckets, positions: Positions, c: Connector)
    ensures c in ConnectionsOf(buckets, positions)
            <==> exists li, i :: 0 <= li < |LayersOf(buckets)|
                   && IsWireOf(positions, LayersOf(buckets)[li], li, NodesOf(buckets, LayersOf(buckets)[li]), i, c)
  {
    WiresUpToMembers(LayersOf(buckets), buckets, positions, |LayersOf(buckets)|, c);
  }

  /** Every connection starts at its hub and ends at its account card, both of which are placed. */
  lemma ConnectionGeometry(buckets: Buckets, positions: Positions, c: Connector)
    requires c in ConnectionsOf(buckets, positions)
    ensures Hub(c.layer) in positions && Leaf(c.layer, c.index) in positions
    ensures c.from == positions[Hub(c.layer)].Plus(200.0, 60.0)
    ensures c.to == positions[Leaf(c.layer, c.index)].Plus(0.0, 70.0)
    ensures c.layer in LayersOf(buckets) && c.index < |NodesOf(buckets, c.layer)|
    ensures NodesOf(buckets, c.layer)[c.index].name != FlowName
  {
    ConnectionMembers(buckets, positions, c);
  }

  /** `a` comes before `b` in (layer, account index) order. */
  predicate KeyBefore(a: Connector, b: Connector) {
    a.layer < b.layer || (a.layer == b.layer && a.index < b.index)
  }

  predicate KeysAscending(conns: seq<Connector>) {
    forall p, q :: 0 <= p < q < |conns| ==> KeyBefore(conns[p], conns[q])
  }

  lemma AppendAscending(a: seq<Connector>, b: seq<Connector>)
    requires KeysAscending(a) && KeysAscending(b)
    requires forall x, y :: x in a && y in b ==> KeyBefore(x, y)
    ensures KeysAscending(a + b)
  {
    forall p, q | 0 <= p < q < |a + b| ensures KeyBefore((a + b)[p], (a + b)[q]) {
      if q < |a| {
        assert (a + b)[p] == a[p] && (a + b)[q] == a[q];
      } else if p < |a| {
        assert (a + b)[p] == a[p] && (a + b)[q] == b[q - |a|];
      } else {
        assert (a + b)[p] == b[p - |a|] && (a + b)[q] == b[q - |a|];
      }
    }
  }

  lemma {:induction false} LayerWiresShape(positions: Positions, layer: int, layerIndex: nat, nodes: seq<Account>, n: nat)
    requires n <= |nodes|
    ensures KeysAscending(LayerWires(positions, layer, layerIndex, nodes, n))
    ensures forall c :: c in LayerWires(positions, layer, layerIndex, nodes, n) ==> c.layer == layer && c.index < n
  {
    if n > 0 {
      LayerWiresShape(positions, layer, layerIndex, nodes, n - 1);
      var last := if Wired(positions, layer, nodes, n - 1)
        then [Wire(layer, n - 1, layerIndex, positions[Hub(layer)], positions[Leaf(layer, n - 1)])]
        else [];
      AppendAscending(LayerWires(positions, layer, layerIndex, nodes, n - 1), last);
    }
  }

  lemma {:induction false} WiresUpToShape(layers: seq<int>, buckets: Buckets, positions: Positions, m: nat)
    requires m <= |layers| && StrictlyAscending(layers)
    ensures KeysAscending(WiresUpTo(layers, buckets, positions, m))
    ensures forall c :: c in WiresUpTo(layers, buckets, positions, m) ==> 0 < m && c.layer <= layers[m - 1]
  {
    if m > 0 {
      WiresUpToShape(layers, buckets, positions, m - 1);
      var nodes := NodesOf(buckets, layers[m - 1]);
      LayerWiresShape(positions, layers[m - 1], m - 1, nodes, |nodes|);
      AppendAscending(WiresUpTo(layers, buckets, positions, m - 1), LayerWires(positions, layers[m - 1], m - 1, nodes, |nodes|));
    }
  }

  /**
   * The connections come in (layer, account index) order, so no two of them
   * belong to the same account and their keys `wire-node-<layer>-<index>`
   * never repeat.
   */
  lemma ConnectionKeysUnique(buckets: Buckets, positions: Positions)
    requires WellFormed(buckets)
    ensures KeysAscending(ConnectionsOf(buckets, positions))
    ensures forall p, q :: 0 <= p < q < |ConnectionsOf(buckets, positions)| ==>
              (ConnectionsOf(buckets, positions)[p].layer, ConnectionsOf(buckets, positions)[p].index)
              != (ConnectionsOf(buckets, positions)[q].layer, ConnectionsOf(buckets, positions)[q].index)
  {
    assert Distinct(Keys(buckets)) by {
      forall i, j | 0 <= i < j < |Keys(buckets)| ensures Keys(buckets)[i] != Keys(buckets)[j] {
        assert buckets[i].0 != buckets[j].0;
      }
    }
    SortDistinct(Keys(buckets));
    WiresUpToShape(LayersOf(buckets), buckets, positions, |LayersOf(buckets)|);
  }

  // Drawing: only the wires of expanded layers are drawn.

  /** React key of a connection: `wire-` followed by the key of its account card. */
  function WireKey(c: Connector): (r: string) {
    "wire-node-" + IntToString(c.layer) + "-" + NatToString(c.index)
  }

  /** `parseInt(conn.key.split('-')[2])`, with `None` for NaN; `parts[2]` is `undefined` when missing. */
  function KeyLayerAsWritten(c: Connector): (r: Option<int>) {
    var parts := Split(WireKey(c), '-');
    if |parts| < 3 then None else ParseInt(parts[2])
  }

  /** The render filter as written: the layer read back from the key must be expanded. */
  predicate ShownAsWritten(expanded: Object<int, bool>, c: Connector) {
    match KeyLayerAsWritten(c)
    case None => false
    case Some(layer) => Get(expanded, layer) == Some(true)
  }

  /** The intended render filter: the wire's own layer is expanded, as for its account card. */
  predicate Shown(expanded: Object<int, bool>, c: Connector) {
    Get(expanded, c.layer) == Some(true)
  }

  lemma NoDashInDigits(s: string)
    requires AllDigits(s)
    ensures '-' !in s
  {
    forall i | 0 <= i < |s|
      ensures s[i] != '-'
    {
      assert IsDigit(s[i]);
    }
  }

  /** The pieces of the key of a wire of layer 0 or more, split at `-`. */
  lemma WireKeyPartsNatural(c: Connector)
    requires c.layer >= 0
    ensures Split(WireKey(c), '-') == ["wire", "node", NatToString(c.layer), NatToString(c.index)]
  {
    var n := NatToString(c.index);
    NoDashInDigits(n);
    SplitWithoutSeparator(n, '-');
    var l := NatToString(c.layer);
    NoDashInDigits(l);
    assert WireKey(c) == "wire" + ['-'] + ("node" + ['-'] + (l + ['-'] + n));
    SplitAtFirstSeparator(l, '-', n);
    SplitPastTwo("wire", "node", '-', l + ['-'] + n);
  }

  /** The pieces of the key of a wire of a negative layer: the minus sign opens an extra, empty piece. */
  lemma WireKeyPartsNegative(c: Connector)
    requires c.layer < 0
    ensures Split(WireKey(c), '-') == ["wire", "node", "", NatToString(-c.layer), NatToString(c.index)]
  {
    var n := NatToString(c.index);
    NoDashInDigits(n);
    SplitWithoutSeparator(n, '-');
    var l := NatToString(-c.layer);
    NoDashInDigits(l);
    assert WireKey(c) == "wire" + ['-'] + ("node" + ['-'] + ("" + ['-'] + (l + ['-'] + n)));
    SplitPastTwo("", l, '-', n);
    SplitPastTwo("wire", "node", '-', "" + ['-'] + (l + ['-'] + n));
  }

  /** Reading the layer back from the key recovers it for layers 0 and up, and gives NaN for negative ones. */
  lemma KeyLayerRoundTrip(c: Connector)
    ensures c.layer >= 0 ==> KeyLayerAsWritten(c) == Some(c.layer)
    ensures c.layer < 0 ==> KeyLayerAsWritten(c) == None
  {
    if c.layer >= 0 {
      WireKeyPartsNatural(c);
      ParseIntOfIntToString(c.layer);
    } else {
      WireKeyPartsNegative(c);
      ParseIntOfEmpty();
    }
  }

  /** The filter as written agrees with the intended one on layers 0 and up and hides every wire of a negative layer. */
  lemma ShownAsWrittenAgrees(expanded: Object<int, bool>, c: Connector)
    ensures c.layer >= 0 ==> (ShownAsWritten(expanded, c) <==> Shown(expanded, c))
    ensures c.layer < 0 ==> !ShownAsWritten(expanded, c)
  {
    KeyLayerRoundTrip(c);
  }

  /**
   * Layer -1 expanded: its account cards are drawn but the wire of its first
   * account is not. This is one instance; `WireKeyPartsNegative` and
   * `ShownAsWrittenAgrees` state it for every negative layer, and
   * `KeyLayerRoundTrip` shows the key reads back for every non-negative one.
   */
  lemma NegativeLayerWireHidden()
    ensures var c := Wire(-1, 0, 0, HubSlot(0), Slot(HubSlot(0), 1, 0));
            Shown([(-1, true)], c) && !ShownAsWritten([(-1, true)], c)
  {
    var c := Wire(-1, 0, 0, HubSlot(0), Slot(HubSlot(0), 1, 0));
    ShownAsWrittenAgrees([(-1, true)], c);
  }

  /** `conns.filter(keep)`: the connections `keep` accepts, in order. */
  function Filter(keep: Connector -> bool, conns: seq<Connector>): (r: seq<Connector>)
    ensures |r| <= |conns|
  {
    if conns == [] then []
    else
      var rest := Filter(keep, conns[..|conns| - 1]);
      var c := conns[|conns| - 1];
      if keep(c) then rest + [c] else rest
  }

  lemma {:induction false} FilterMembers(keep: Connector -> bool, conns: seq<Connector>, c: Connector)
    ensures c in Filter(keep, conns) <==> c in conns && keep(c)
  {
    if conns != [] {
      FilterMembers(keep, conns[..|conns| - 1], c);
      assert conns == conns[..|conns| - 1] + [conns[|conns| - 1]];
    }
  }

  /** The wires drawn, in order, with the intended filter. */
  function VisibleWires(expanded: Object<int, bool>, conns: seq<Connector>): (r: seq<Connector>) {
    Filter(c => Shown(expanded, c), conns)
  }

  /** The wires drawn, in order, with the filter as written. */
  function VisibleWiresAsWritten(expanded: Object<int, bool>, conns: seq<Connector>): (r: seq<Connector>) {
    Filter(c => ShownAsWritten(expanded, c), conns)
  }

  /** With the intended filter, a wire is drawn exactly when its layer is expanded. */
  lemma VisibleWiresMembers(expanded: Object<int, bool>, conns: seq<Connector>, c: Connector)
    ensures c in VisibleWires(expanded, conns) <==> c in conns && Shown(expanded, c)
  {
    FilterMembers(c => Shown(expanded, c), conns, c);
  }

  /** With the filter as written, a wire is drawn exactly when its layer is 0 or more and expanded. */
  lemma VisibleWiresAsWrittenMembers(expanded: Object<int, bool>, conns: seq<Connector>, c: Connector)
    ensures c in VisibleWiresAsWritten(expanded, conns) <==> c in conns && c.layer >= 0 && Shown(expanded, c)
  {
    FilterMembers(c => ShownAsWritten(expanded, c), conns, c);
    ShownAsWrittenAgrees(expanded, c);
  }

  /**
   * With the intended filter a wire is drawn exactly when it is a connection
   * and its layer is expanded, which is when its account card is drawn.
   */
  lemma DrawnWires(expanded: Object<int, bool>, buckets: Buckets, positions: Positions, c: Connector)
    ensures c in VisibleWires(expanded, ConnectionsOf(buckets, positions))
            <==> Get(expanded, c.layer) == Some(true)
                 && exists li, i :: 0 <= li < |LayersOf(buckets)|
                      && IsWireOf(positions, LayersOf(buckets)[li], li, NodesOf(buckets, LayersOf(buckets)[li]), i, c)
  {
    VisibleWiresMembers(expanded, ConnectionsOf(buckets, positions), c);
    ConnectionMembers(buckets, positions, c);
  }
}
