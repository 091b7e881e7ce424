/**
 * `organizeByLayers`, which both views define alike: a pre-order walk of the
 * tree `buildTree` returns that drops every node named "Transaction Flow" and
 * appends each other node to the bucket of its `layer` attribute (`layer || 0`),
 * whatever its depth; and `layers`, the ascending list of the bucket keys.
 *
 * The source walk has no visited set, so a cycle that pass 2 wired makes it
 * recurse forever. Here the walk carries a depth bound (`fuel`); the bound is
 * the number of accounts, and `FuelSuffices` shows it never binds on a
 * hierarchy that admits a ranking below that number.
 */
module LayerIndex {
  import opened Wrappers
  import opened JsObject
  import opened NumericSort
  import opened HierarchyBuilder

  /** The name of the synthetic root, which the walk never buckets. */
  const FlowName: string := "Transaction Flow"

  /** The `{name: "No Data", attributes: {}, children: []}` sentinel; its missing layer reads `|| 0`. */
  const NoDataNode: Account := Account("No Data", 0, [], [])

  /** `layerMap` of the views: layer number to the nodes of that layer, in visiting order. */
  type Buckets = Object<int, seq<Account>>

  /** The nodes the walk buckets from the account `id` down, in pre-order. */
  function Visit(index: Index, id: string, fuel: nat): (r: seq<Account>)
    ensures forall i :: 0 <= i < |r| ==> r[i].name != FlowName
    decreases fuel, 0
  {
    if fuel == 0 then []
    else
      match Get(index, id)
      case None => []
      case Some(a) => (if a.name == FlowName then [] else [a]) + VisitAll(index, a.children, fuel - 1)
  }

  /** `children.forEach(child => organizeByLayers(child, layerMap))`: the walks of the ids, one after another. */
  function VisitAll(index: Index, ids: seq<string>, fuel: nat): (r: seq<Account>)
    ensures forall i :: 0 <= i < |r| ==> r[i].name != FlowName
    decreases fuel, |ids|
  {
    if ids == [] then []
    else VisitAll(index, ids[..|ids| - 1], fuel) + Visit(index, ids[|ids| - 1], fuel)
  }

  /** Every node `organizeByLayers(data)` buckets, in order. */
  function Walk(t: Tree): (r: seq<Account>)
    ensures forall i :: 0 <= i < |r| ==> r[i].name != FlowName
  {
    match t
    case NoData => [NoDataNode]
    case Flow(index, roots, _, _) => VisitAll(index, roots, |index|)
  }

  /** `layerMap[nodeLayer].push(node)`, creating the bucket on first use. */
  function Push(b: Buckets, a: Account): (r: Buckets) {
    Put(b, a.layer, Get(b, a.layer).GetOr([]) + [a])
  }

  /** The buckets after pushing `nodes` in order. */
  function Bucket(b: Buckets, nodes: seq<Account>): (r: Buckets)
    decreases |nodes|
  {
    if nodes == [] then b else Bucket(Push(b, nodes[0]), nodes[1..])
  }

  /** Reference definition: the nodes of `nodes` whose layer is `layer`, in order. */
  function OnLayer(nodes: seq<Account>, layer: int): (r: seq<Account>)
    ensures |r| <= |nodes|
    ensures forall i :: 0 <= i < |r| ==> r[i].layer == layer && r[i] in nodes
  {
    if nodes == [] then []
    else (if nodes[0].layer == layer then [nodes[0]] else []) + OnLayer(nodes[1..], layer)
  }

  /** `organizeByLayers(data)`. */
  function LayerIndexOf(t: Tree): (r: Buckets) {
    Bucket([], Walk(t))
  }

  /** `Object.keys(layerMap).map(Number).sort((a, b) => a - b)`. */
  function LayersOf(b: Buckets): (r: seq<int>) {
    Sort(Keys(b))
  }

  /** Bucketing two walks one after the other is bucketing their concatenation. */
  lemma {:induction false} BucketAppend(b: Buckets, w1: seq<Account>, w2: seq<Account>)
    ensures Bucket(b, w1 + w2) == Bucket(Bucket(b, w1), w2)
    decreases |w1|
  {
    if w1 == [] {
      assert w1 + w2 == w2;
    } else {
      assert (w1 + w2)[0] == w1[0] && (w1 + w2)[1..] == w1[1..] + w2;
      BucketAppend(Push(b, w1[0]), w1[1..], w2);
    }
  }

  lemma BucketSnoc(b: Buckets, nodes: seq<Account>, a: Account)
    ensures Bucket(b, nodes + [a]) == Push(Bucket(b, nodes), a)
  {
    BucketAppend(b, nodes, [a]);
    assert [a][1..] == [];
  }

  /** One push extends the pushed node's own bucket only. */
  lemma PushGet(b: Buckets, a: Account, layer: int)
    ensures Get(Push(b, a), layer).GetOr([]) == Get(b, layer).GetOr([]) + (if a.layer == layer then [a] else [])
  {
    PutGet(b, a.layer, Get(b, a.layer).GetOr([]) + [a], layer);
    if a.layer != layer {
      assert Get(b, layer).GetOr([]) + [] == Get(b, layer).GetOr([]);
    }
  }

  /**
   * The bucket of a layer receives exactly the visited nodes of that layer, in
   * visiting order, after whatever it held.
   */
  lemma {:induction false} BucketContents(b: Buckets, nodes: seq<Account>, layer: int)
    ensures Get(Bucket(b, nodes), layer).GetOr([]) == Get(b, layer).GetOr([]) + OnLayer(nodes, layer)
    decreases |nodes|
  {
    if nodes == [] {
      assert Get(b, layer).GetOr([]) + [] == Get(b, layer).GetOr([]);
    } else {
      var a := nodes[0];
      var here := if a.layer == layer then [a] else [];
      assert Bucket(b, nodes) == Bucket(Push(b, a), nodes[1..]);
      BucketContents(Push(b, a), nodes[1..], layer);
      PushGet(b, a, layer);
      assert OnLayer(nodes, layer) == here + OnLayer(nodes[1..], layer);
      Regroup(Get(Bucket(b, nodes), layer).GetOr([]), Get(Push(b, a), layer).GetOr([]),
              Get(b, layer).GetOr([]), here, OnLayer(nodes[1..], layer), OnLayer(nodes, layer));
    }
  }

  lemma Regroup(whole: seq<Account>, front: seq<Account>, before: seq<Account>, here: seq<Account>,
                rest: seq<Account>, onLayer: seq<Account>)
    requires whole == front + rest && front == before + here && onLayer == here + rest
    ensures whole == before + onLayer
  {
    assert (before + here) + rest == before + (here + rest);
  }

  /** A layer has a bucket exactly when it held one or some bucketed node has that layer. */
  lemma {:induction false} BucketKeys(b: Buckets, nodes: seq<Account>, layer: int)
    ensures layer in Keys(Bucket(b, nodes)) <==> layer in Keys(b) || exists i :: 0 <= i < |nodes| && nodes[i].layer == layer
    decreases |nodes|
  {
    if nodes != [] {
      var a := nodes[0];
      BucketKeys(Push(b, a), nodes[1..], layer);
      PutKeys(b, a.layer, Get(b, a.layer).GetOr([]) + [a]);
      assert layer in Keys(Push(b, a)) <==> layer in Keys(b) || layer == a.layer;
      assert forall i :: 1 <= i < |nodes| ==> nodes[i] == nodes[1..][i - 1];
      if exists i :: 0 <= i < |nodes| && nodes[i].layer == layer {
        var i :| 0 <= i < |nodes| && nodes[i].layer == layer;
        if i > 0 {
          assert nodes[1..][i - 1].layer == layer;
        }
      }
    }
  }

  lemma {:induction false} BucketWellFormed(b: Buckets, nodes: seq<Account>)
    requires WellFormed(b)
    ensures WellFormed(Bucket(b, nodes))
    decreases |nodes|
  {
    if nodes != [] {
      PutWellFormed(b, nodes[0].layer, Get(b, nodes[0].layer).GetOr([]) + [nodes[0]]);
      BucketWellFormed(Push(b, nodes[0]), nodes[1..]);
    }
  }

  /**
   * `layerMap[L]` holds the walk's nodes of layer `L` in pre-order and no
   * other node, and no bucket holds a "Transaction Flow" node.
   */
  lemma LayerIndexContents(t: Tree, layer: int)
    ensures Get(LayerIndexOf(t), layer).GetOr([]) == OnLayer(Walk(t), layer)
    ensures forall a :: a in Get(LayerIndexOf(t), layer).GetOr([]) ==> a.layer == layer && a.name != FlowName
  {
    BucketContents([], Walk(t), layer);
  }

  /** `layers` lists each bucket key once, in strictly ascending order. */
  lemma LayersAscending(t: Tree)
    ensures StrictlyAscending(LayersOf(LayerIndexOf(t)))
    ensures forall layer :: layer in LayersOf(LayerIndexOf(t)) <==> exists i :: 0 <= i < |Walk(t)| && Walk(t)[i].layer == layer
  {
    var b := LayerIndexOf(t);
    BucketWellFormed([], Walk(t));
    SortDistinct(Keys(b));
    forall layer ensures layer in LayersOf(b) <==> exists i :: 0 <= i < |Walk(t)| && Walk(t)[i].layer == layer {
      BucketKeys([], Walk(t), layer);
      assert layer in LayersOf(b) <==> layer in multiset(Keys(b));
    }
  }

  /** The walk of a list of ids is the walk of its first part followed by that of the rest. */
  lemma {:induction false} VisitAllAppend(index: Index, ids1: seq<string>, ids2: seq<string>, fuel: nat)
    ensures VisitAll(index, ids1 + ids2, fuel) == VisitAll(index, ids1, fuel) + VisitAll(index, ids2, fuel)
  {
    if ids2 != [] {
      var init := ids2[..|ids2| - 1];
      var x := ids2[|ids2| - 1];
      VisitAllAppend(index, ids1, init, fuel);
      assert (ids1 + ids2)[..|ids1 + ids2| - 1] == ids1 + init;
      assert (ids1 + ids2)[|ids1 + ids2| - 1] == x;
      var v := Visit(index, x, fuel);
      assert VisitAll(index, ids1 + ids2, fuel) == VisitAll(index, ids1 + init, fuel) + v;
      assert VisitAll(index, ids2, fuel) == VisitAll(index, init, fuel) + v;
    } else {
      assert ids1 + ids2 == ids1;
    }
  }

  /**
   * Without a visited set, a child listed twice (pass 2 does not deduplicate)
   * has its whole subtree bucketed twice.
   */
  lemma RepeatedChild(index: Index, ids: seq<string>, c: string, fuel: nat)
    ensures VisitAll(index, ids + [c, c], fuel) == VisitAll(index, ids, fuel) + Visit(index, c, fuel) + Visit(index, c, fuel)
  {
    VisitAllAppend(index, ids, [c, c], fuel);
    assert [c, c][..1] == [c] && [c][..0] == [];
    assert VisitAll(index, [c], fuel) == Visit(index, c, fuel);
  }

  /** Every child of a parent ranks below the parent: the hierarchy has no cycle. */
  predicate Ranked(index: Index, rank: string -> nat) {
    forall j, c :: 0 <= j < |index| && c in index[j].1.children ==> rank(c) < rank(index[j].0)
  }

  /** On a ranked hierarchy, fuel above the rank of the start never binds. */
  lemma {:induction false} FuelSuffices(index: Index, rank: string -> nat, id: string, f: nat, g: nat)
    requires Ranked(index, rank) && rank(id) < f <= g
    ensures Visit(index, id, f) == Visit(index, id, g)
    decreases f, 0
  {
    match Get(index, id)
    case None =>
    case Some(a) =>
      var i := GetFound(index, id);
      forall j | 0 <= j < |a.children| ensures rank(a.children[j]) < f - 1 {
        assert a.children[j] in index[i].1.children;
      }
      FuelSufficesAll(index, rank, a.children, f - 1, g - 1);
  }

  lemma {:induction false} FuelSufficesAll(index: Index, rank: string -> nat, ids: seq<string>, f: nat, g: nat)
    requires Ranked(index, rank) && f <= g
    requires forall j :: 0 <= j < |ids| ==> rank(ids[j]) < f
    ensures VisitAll(index, ids, f) == VisitAll(index, ids, g)
    decreases f, |ids|
  {
    if ids != [] {
      var init := ids[..|ids| - 1];
      assert forall j :: 0 <= j < |init| ==> init[j] == ids[j];
      FuelSufficesAll(index, rank, init, f, g);
      FuelSuffices(index, rank, ids[|ids| - 1], f, g);
    }
  }

  /**
   * When every root ranks below the number of accounts, the bounded walk is
   * the complete walk: no deeper bound changes it.
   */
  lemma WalkComplete(t: Tree, rank: string -> nat, g: nat)
    requires t.Flow? && Ranked(t.index, rank) && |t.index| <= g
    requires forall j :: 0 <= j < |t.roots| ==> rank(t.roots[j]) < |t.index|
    ensures Walk(t) == VisitAll(t.index, t.roots, g)
  {
    FuelSufficesAll(t.index, rank, t.roots, |t.index|, g);
  }

  /** The sentinel tree puts its one node in bucket 0. */
  lemma NoDataLayers()
    ensures LayerIndexOf(NoData) == [(0, [NoDataNode])]
    ensures LayersOf(LayerIndexOf(NoData)) == [0]
  {
    assert [NoDataNode][1..] == [];
    assert LayerIndexOf(NoData) == Push([], NoDataNode);
    assert [] + [NoDataNode] == [NoDataNode];
    assert Keys([(0, [NoDataNode])]) == [0];
    assert Sort([0]) == Insert(0, Sort([]));
  }

  // ---------------------------------------------------------------- the recursion, step by step

  /**
   * The recursion of `organizeByLayers` over any accumulator: `step` is what
   * visiting an account does to it. Stating it generically keeps the
   * bookkeeping of the dictionary out of the reasoning about the recursion.
   */
  function Fold<S>(step: (S, Account) -> S, b: S, nodes: seq<Account>): (r: S)
    decreases |nodes|
  {
    if nodes == [] then b else Fold(step, step(b, nodes[0]), nodes[1..])
  }

  /** The accumulator once a known account has been visited itself: stepped unless it is named like the flow root. */
  function Enter<S>(step: (S, Account) -> S, b: S, a: Account): (r: S) {
    if a.name == FlowName then b else step(b, a)
  }

  /** `organizeByLayers(node, layerMap)` followed call by call: the accumulator after the account `id`. */
  function NodeFold<S>(step: (S, Account) -> S, index: Index, id: string, fuel: nat, b: S): (r: S)
    decreases fuel, 0
  {
    if fuel == 0 then b
    else
      match Get(index, id)
      case None => b
      case Some(a) => ChildFold(step, index, a.children, fuel - 1, Enter(step, b, a))
  }

  /** The accumulator after visiting the ids one after another. */
  function ChildFold<S>(step: (S, Account) -> S, index: Index, ids: seq<string>, fuel: nat, b: S): (r: S)
    decreases fuel, |ids|
  {
    if ids == [] then b
    else NodeFold(step, index, ids[|ids| - 1], fuel, ChildFold(step, index, ids[..|ids| - 1], fuel, b))
  }

  lemma {:induction false} FoldAppend<S>(step: (S, Account) -> S, b: S, w1: seq<Account>, w2: seq<Account>)
    ensures Fold(step, b, w1 + w2) == Fold(step, Fold(step, b, w1), w2)
    decreases |w1|
  {
    if w1 == [] {
      assert w1 + w2 == w2;
    } else {
      assert (w1 + w2)[0] == w1[0] && (w1 + w2)[1..] == w1[1..] + w2;
      FoldAppend(step, step(b, w1[0]), w1[1..], w2);
    }
  }

  /** The walk from a known account: the account unless it is the flow root's namesake, then its children's walks. */
  lemma VisitKnown<S>(step: (S, Account) -> S, index: Index, id: string, fuel: nat, a: Account, b: S)
    requires fuel > 0 && Get(index, id) == Some(a)
    ensures Fold(step, b, Visit(index, id, fuel)) == Fold(step, Enter(step, b, a), VisitAll(index, a.children, fuel - 1))
  {
    var self := if a.name == FlowName then [] else [a];
    FoldAppend(step, b, self, VisitAll(index, a.children, fuel - 1));
    assert [a][1..] == [];
  }

  /** Following the recursion call by call visits the nodes of the walk in order. */
  lemma {:induction false} NodeFoldWalk<S>(step: (S, Account) -> S, index: Index, id: string, fuel: nat, b: S)
    ensures NodeFold(step, index, id, fuel, b) == Fold(step, b, Visit(index, id, fuel))
    decreases fuel, 0
  {
    if fuel > 0 && Get(index, id).Some? {
      var a := Get(index, id).value;
      ChildFoldWalk(step, index, a.children, fuel - 1, Enter(step, b, a));
      VisitKnown(step, index, id, fuel, a, b);
    }
  }

  lemma {:induction false} ChildFoldWalk<S>(step: (S, Account) -> S, index: Index, ids: seq<string>, fuel: nat, b: S)
    ensures ChildFold(step, index, ids, fuel, b) == Fold(step, b, VisitAll(index, ids, fuel))
    decreases fuel, |ids|
  {
    if ids != [] {
      var init := ids[..|ids| - 1];
      ChildFoldWalk(step, index, init, fuel, b);
      NodeFoldWalk(step, index, ids[|ids| - 1], fuel, ChildFold(step, index, init, fuel, b));
      FoldAppend(step, b, VisitAll(index, init, fuel), Visit(index, ids[|ids| - 1], fuel));
    }
  }

  /** What visiting an account does to the layer dictionary. */
  const PushStep: (Buckets, Account) -> Buckets := (b, a) => Push(b, a)

  /** Bucketing is the fold of `push` steps. */
  lemma {:induction false} BucketIsFold(b: Buckets, nodes: seq<Account>)
    ensures Bucket(b, nodes) == Fold(PushStep, b, nodes)
    decreases |nodes|
  {
    if nodes != [] {
      assert PushStep(b, nodes[0]) == Push(b, nodes[0]);
      BucketIsFold(Push(b, nodes[0]), nodes[1..]);
    }
  }

  // ---------------------------------------------------------------- the imperative walk

  /** `layerMap[nodeLayer].push(node)` on the accumulator. */
  method PushNode(b: Buckets, a: Account) returns (b': Buckets)
    ensures b' == Push(b, a)
  {
    var bucket := Get(b, a.layer);
    var nodes := if bucket.None? then [] else bucket.value;
    b' := Put(b, a.layer, nodes + [a]);
  }

  /** `organizeByLayers(node, layerMap)` for the account `id`, with the depth bound. */
  method OrganizeNode(index: Index, id: string, fuel: nat, b0: Buckets) returns (b: Buckets)
    ensures b == NodeFold(PushStep, index, id, fuel, b0)
    decreases fuel, 1
  {
    b := b0;
    if fuel > 0 {
      var node := Get(index, id);
      if node.Some? {
        b := OrganizeAccount(index, node.value, fuel - 1, b0);
      }
    }
  }

  /** `organizeByLayers` at a known account: bucket it unless it is the flow root, then walk its children. */
  method OrganizeAccount(index: Index, a: Account, fuel: nat, b0: Buckets) returns (b: Buckets)
    ensures b == ChildFold(PushStep, index, a.children, fuel, Enter(PushStep, b0, a))
    decreases fuel + 1, 0
  {
    b := b0;
    if a.name != FlowName {
      b := PushNode(b0, a);
    }
    b := OrganizeChildren(index, a.children, fuel, b);
  }

  /** `node.children.forEach(child => organizeByLayers(child, layerMap))`. */
  method OrganizeChildren(index: Index, ids: seq<string>, fuel: nat, b0: Buckets) returns (b: Buckets)
    ensures b == ChildFold(PushStep, index, ids, fuel, b0)
    decreases fuel, |ids| + 2
  {
    b := b0;
    var i := 0;
    assert ids[..0] == [];
    while i < |ids|
      invariant 0 <= i <= |ids|
      invariant b == ChildFold(PushStep, index, ids[..i], fuel, b0)
    {
      assert ids[..i + 1][..i] == ids[..i];
      b := OrganizeNode(index, ids[i], fuel, b);
      i := i + 1;
    }
    assert ids[..|ids|] == ids;
  }

  /** `organizeByLayers(data)`: the sentinel, or the walk of the synthetic root's children. */
  method Organize(t: Tree) returns (b: Buckets)
    ensures b == LayerIndexOf(t)
  {
    if t.NoData? {
      b := PushNode([], NoDataNode);
      assert [NoDataNode][1..] == [] && b == Bucket([], [NoDataNode]);
    } else {
      b := OrganizeChildren(t.index, t.roots, |t.index|, []);
      ChildFoldWalk(PushStep, t.index, t.roots, |t.index|, []);
      BucketIsFold([], Walk(t));
    }
  }
}
