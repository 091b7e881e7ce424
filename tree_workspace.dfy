/**
 * The list view (`TreeWorkspace`): one collapsible phase per layer, in
 * ascending layer order, each listing the accounts of its bucket. A phase is
 * expanded unless its layer has been collapsed explicitly, so the page opens
 * with every phase expanded and the first click on a phase collapses it.
 */
module TreeWorkspace {
  import opened Wrappers
  import opened JsObject
  import opened JsStrings
  import opened NumericSort
  import opened HierarchyBuilder
  import opened LayerIndex
  import opened LayerColors

  /** `expandedPhases[layerNum] !== false`: a layer with no entry reads as expanded. */
  predicate IsPhaseExpanded(phases: Object<int, bool>, layer: int) {
    Get(phases, layer) != Some(false)
  }

  /** `togglePhase(layerNum)`: `{...prev, [layerNum]: !isCurrentlyExpanded}`. */
  function TogglePhase(phases: Object<int, bool>, layer: int): (r: Object<int, bool>) {
    Put(phases, layer, !IsPhaseExpanded(phases, layer))
  }

  /**
   * Toggling flips the reading of its own phase (so the first toggle of a
   * phase collapses it), leaves the entry of every other layer as it was, and
   * keeps the object free of repeated keys.
   */
  lemma TogglePhaseEffect(phases: Object<int, bool>, layer: int, other: int)
    ensures IsPhaseExpanded(TogglePhase(phases, layer), layer) <==> !IsPhaseExpanded(phases, layer)
    ensures Get(phases, layer).None? ==> !IsPhaseExpanded(TogglePhase(phases, layer), layer)
    ensures other != layer ==> Get(TogglePhase(phases, layer), other) == Get(phases, other)
    ensures WellFormed(phases) ==> WellFormed(TogglePhase(phases, layer))
  {
    PutGet(phases, layer, !IsPhaseExpanded(phases, layer), layer);
    PutGet(phases, layer, !IsPhaseExpanded(phases, layer), other);
    if WellFormed(phases) {
      PutWellFormed(phases, layer, !IsPhaseExpanded(phases, layer));
    }
  }

  /** Two toggles of a phase give back the reading of every phase. */
  lemma TogglePhaseTwice(phases: Object<int, bool>, layer: int, other: int)
    ensures IsPhaseExpanded(TogglePhase(TogglePhase(phases, layer), layer), other) <==> IsPhaseExpanded(phases, other)
  {
    TogglePhaseEffect(phases, layer, other);
    TogglePhaseEffect(TogglePhase(phases, layer), layer, other);
  }

  // ---------------------------------------------------------------- the phases

  /** One phase as rendered: its header and the account cards below it. */
  datatype Phase = Phase(layer: int, title: string, nodes: seq<Account>, color: ListColor, expanded: bool,
                         cards: seq<Account>)

  /** The header: `isRootLayer ? 'Root Layer' : \`Layer ${layerNum}\``. */
  function PhaseTitle(layer: int): (r: string) {
    if layer == 0 then "Root Layer" else "Layer " + IntToString(layer)
  }

  /** Different layers get different headers. */
  lemma PhaseTitleDistinct(l1: int, l2: int)
    requires l1 != l2
    ensures PhaseTitle(l1) != PhaseTitle(l2)
  {
    if l1 != 0 && l2 != 0 {
      if PhaseTitle(l1) == PhaseTitle(l2) {
        var prefix := "Layer ";
        assert IntToString(l1) == PhaseTitle(l1)[|prefix|..];
        assert IntToString(l2) == PhaseTitle(l2)[|prefix|..];
        ParseIntOfIntToString(l1);
        ParseIntOfIntToString(l2);
      }
    } else {
      assert PhaseTitle(l1)[0] != PhaseTitle(l2)[0];
    }
  }

  /** The cards under a phase: `nodes.map(...)`, skipping any "Transaction Flow" node. */
  function Cards(nodes: seq<Account>): (r: seq<Account>)
    ensures forall a :: a in r <==> a in nodes && a.name != FlowName
  {
    if nodes == [] then []
    else (if nodes[0].name == FlowName then [] else [nodes[0]]) + Cards(nodes[1..])
  }

  lemma {:induction false} CardsOfPlain(nodes: seq<Account>)
    requires forall a :: a in nodes ==> a.name != FlowName
    ensures Cards(nodes) == nodes
  {
    if nodes != [] {
      CardsOfPlain(nodes[1..]);
      assert [nodes[0]] + nodes[1..] == nodes;
    }
  }

  /** The phase at position `i` of `layers.map((layerNum, layerIndex) => ...)`. */
  function PhaseOf(buckets: Buckets, phases: Object<int, bool>, layer: int, i: nat): (r: Phase) {
    var nodes := Get(buckets, layer).GetOr([]);
    var expanded := IsPhaseExpanded(phases, layer);
    Phase(layer, PhaseTitle(layer), nodes, ListLayerColor(i), expanded, if expanded then Cards(nodes) else [])
  }

  /** The phases of the page, one per entry of `layers`. */
  function Phases(buckets: Buckets, phases: Object<int, bool>): (r: seq<Phase>) {
    var layers := LayersOf(buckets);
    seq(|layers|, i requires 0 <= i < |layers| => PhaseOf(buckets, phases, layers[i], i))
  }

  /** The layers of the phases, top to bottom. */
  function PhaseLayers(r: seq<Phase>): (ls: seq<int>)
    ensures |ls| == |r| && forall i :: 0 <= i < |r| ==> ls[i] == r[i].layer
  {
    seq(|r|, i requires 0 <= i < |r| => r[i].layer)
  }

  /**
   * For a tree, the page lists one phase per layer that some walked account
   * has, in strictly ascending layer order.
   */
  lemma PhaseOrder(t: Tree, phases: Object<int, bool>)
    ensures StrictlyAscending(PhaseLayers(Phases(LayerIndexOf(t), phases)))
    ensures forall layer :: layer in PhaseLayers(Phases(LayerIndexOf(t), phases)) <==>
                              exists k :: 0 <= k < |Walk(t)| && Walk(t)[k].layer == layer
  {
    LayersAscending(t);
    assert PhaseLayers(Phases(LayerIndexOf(t), phases)) == LayersOf(LayerIndexOf(t));
  }

  /**
   * Each phase of a tree's page counts exactly the walked accounts of its
   * layer, in walking order, at least one; it is coloured by its position; and
   * it shows all of those accounts when it is expanded and none when it is
   * collapsed.
   */
  lemma PhaseContents(t: Tree, phases: Object<int, bool>, i: nat)
    requires i < |Phases(LayerIndexOf(t), phases)|
    ensures var p := Phases(LayerIndexOf(t), phases)[i];
            p.nodes == OnLayer(Walk(t), p.layer) && p.nodes != [] &&
            p.color == ListLayerColor(i) && (p.expanded <==> Get(phases, p.layer) != Some(false)) &&
            p.cards == (if p.expanded then p.nodes else [])
  {
    var layer := LayersOf(LayerIndexOf(t))[i];
    LayersAscending(t);
    assert layer in LayersOf(LayerIndexOf(t));
    LayerIndexContents(t, layer);
    CardsOfPlain(Get(LayerIndexOf(t), layer).GetOr([]));
    var k :| 0 <= k < |Walk(t)| && Walk(t)[k].layer == layer;
    OnLayerHas(Walk(t), layer, k);
  }

  lemma {:induction false} OnLayerHas(nodes: seq<Account>, layer: int, k: nat)
    requires k < |nodes| && nodes[k].layer == layer
    ensures OnLayer(nodes, layer) != []
  {
    if k > 0 {
      OnLayerHas(nodes[1..], layer, k - 1);
    }
  }

  /** The page opens with every phase expanded, all its accounts shown. */
  lemma FreshPageExpanded(buckets: Buckets)
    ensures forall i :: 0 <= i < |Phases(buckets, [])| ==>
              Phases(buckets, [])[i].expanded && Phases(buckets, [])[i].cards == Cards(Phases(buckets, [])[i].nodes)
  {
  }

  /**
   * A click on the header of layer `layer` flips that phase between showing
   * its accounts and showing none, and leaves every other phase as it was.
   */
  lemma TogglePhaseRender(buckets: Buckets, phases: Object<int, bool>, layer: int, i: nat)
    requires i < |Phases(buckets, phases)|
    ensures var before := Phases(buckets, phases)[i];
            var after := Phases(buckets, TogglePhase(phases, layer))[i];
            if before.layer == layer then
              after == before.(expanded := !before.expanded, cards := if before.expanded then [] else Cards(before.nodes))
            else after == before
  {
    var l := LayersOf(buckets)[i];
    TogglePhaseEffect(phases, layer, l);
  }
}
