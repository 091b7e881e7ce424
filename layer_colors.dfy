/**
 * `getLayerColor` of both views: the colour of the layer at position
 * `layerIndex` of the sorted layer list is entry `layerIndex % 6` of a
 * six-entry palette. The canvas palette carries stroke, fill and gradient; the
 * list palette carries gradient, border, shadow and glow classes.
 */
module LayerColors {

  datatype CanvasColor = CanvasColor(stroke: string, fill: string, bg: string)

  datatype ListColor = ListColor(bg: string, border: string, shadow: string, glow: string)

  const CanvasPalette: seq<CanvasColor> := [
    CanvasColor("#06b6d4", "#06b6d4", "from-cyan-500 to-cyan-600"),
    CanvasColor("#14b8a6", "#14b8a6", "from-teal-500 to-teal-600"),
    CanvasColor("#10b981", "#10b981", "from-emerald-500 to-emerald-600"),
    CanvasColor("#3b82f6", "#3b82f6", "from-blue-500 to-blue-600"),
    CanvasColor("#6366f1", "#6366f1", "from-indigo-500 to-indigo-600"),
    CanvasColor("#0ea5e9", "#0ea5e9", "from-sky-500 to-sky-600")]

  const ListPalette: seq<ListColor> := [
    ListColor("from-cyan-500 to-cyan-600", "border-cyan-400", "shadow-cyan-500/30", "bg-cyan-500/10"),
    ListColor("from-teal-500 to-teal-600", "border-teal-400", "shadow-teal-500/30", "bg-teal-500/10"),
    ListColor("from-emerald-500 to-emerald-600", "border-emerald-400", "shadow-emerald-500/30", "bg-emerald-500/10"),
    ListColor("from-blue-500 to-blue-600", "border-blue-400", "shadow-blue-500/30", "bg-blue-500/10"),
    ListColor("from-indigo-500 to-indigo-600", "border-indigo-400", "shadow-indigo-500/30", "bg-indigo-500/10"),
    ListColor("from-sky-500 to-sky-600", "border-sky-400", "shadow-sky-500/30", "bg-sky-500/10")]

  /** `getLayerColor` of the canvas view. */
  function CanvasLayerColor(layerIndex: nat): (c: CanvasColor)
    ensures c in CanvasPalette
  {
    CanvasPalette[layerIndex % |CanvasPalette|]
  }

  /** `getLayerColor` of the list view. */
  function ListLayerColor(layerIndex: nat): (c: ListColor)
    ensures c in ListPalette
  {
    ListPalette[layerIndex % |ListPalette|]
  }

  /** The six strokes are pairwise different. */
  lemma CanvasStrokesDistinct(a: nat, b: nat)
    requires a < b < 6
    ensures CanvasPalette[a].stroke != CanvasPalette[b].stroke
  {
    assert CanvasPalette[a].stroke[2] != CanvasPalette[b].stroke[2];
  }

  /** The six borders of the list view are pairwise different. */
  lemma ListBordersDistinct(a: nat, b: nat)
    requires a < b < 6
    ensures ListPalette[a].border != ListPalette[b].border
  {
    assert ListPalette[a].border[7] != ListPalette[b].border[7];
  }

  /**
   * Colours repeat with period 6, and six consecutive layers of the canvas
   * all have different strokes.
   */
  lemma CanvasColorCycle(i: nat, j: nat)
    ensures CanvasLayerColor(i + 6) == CanvasLayerColor(i)
    ensures i < j < i + 6 ==> CanvasLayerColor(i).stroke != CanvasLayerColor(j).stroke
  {
    assert (i + 6) % 6 == i % 6;
    if i < j < i + 6 {
      var a, b := i % 6, j % 6;
      assert a != b;
      if a < b {
        CanvasStrokesDistinct(a, b);
      } else {
        CanvasStrokesDistinct(b, a);
      }
    }
  }

  /**
   * Colours repeat with period 6, and six consecutive layers of the list all
   * have different borders.
   */
  lemma ListColorCycle(i: nat, j: nat)
    ensures ListLayerColor(i + 6) == ListLayerColor(i)
    ensures i < j < i + 6 ==> ListLayerColor(i).border != ListLayerColor(j).border
  {
    assert (i + 6) % 6 == i % 6;
    if i < j < i + 6 {
      var a, b := i % 6, j % 6;
      assert a != b;
      if a < b {
        ListBordersDistinct(a, b);
      } else {
        ListBordersDistinct(b, a);
      }
    }
  }
}
