/**
 * `write_legend_sheet`: a colour key (one swatch row per highlight) and a
 * description of every schema column, with the optional extra description
 * placed after "Is Global".
 */
module Legend {
  import opened Wrappers
  import opened Json
  import opened Config
  import opened Schema
  import opened Sheet

  /** The swatch text `f"  #{hex}  "`. */
  function Swatch(hex: string): string
  {
    "  #" + hex + "  "
  }

  function Plain(s: string): Cell
  {
    Cell(JStr(s), NoFill)
  }

  /** Each colour-key swatch shows the hex colour of the fill it is painted with. */
  lemma HighlightColours()
    ensures forall k :: 0 <= k < |RowHighlights| ==> RowHighlights[k].hex == FillColor(RowHighlights[k].fill)
    ensures [RowHighlights[0].fill, RowHighlights[1].fill, RowHighlights[2].fill] == [GlobalRowFill, OddRowFill, EvenRowFill]
  {
  }

  /** The list the legend describes: the base list, or the base list with `extra` spliced after "Is Global". */
  function DescriptionsFor(extra: Option<Column>): seq<Column>
  {
    match extra
    case None => BaseColumnDescriptions
    case Some(x) => Spliced(BaseColumnDescriptions, "Is Global", x)
  }

  /** `col_descs`: a copy of the base list, with the extra entry inserted in place when one is given. */
  method ColumnDescriptions(extra: Option<Column>) returns (descs: seq<Column>)
    ensures descs == DescriptionsFor(extra)
    ensures |descs| == |BaseColumnDescriptions| + (if extra.Some? then 1 else 0)
  {
    descs := BaseColumnDescriptions;
    if extra.Some? {
      match FirstKeyIndex(descs, "Is Global")
      case Some(i) => descs := InsertAt(descs, i + 1, extra.value);
      case None => descs := descs + [extra.value];
      SplicedShape(BaseColumnDescriptions, "Is Global", extra.value);
    }
  }

  // ------------------------------------------------------ the layout

  /** The colour-key rows, one per highlight from row `top`: swatch, caption, meaning. */
  function KeyRows(hs: seq<Highlight>, top: int): map<(int, int), Cell>
  {
    if hs == [] then map[] else KeyRows(hs[..|hs| - 1], top) + KeyRow(hs[|hs| - 1], top + |hs| - 1)
  }

  /** Row `r` of the colour key: the swatch in the highlight's own fill, its caption and its meaning. */
  function KeyRow(h: Highlight, r: int): map<(int, int), Cell>
  {
    map[(r, 1) := Cell(JStr(Swatch(h.hex)), h.fill), (r, 2) := Plain(h.caption), (r, 3) := Plain(h.meaning)]
  }

  /** The description rows, one per entry from row `top`: column name and description. */
  function DescRows(ds: seq<Column>, top: int): map<(int, int), Cell>
  {
    if ds == [] then map[] else DescRows(ds[..|ds| - 1], top) + DescRow(ds[|ds| - 1], top + |ds| - 1)
  }

  function DescRow(d: Column, r: int): map<(int, int), Cell>
  {
    map[(r, 1) := Plain(d.0), (r, 2) := Plain(d.1)]
  }

  function KeyHeading(): map<(int, int), Cell>
  {
    map[(1, 1) := Plain("Row Colour Key"), (2, 1) := Plain("Colour"), (2, 2) := Plain("Label"), (2, 3) := Plain("Meaning")]
  }

  function DescHeading(s: int): map<(int, int), Cell>
  {
    map[(s, 1) := Plain("Column Descriptions"), (s + 1, 1) := Plain("Column"), (s + 1, 2) := Plain("Description")]
  }

  /**
   * The legend's cells for a colour key and a description list, in the order the
   * sheet is written; the description section starts two rows below the key.
   */
  function LegendCells(hs: seq<Highlight>, descs: seq<Column>): map<(int, int), Cell>
  {
    KeyHeading() + KeyRows(hs, 3) + DescHeading(|hs| + 5) + DescRows(descs, |hs| + 7)
  }

  lemma {:induction false} KeyRowsDomain(hs: seq<Highlight>, top: int)
    ensures forall p :: p in KeyRows(hs, top) <==> top <= p.0 < top + |hs| && 1 <= p.1 <= 3
  {
    if hs != [] {
      KeyRowsDomain(hs[..|hs| - 1], top);
      KeyRowDomain(hs[|hs| - 1], top + |hs| - 1);
    }
  }

  lemma KeyRowDomain(h: Highlight, r: int)
    ensures forall p :: p in KeyRow(h, r) <==> p.0 == r && 1 <= p.1 <= 3
  {
  }

  lemma {:induction false} KeyRowsLayout(hs: seq<Highlight>, top: int)
    ensures forall p :: p in KeyRows(hs, top) <==> top <= p.0 < top + |hs| && 1 <= p.1 <= 3
    ensures forall r :: top <= r < top + |hs| ==>
              && KeyRows(hs, top)[(r, 1)] == Cell(JStr(Swatch(hs[r - top].hex)), hs[r - top].fill)
              && KeyRows(hs, top)[(r, 2)] == Plain(hs[r - top].caption)
              && KeyRows(hs, top)[(r, 3)] == Plain(hs[r - top].meaning)
  {
    KeyRowsDomain(hs, top);
    if hs != [] {
      var init := hs[..|hs| - 1];
      KeyRowsLayout(init, top);
      KeyRowDomain(hs[|hs| - 1], top + |hs| - 1);
      assert forall i :: 0 <= i < |init| ==> init[i] == hs[i];
    }
  }

  lemma {:induction false} DescRowsDomain(ds: seq<Column>, top: int)
    ensures forall p :: p in DescRows(ds, top) <==> top <= p.0 < top + |ds| && 1 <= p.1 <= 2
  {
    if ds != [] {
      DescRowsDomain(ds[..|ds| - 1], top);
      DescRowDomain(ds[|ds| - 1], top + |ds| - 1);
    }
  }

  lemma DescRowDomain(d: Column, r: int)
    ensures forall p :: p in DescRow(d, r) <==> p.0 == r && 1 <= p.1 <= 2
  {
  }

  lemma {:induction false} DescRowsLayout(ds: seq<Column>, top: int)
    ensures forall p :: p in DescRows(ds, top) <==> top <= p.0 < top + |ds| && 1 <= p.1 <= 2
    ensures forall r :: top <= r < top + |ds| ==>
              DescRows(ds, top)[(r, 1)] == Plain(ds[r - top].0) && DescRows(ds, top)[(r, 2)] == Plain(ds[r - top].1)
  {
    DescRowsDomain(ds, top);
    if ds != [] {
      var init := ds[..|ds| - 1];
      DescRowsLayout(init, top);
      DescRowDomain(ds[|ds| - 1], top + |ds| - 1);
      assert forall i :: 0 <= i < |init| ==> init[i] == ds[i];
    }
  }

  /** The legend writes the key block (rows 1 to |hs| + 2) and the description block, nothing else. */
  lemma LegendDomain(hs: seq<Highlight>, descs: seq<Column>)
    ensures forall p :: p in LegendCells(hs, descs) <==>
              p == (1, 1) || (2 <= p.0 <= |hs| + 2 && 1 <= p.1 <= 3) ||
              p == (|hs| + 5, 1) || (|hs| + 6 <= p.0 < |hs| + 7 + |descs| && 1 <= p.1 <= 2)
  {
    KeyRowsLayout(hs, 3);
    DescRowsLayout(descs, |hs| + 7);
    HeadingDomains(hs);
  }

  lemma HeadingDomains(hs: seq<Highlight>)
    ensures forall p :: p in KeyHeading() <==> p == (1, 1) || (p.0 == 2 && 1 <= p.1 <= 3)
    ensures forall p :: p in DescHeading(|hs| + 5) <==> p == (|hs| + 5, 1) || (p.0 == |hs| + 6 && 1 <= p.1 <= 2)
  {
  }

  /** Row 3 + k holds the swatch, caption and meaning of highlight k, the swatch in that highlight's fill. */
  lemma LegendKeyRows(hs: seq<Highlight>, descs: seq<Column>)
    ensures forall k :: 0 <= k < |hs| ==>
              && (k + 3, 1) in LegendCells(hs, descs) && (k + 3, 2) in LegendCells(hs, descs) && (k + 3, 3) in LegendCells(hs, descs)
              && LegendCells(hs, descs)[(k + 3, 1)] == Cell(JStr(Swatch(hs[k].hex)), hs[k].fill)
              && LegendCells(hs, descs)[(k + 3, 2)] == Plain(hs[k].caption)
              && LegendCells(hs, descs)[(k + 3, 3)] == Plain(hs[k].meaning)
  {
    KeyRowsLayout(hs, 3);
    KeyCellsKept(hs, descs);
  }

  /** No colour-key cell is overwritten by the description section below it. */
  lemma KeyCellsKept(hs: seq<Highlight>, descs: seq<Column>)
    ensures forall p :: p in KeyRows(hs, 3) ==> p in LegendCells(hs, descs) && LegendCells(hs, descs)[p] == KeyRows(hs, 3)[p]
  {
    KeyRowsLayout(hs, 3);
    DescRowsLayout(descs, |hs| + 7);
    HeadingDomains(hs);
  }

  /** Description i is in row |hs| + 7 + i: the column name, then its description. */
  lemma LegendDescRows(hs: seq<Highlight>, descs: seq<Column>)
    ensures forall i :: 0 <= i < |descs| ==>
              && (|hs| + 7 + i, 1) in LegendCells(hs, descs) && (|hs| + 7 + i, 2) in LegendCells(hs, descs)
              && LegendCells(hs, descs)[(|hs| + 7 + i, 1)] == Plain(descs[i].0)
              && LegendCells(hs, descs)[(|hs| + 7 + i, 2)] == Plain(descs[i].1)
  {
    DescRowsLayout(descs, |hs| + 7);
  }

  /**
   * The heading cells ("Row Colour Key", "Colour", "Label", "Meaning", then
   * "Column Descriptions", "Column", "Description") are never overwritten by the rows.
   */
  lemma LegendHeadings(hs: seq<Highlight>, descs: seq<Column>)
    ensures forall p :: p in KeyHeading() ==> p in LegendCells(hs, descs) && LegendCells(hs, descs)[p] == KeyHeading()[p]
    ensures forall p :: p in DescHeading(|hs| + 5) ==>
              p in LegendCells(hs, descs) && LegendCells(hs, descs)[p] == DescHeading(|hs| + 5)[p]
  {
    KeyRowsLayout(hs, 3);
    DescRowsLayout(descs, |hs| + 7);
    HeadingDomains(hs);
  }

  lemma DescriptionsAnchor(xs: seq<Column>)
    requires xs == BaseColumnDescriptions
    ensures FirstKeyIndex(xs, "Is Global") == Some(9)
  {
    FirstKeyIndexAt(xs, "Is Global", 9);
  }

  /**
   * With the three highlights, descriptions start in row 10. Without an extra
   * entry the legend describes exactly the base list; an extra entry is the
   * eleventh, just after "Is Global", so it lands in row 20.
   */
  lemma DescriptionsPlacement(extra: Option<Column>, xs: seq<Column>)
    requires xs == BaseColumnDescriptions
    ensures |RowHighlights| + 7 == 10
    ensures extra.None? ==> DescriptionsFor(extra) == xs
    ensures extra.Some? ==> DescriptionsFor(extra) == xs[..10] + [extra.value] + xs[10..]
  {
    DescriptionsAnchor(xs);
  }

  // ----------------------------------------------------------- writer

  lemma KeyRowWrite(prior: map<(int, int), Cell>, h: Highlight, r: int)
    ensures prior[(r, 1) := Cell(JStr(Swatch(h.hex)), h.fill)][(r, 2) := Plain(h.caption)][(r, 3) := Plain(h.meaning)]
            == prior + KeyRow(h, r)
  {
  }

  lemma KeyRowsStep(start: map<(int, int), Cell>, hs: seq<Highlight>, k: nat, top: int)
    requires k < |hs|
    ensures start + KeyRows(hs[..k + 1], top) == start + KeyRows(hs[..k], top) + KeyRow(hs[k], top + k)
  {
    assert hs[..k + 1][..k] == hs[..k];
    UnionAssoc(start, KeyRows(hs[..k], top), KeyRow(hs[k], top + k));
  }

  lemma DescRowWrite(prior: map<(int, int), Cell>, d: Column, r: int)
    ensures prior[(r, 1) := Plain(d.0)][(r, 2) := Plain(d.1)] == prior + DescRow(d, r)
  {
  }

  lemma DescRowsStep(start: map<(int, int), Cell>, ds: seq<Column>, i: nat, top: int)
    requires i < |ds|
    ensures start + DescRows(ds[..i + 1], top) == start + DescRows(ds[..i], top) + DescRow(ds[i], top + i)
  {
    assert ds[..i + 1][..i] == ds[..i];
    UnionAssoc(start, DescRows(ds[..i], top), DescRow(ds[i], top + i));
  }

  lemma UnionAssoc(a: map<(int, int), Cell>, b: map<(int, int), Cell>, c: map<(int, int), Cell>)
    ensures a + b + c == a + (b + c)
  {
  }

  /** The colour-key loop: one row per highlight from row `top`. */
  method WriteKeyRows(ws: Worksheet, hs: seq<Highlight>, top: int)
    modifies ws`cells
    ensures ws.cells == old(ws.cells) + KeyRows(hs, top)
  {
    var k := 0;
    while k < |hs|
      invariant 0 <= k <= |hs|
      invariant ws.cells == old(ws.cells) + KeyRows(hs[..k], top)
    {
      var h := hs[k];
      var r := top + k;
      KeyRowWrite(ws.cells, h, r);
      KeyRowsStep(old(ws.cells), hs, k, top);
      ws.cells := ws.cells[(r, 1) := Cell(JStr(Swatch(h.hex)), h.fill)];
      ws.cells := ws.cells[(r, 2) := Plain(h.caption)];
      ws.cells := ws.cells[(r, 3) := Plain(h.meaning)];
      k := k + 1;
    }
    assert hs[..k] == hs;
  }

  /** The description loop: one row per entry from row `top`. */
  method WriteDescRows(ws: Worksheet, ds: seq<Column>, top: int)
    modifies ws`cells
    ensures ws.cells == old(ws.cells) + DescRows(ds, top)
  {
    var i := 0;
    while i < |ds|
      invariant 0 <= i <= |ds|
      invariant ws.cells == old(ws.cells) + DescRows(ds[..i], top)
    {
      var (name, description) := ds[i];
      var r := top + i;
      DescRowWrite(ws.cells, ds[i], r);
      DescRowsStep(old(ws.cells), ds, i, top);
      ws.cells := ws.cells[(r, 1) := Plain(name)];
      ws.cells := ws.cells[(r, 2) := Plain(description)];
      i := i + 1;
    }
    assert ds[..i] == ds;
  }

  method WriteLegendSheet(extra: Option<Column>) returns (ws: Worksheet)
    ensures fresh(ws)
    ensures ws.title == "Legend"
    ensures ws.cells == LegendCells(RowHighlights, DescriptionsFor(extra))
    ensures ws.widths == map[1 := 22, 2 := 20, 3 := 70]
    ensures ws.freeze == None
  {
    ws := new Worksheet("Legend");
    ws.cells := KeyHeading();
    WriteKeyRows(ws, RowHighlights, 3);
    var descs := ColumnDescriptions(extra);
    var sectionRow := |RowHighlights| + 5;
    ws.cells := ws.cells + DescHeading(sectionRow);
    WriteDescRows(ws, descs, sectionRow + 2);
    ws.widths := map[1 := 22, 2 := 20, 3 := 70];
  }
}
