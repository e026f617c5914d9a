/**
 * `write_sheet`: a header row of labels, one row per record over the
 * columns of a schema, a three-way row fill, column widths from the
 * longest text, and the header frozen. A worksheet keeps only what the
 * report depends on: cell values with their fill, widths, freeze position.
 */
module Sheet {
  import opened Wrappers
  import opened Json
  import opened Config
  import opened Extract

  datatype Cell = Cell(value: Json, fill: Fill)

  /** A worksheet: cells by (row, column), 1-based, and widths by column number. */
  class Worksheet {
    var title: string
    var cells: map<(int, int), Cell>
    var widths: map<int, int>
    var freeze: Option<string>

    constructor (title: string)
      ensures this.title == title && cells == map[] && widths == map[] && freeze == None
    {
      this.title := title;
      cells := map[];
      widths := map[];
      freeze := None;
    }
  }

  // ----------------------------------------------------- what is written

  /** `row_data.get(key, "")`. */
  function FieldOf(row: Row, key: string): Json
  {
    if key in row then row[key] else JStr("")
  }

  /** Global rows are highlighted whatever their position; others alternate, starting with the odd fill. */
  function RowFill(row: Row, sheetRow: int): Fill
  {
    if "_global" in row && Truthy(row["_global"]) then GlobalRowFill
    else if sheetRow % 2 == 0 then OddRowFill
    else EvenRowFill
  }

  function HeaderCell(column: Column): Cell
  {
    Cell(JStr(column.1), HeaderFill)
  }

  function DataCell(row: Row, column: Column, sheetRow: int): Cell
  {
    Cell(FieldOf(row, column.0), RowFill(row, sheetRow))
  }

  predicate InGrid(p: (int, int), nrows: nat, ncols: nat)
  {
    1 <= p.0 <= nrows + 1 && 1 <= p.1 <= ncols
  }

  /** Rows `lo` .. `hi - 1`, columns 1 .. ncols. */
  predicate InRows(p: (int, int), lo: int, hi: int, ncols: nat)
  {
    lo <= p.0 < hi && 1 <= p.1 <= ncols
  }

  /** The header is in row 1 and record `r` in row `r + 2`, column by column in schema order. */
  ghost predicate HoldsRecords(cells: map<(int, int), Cell>, rows: seq<Row>, columns: seq<Column>)
  {
    && (forall c :: 1 <= c <= |columns| ==> (1, c) in cells && cells[(1, c)] == HeaderCell(columns[c - 1]))
    && (forall r, c :: 2 <= r <= |rows| + 1 && 1 <= c <= |columns| ==>
          (r, c) in cells && cells[(r, c)] == DataCell(rows[r - 2], columns[c - 1], r))
  }

  // ------------------------------------------------------------ widths

  /** `len(str(value or ""))`. */
  function TextLen(v: Json): nat
  {
    if Truthy(v) then |Str(v)| else 0
  }

  function Max(a: nat, b: nat): nat { if a < b then b else a }

  function Min(a: int, b: int): int { if a < b then a else b }

  /** The running maximum of the text lengths, starting from the header's. */
  function MaxLen(start: nat, vals: seq<Json>): nat
  {
    if vals == [] then start else Max(MaxLen(start, vals[..|vals| - 1]), TextLen(vals[|vals| - 1]))
  }

  /** `min(max_len + 4, 60)`. */
  function ColumnWidth(header: string, vals: seq<Json>): int
  {
    Min(MaxLen(|header|, vals) + 4, 60)
  }

  /** The values a column holds: one per record. */
  function ColumnValues(rows: seq<Row>, key: string): (vs: seq<Json>)
    ensures |vs| == |rows| && forall i :: 0 <= i < |rows| ==> vs[i] == FieldOf(rows[i], key)
  {
    if rows == [] then [] else [FieldOf(rows[0], key)] + ColumnValues(rows[1..], key)
  }

  /** The widths of columns 1 .. n, keyed by column number. */
  function Widths(rows: seq<Row>, columns: seq<Column>, n: nat): map<int, int>
    requires n <= |columns|
  {
    if n == 0 then map[]
    else Widths(rows, columns, n - 1)[n := ColumnWidth(columns[n - 1].1, ColumnValues(rows, columns[n - 1].0))]
  }

  /** The widths cover exactly columns 1 .. n, each by the width rule over that column's values. */
  lemma {:induction false} WidthsAt(rows: seq<Row>, columns: seq<Column>, n: nat)
    requires n <= |columns|
    ensures forall c :: c in Widths(rows, columns, n) <==> 1 <= c <= n
    ensures forall c :: 1 <= c <= n ==>
              Widths(rows, columns, n)[c] == ColumnWidth(columns[c - 1].1, ColumnValues(rows, columns[c - 1].0))
  {
    if n > 0 {
      WidthsAt(rows, columns, n - 1);
      var prev := Widths(rows, columns, n - 1);
      var w := ColumnWidth(columns[n - 1].1, ColumnValues(rows, columns[n - 1].0));
      assert Widths(rows, columns, n) == prev[n := w];
    }
  }

  /** `ws.cell(row=r, column=col).value` for rows 2 .. n+1; a cell never written reads as `None`. */
  function CellValue(cells: map<(int, int), Cell>, r: int, c: int): Json
  {
    if (r, c) in cells then cells[(r, c)].value else JNull
  }

  function SheetColumn(cells: map<(int, int), Cell>, col: int, n: nat): (vs: seq<Json>)
    ensures |vs| == n && forall i :: 0 <= i < n ==> vs[i] == CellValue(cells, i + 2, col)
  {
    if n == 0 then [] else SheetColumn(cells, col, n - 1) + [CellValue(cells, n + 1, col)]
  }

  /** The running maximum is the largest of the start and the text lengths. */
  lemma MaxLenIsMaximum(start: nat, vals: seq<Json>)
    ensures MaxLen(start, vals) >= start
    ensures forall i :: 0 <= i < |vals| ==> MaxLen(start, vals) >= TextLen(vals[i])
    ensures MaxLen(start, vals) == start || exists i :: 0 <= i < |vals| && MaxLen(start, vals) == TextLen(vals[i])
  {
    MaxLenBounds(start, vals);
    MaxLenAttained(start, vals);
  }

  lemma {:induction false} MaxLenBounds(start: nat, vals: seq<Json>)
    ensures MaxLen(start, vals) >= start
    ensures forall i :: 0 <= i < |vals| ==> MaxLen(start, vals) >= TextLen(vals[i])
  {
    if vals != [] { MaxLenBounds(start, vals[..|vals| - 1]); }
    forall i | 0 <= i < |vals| ensures MaxLen(start, vals) >= TextLen(vals[i]) {
      MaxLenAt(start, vals, i);
    }
  }

  lemma {:induction false} MaxLenAt(start: nat, vals: seq<Json>, i: nat)
    requires i < |vals|
    ensures MaxLen(start, vals) >= TextLen(vals[i])
  {
    var init := vals[..|vals| - 1];
    assert MaxLen(start, vals) == Max(MaxLen(start, init), TextLen(vals[|vals| - 1]));
    if i < |init| {
      MaxLenAt(start, init, i);
      assert vals[i] == init[i];
    }
  }

  lemma {:induction false} MaxLenAttained(start: nat, vals: seq<Json>)
    ensures MaxLen(start, vals) == start || exists i :: 0 <= i < |vals| && MaxLen(start, vals) == TextLen(vals[i])
  {
    if vals != [] {
      var init, k := vals[..|vals| - 1], |vals| - 1;
      MaxLenAttained(start, init);
      var m := MaxLen(start, vals);
      if m == TextLen(vals[k]) {
        assert 0 <= k < |vals| && m == TextLen(vals[k]);
      } else if m != start {
        assert m == MaxLen(start, init);
        var j :| 0 <= j < |init| && MaxLen(start, init) == TextLen(init[j]);
        assert vals[j] == init[j];
      }
    }
  }

  /** Adding a cell to the column maximises its length into the running maximum. */
  lemma MaxLenSnoc(start: nat, vals: seq<Json>, v: Json)
    ensures MaxLen(start, vals + [v]) == Max(MaxLen(start, vals), TextLen(v))
  {
    assert (vals + [v])[..|vals|] == vals;
  }

  /** A width never exceeds 60, never falls below the header's, and covers every cell unless capped. */
  lemma ColumnWidthBounds(header: string, vals: seq<Json>)
    ensures ColumnWidth(header, vals) <= 60
    ensures ColumnWidth(header, vals) >= Min(|header| + 4, 60)
    ensures ColumnWidth(header, vals) == 60 || forall i :: 0 <= i < |vals| ==> ColumnWidth(header, vals) >= TextLen(vals[i]) + 4
  {
    MaxLenIsMaximum(|header|, vals);
  }

  /** A 10-character header over cells whose longest text is 50 characters gives width 54. */
  lemma ColumnWidthExample(header: string, vals: seq<Json>, k: nat)
    requires |header| == 10 && k < |vals| && TextLen(vals[k]) == 50
    requires forall i :: 0 <= i < |vals| ==> TextLen(vals[i]) <= 50
    ensures ColumnWidth(header, vals) == 54
  {
    MaxLenIsMaximum(|header|, vals);
  }

  /** The fill rule in terms of data rows: first, third, ... non-global rows get the odd fill. */
  lemma RowFillByPosition(row: Row, i: nat)
    ensures RowFill(row, i + 2) == (if "_global" in row && Truthy(row["_global"]) then GlobalRowFill
                                   else if i % 2 == 0 then OddRowFill else EvenRowFill)
  {
    assert (i + 2) % 2 == i % 2;
  }

  /** An extracted record's row gets the global fill, at any position, exactly when its `_global` flag holds. */
  lemma RecordFill(r: Record, sheetRow: int)
    ensures RowFill(AsDict(r), sheetRow) == GlobalRowFill <==> r.global
  {
  }

  /** Reading the data cells back gives the schema's fields of every record, in record order. */
  lemma ReadBack(cells: map<(int, int), Cell>, rows: seq<Row>, columns: seq<Column>, c: int)
    requires HoldsRecords(cells, rows, columns)
    requires 1 <= c <= |columns|
    ensures SheetColumn(cells, c, |rows|) == ColumnValues(rows, columns[c - 1].0)
  {
    var got, want := SheetColumn(cells, c, |rows|), ColumnValues(rows, columns[c - 1].0);
    forall i | 0 <= i < |rows| ensures got[i] == want[i] {
      assert cells[(i + 2, c)] == DataCell(rows[i], columns[c - 1], i + 2);
    }
  }

  // ---------------------------------------------------------- the writer

  /** The width loop for one column: `max_len` over the header and the cells of rows 2 .. n+1. */
  method MeasureColumn(ws: Worksheet, col: int, header: string, n: nat) returns (maxLen: nat)
    ensures maxLen == MaxLen(|header|, SheetColumn(ws.cells, col, n))
  {
    maxLen := |header|;
    var r := 2;
    while r < n + 2
      invariant 2 <= r <= n + 2
      invariant maxLen == MaxLen(|header|, SheetColumn(ws.cells, col, r - 2))
    {
      var val := CellValue(ws.cells, r, col);
      ghost var before := SheetColumn(ws.cells, col, r - 2);
      assert SheetColumn(ws.cells, col, r - 1) == before + [val];
      MaxLenSnoc(|header|, before, val);
      maxLen := Max(maxLen, TextLen(val));
      r := r + 1;
    }
  }

  /** Row 1: the label of every column, with the header fill. */
  method WriteHeader(ws: Worksheet, columns: seq<Column>)
    modifies ws`cells
    ensures forall p :: p in ws.cells <==> p in old(ws.cells) || (p.0 == 1 && 1 <= p.1 <= |columns|)
    ensures forall p :: p in old(ws.cells) && !(p.0 == 1 && 1 <= p.1 <= |columns|) ==> ws.cells[p] == old(ws.cells)[p]
    ensures forall k :: 1 <= k <= |columns| ==> ws.cells[(1, k)] == HeaderCell(columns[k - 1])
  {
    var c := 1;
    while c <= |columns|
      invariant 1 <= c <= |columns| + 1
      invariant forall p :: p in ws.cells <==> p in old(ws.cells) || (p.0 == 1 && 1 <= p.1 < c)
      invariant forall p :: p in old(ws.cells) && !(p.0 == 1 && 1 <= p.1 < c) ==> ws.cells[p] == old(ws.cells)[p]
      invariant forall k :: 1 <= k < c ==> ws.cells[(1, k)] == HeaderCell(columns[k - 1])
    {
      ws.cells := ws.cells[(1, c) := HeaderCell(columns[c - 1])];
      c := c + 1;
    }
  }

  /** Sheet row `r`: the record's field for every column, with the record's fill. */
  method WriteRow(ws: Worksheet, row: Row, r: int, columns: seq<Column>)
    modifies ws`cells
    ensures forall p :: p in ws.cells <==> p in old(ws.cells) || (p.0 == r && 1 <= p.1 <= |columns|)
    ensures forall p :: p in old(ws.cells) && !(p.0 == r && 1 <= p.1 <= |columns|) ==> ws.cells[p] == old(ws.cells)[p]
    ensures forall k :: 1 <= k <= |columns| ==> ws.cells[(r, k)] == DataCell(row, columns[k - 1], r)
  {
    var fill := RowFill(row, r);
    var c := 1;
    while c <= |columns|
      invariant 1 <= c <= |columns| + 1
      invariant forall p :: p in ws.cells <==> p in old(ws.cells) || (p.0 == r && 1 <= p.1 < c)
      invariant forall p :: p in old(ws.cells) && !(p.0 == r && 1 <= p.1 < c) ==> ws.cells[p] == old(ws.cells)[p]
      invariant forall k :: 1 <= k < c ==> ws.cells[(r, k)] == DataCell(row, columns[k - 1], r)
    {
      ws.cells := ws.cells[(r, c) := Cell(FieldOf(row, columns[c - 1].0), fill)];
      c := c + 1;
    }
  }

  /** One column's width from its label and the cells below it. */
  method SetColumnWidth(ws: Worksheet, rows: seq<Row>, columns: seq<Column>, c: int)
    requires HoldsRecords(ws.cells, rows, columns)
    requires 1 <= c <= |columns|
    modifies ws`widths
    ensures ws.widths == old(ws.widths)[c := ColumnWidth(columns[c - 1].1, ColumnValues(rows, columns[c - 1].0))]
  {
    var header := columns[c - 1].1;
    var maxLen := MeasureColumn(ws, c, header, |rows|);
    WidthOfSheetColumn(ws.cells, rows, columns, c, maxLen);
    ws.widths := ws.widths[c := Min(maxLen + 4, 60)];
  }

  /** The width measured on the written sheet is the width rule over the records' values. */
  lemma WidthOfSheetColumn(cells: map<(int, int), Cell>, rows: seq<Row>, columns: seq<Column>, c: int, maxLen: nat)
    requires HoldsRecords(cells, rows, columns)
    requires 1 <= c <= |columns|
    requires maxLen == MaxLen(|columns[c - 1].1|, SheetColumn(cells, c, |rows|))
    ensures Min(maxLen + 4, 60) == ColumnWidth(columns[c - 1].1, ColumnValues(rows, columns[c - 1].0))
  {
    ReadBack(cells, rows, columns, c);
  }

  lemma MergeThenUpdate(a: map<int, int>, b: map<int, int>, k: int, v: int)
    ensures (a + b)[k := v] == a + b[k := v]
  {
  }

  /** Every column's width from the label and the cells below it. */
  method SetWidths(ws: Worksheet, rows: seq<Row>, columns: seq<Column>)
    requires HoldsRecords(ws.cells, rows, columns)
    modifies ws`widths
    ensures ws.widths == old(ws.widths) + Widths(rows, columns, |columns|)
  {
    var c := 1;
    while c <= |columns|
      invariant 1 <= c <= |columns| + 1
      invariant ws.widths == old(ws.widths) + Widths(rows, columns, c - 1)
    {
      SetColumnWidth(ws, rows, columns, c);
      MergeThenUpdate(old(ws.widths), Widths(rows, columns, c - 1), c,
                      ColumnWidth(columns[c - 1].1, ColumnValues(rows, columns[c - 1].0)));
      c := c + 1;
    }
  }

  /** Sheet rows 2 .. n+1: record `i` in row `i + 2`. */
  method WriteRows(ws: Worksheet, rows: seq<Row>, columns: seq<Column>)
    modifies ws`cells
    ensures forall p :: p in ws.cells <==> p in old(ws.cells) || InRows(p, 2, |rows| + 2, |columns|)
    ensures forall p :: p in old(ws.cells) && !InRows(p, 2, |rows| + 2, |columns|) ==> ws.cells[p] == old(ws.cells)[p]
    ensures forall q, k :: 2 <= q <= |rows| + 1 && 1 <= k <= |columns| ==>
              (q, k) in ws.cells && ws.cells[(q, k)] == DataCell(rows[q - 2], columns[k - 1], q)
  {
    var r := 2;
    while r <= |rows| + 1
      invariant 2 <= r <= |rows| + 2
      invariant RowsWritten(old(ws.cells), ws.cells, rows, columns, r)
    {
      ghost var before := ws.cells;
      WriteRow(ws, rows[r - 2], r, columns);
      RowsWrittenStep(old(ws.cells), before, ws.cells, rows, columns, r);
      r := r + 1;
    }
  }

  /** `cells` is `start` with the records before sheet row `r` written below the header. */
  ghost predicate RowsWritten(start: map<(int, int), Cell>, cells: map<(int, int), Cell>, rows: seq<Row>, columns: seq<Column>, r: int)
    requires r <= |rows| + 2
  {
    && (forall p :: p in cells <==> p in start || InRows(p, 2, r, |columns|))
    && (forall p :: p in start && !InRows(p, 2, r, |columns|) ==> cells[p] == start[p])
    && (forall q, k :: 2 <= q < r && 1 <= k <= |columns| ==> (q, k) in cells && cells[(q, k)] == DataCell(rows[q - 2], columns[k - 1], q))
  }

  /** Writing sheet row `r` extends the written records by one row. */
  lemma RowsWrittenStep(start: map<(int, int), Cell>, before: map<(int, int), Cell>, after: map<(int, int), Cell>,
                        rows: seq<Row>, columns: seq<Column>, r: int)
    requires 2 <= r <= |rows| + 1
    requires RowsWritten(start, before, rows, columns, r)
    requires forall p :: p in after <==> p in before || (p.0 == r && 1 <= p.1 <= |columns|)
    requires forall p :: p in before && !(p.0 == r && 1 <= p.1 <= |columns|) ==> after[p] == before[p]
    requires forall k :: 1 <= k <= |columns| ==> (r, k) in after && after[(r, k)] == DataCell(rows[r - 2], columns[k - 1], r)
    ensures RowsWritten(start, after, rows, columns, r + 1)
  {
  }

  /** `write_sheet`: header, records, widths, then the header row frozen. */
  method WriteSheet(ws: Worksheet, rows: seq<Row>, columns: seq<Column>)
    modifies ws
    ensures ws.title == old(ws.title)
    ensures HoldsRecords(ws.cells, rows, columns)
    ensures forall p :: p in ws.cells <==> p in old(ws.cells) || InGrid(p, |rows|, |columns|)
    ensures forall p :: p in old(ws.cells) && !InGrid(p, |rows|, |columns|) ==> ws.cells[p] == old(ws.cells)[p]
    ensures ws.widths == old(ws.widths) + Widths(rows, columns, |columns|)
    ensures ws.freeze == Some("A2")
  {
    WriteHeader(ws, columns);
    WriteRows(ws, rows, columns);
    SetWidths(ws, rows, columns);
    ws.freeze := Some("A2");
  }
}
