/** The spreadsheet engine underneath the table layer, reduced to what the layer
    observes: a sheet is a list of physical rows in row-number order, each with an
    outline level and its cells in column order; a cell has a column index and typed
    content. Reading and writing files is not part of this model. */
module Spreadsheet {
  import opened Wrappers

  /** An engine double. Its arithmetic is not modelled; `rendering` stands for what
      the platform's Double.toString produces for it (e.g. "1.0"). */
  datatype Double = Double(rendering: string)

  /** Typed cell content, one variant per cell type the table layer distinguishes. The
      string accessors of the engine may yield null, hence the Options. */
  datatype CellContent =
    | TextCell(text: Option<string>)
    | NumericCell(number: Double)
    | BooleanCell(flag: bool)
      /** the formula's source text, and the engine's string value of the cell */
    | FormulaCell(formula: Option<string>, stringValue: Option<string>)
      /** blank, error and any other type: only the engine's string value */
    | OtherCell(stringValue: Option<string>)

  datatype Cell = Cell(column: nat, content: CellContent)

  datatype Row = Row(rowNum: nat, outlineLevel: nat, cells: seq<Cell>)

  /** A sheet as the engine parsed it from an existing file. */
  datatype SheetData = SheetData(name: string, rows: seq<Row>)

  function MaxColumn(cells: seq<Cell>): (m: nat)
    requires cells != []
    ensures forall i :: 0 <= i < |cells| ==> cells[i].column <= m
    ensures exists i :: 0 <= i < |cells| && cells[i].column == m
  {
    if |cells| == 1 then cells[0].column
    else
      var m := MaxColumn(cells[1..]);
      assert cells[1..][0] == cells[1];
      if cells[0].column >= m then cells[0].column else m
  }

  /** The engine's "last cell number": one past the largest column index, -1 for a row
      without cells. */
  function LastCellNum(row: Row): int {
    if row.cells == [] then -1 else MaxColumn(row.cells) + 1
  }

  /** getRow(0).getLastCellNum(), or 0 when the sheet has no row numbered 0. */
  function RowZeroWidth(rows: seq<Row>): int {
    if rows == [] then 0
    else if rows[0].rowNum == 0 then LastCellNum(rows[0])
    else RowZeroWidth(rows[1..])
  }

  predicate SortedRows(rows: seq<Row>) {
    forall i, j :: 0 <= i < j < |rows| ==> rows[i].rowNum < rows[j].rowNum
  }

  /** Row numbers 0, 1, ..., n-1 without gaps: what appending writers produce. */
  predicate Dense(rows: seq<Row>) {
    forall i :: 0 <= i < |rows| ==> rows[i].rowNum == i
  }

  /** createRow: the new row replaces a row with the same number, or is inserted
      before the first row with a larger number. */
  function PutRow(rows: seq<Row>, row: Row): seq<Row> {
    if rows == [] then [row]
    else if rows[0].rowNum == row.rowNum then [row] + rows[1..]
    else if rows[0].rowNum > row.rowNum then [row] + rows
    else [rows[0]] + PutRow(rows[1..], row)
  }

  /** createRow holds the new row, drops only the row it replaces and keeps every
      other row. */
  lemma {:induction false} PutRowMembers(rows: seq<Row>, row: Row)
    requires SortedRows(rows)
    ensures forall x :: x in PutRow(rows, row) <==> x == row || (x in rows && x.rowNum != row.rowNum)
    decreases |rows|
  {
    if rows != [] {
      assert rows == [rows[0]] + rows[1..];
      assert forall x :: x in rows[1..] ==> rows[0].rowNum < x.rowNum;
      if rows[0].rowNum < row.rowNum {
        PutRowMembers(rows[1..], row);
      }
    }
  }

  /** createRow keeps the rows in row-number order. */
  lemma {:induction false} PutRowSorted(rows: seq<Row>, row: Row)
    requires SortedRows(rows)
    ensures SortedRows(PutRow(rows, row))
    decreases |rows|
  {
    if rows != [] && rows[0].rowNum < row.rowNum {
      PutRowSorted(rows[1..], row);
      PutRowMembers(rows[1..], row);
      var r := PutRow(rows[1..], row);
      assert forall x :: x in rows[1..] ==> rows[0].rowNum < x.rowNum;
      assert forall x :: x in r ==> rows[0].rowNum < x.rowNum;
      assert forall j :: 0 < j < |r| + 1 ==> ([rows[0]] + r)[j] == r[j - 1];
    }
  }

  /** On a sheet whose rows are numbered without gaps, creating the row numbered by
      the physical row count appends it. */
  lemma PutRowAppends(rows: seq<Row>, row: Row)
    requires Dense(rows) && row.rowNum == |rows|
    ensures PutRow(rows, row) == rows + [row]
  {
    PutRowAppendsFrom(rows, row, 0);
  }

  lemma {:induction false} PutRowAppendsFrom(rows: seq<Row>, row: Row, base: nat)
    requires forall i :: 0 <= i < |rows| ==> rows[i].rowNum == base + i
    requires row.rowNum == base + |rows|
    ensures PutRow(rows, row) == rows + [row]
    decreases |rows|
  {
    if rows != [] {
      PutRowAppendsFrom(rows[1..], row, base + 1);
      assert rows == [rows[0]] + rows[1..];
    }
  }

  /** A sheet of the engine. Only the rows change; the name is fixed at creation. */
  class EngineSheet {
    const name: string
    var rows: seq<Row>

    constructor (name: string, rows: seq<Row>)
      ensures this.name == name && this.rows == rows
    {
      this.name := name;
      this.rows := rows;
    }

    /** getPhysicalNumberOfRows */
    function PhysicalNumberOfRows(): nat
      reads this
    {
      |rows|
    }

    /** createRow followed by filling its cells */
    method CreateRow(row: Row)
      modifies this
      ensures rows == PutRow(old(rows), row)
    {
      rows := PutRow(rows, row);
    }
  }
}
