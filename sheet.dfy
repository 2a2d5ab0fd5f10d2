/** excel/Sheet.java: the writable counterpart of ReadonlySheet, an append-only named
    container of rows and row groups. */
module Sheets {
  import opened Groups
  import opened Values

  class Sheet {
    const sheetName: string
    var contents: seq<Record>
    var groupedRows: seq<Group>

    /** An empty sheet with the given name. */
    constructor (sheetName: string)
      ensures this.sheetName == sheetName && contents == [] && groupedRows == []
    {
      this.sheetName := sheetName;
      contents := [];
      groupedRows := [];
    }

    /** Appends a row after all earlier ones, which stay as they were. */
    method AddRow(row: Record)
      modifies this`contents
      ensures contents == old(contents) + [row]
    {
      contents := contents + [row];
    }

    /** Appends the group (rowStart, rowEnd) after all earlier ones. */
    method AddRowGrouping(rowStart: int, rowEnd: int)
      modifies this`groupedRows
      ensures groupedRows == old(groupedRows) + [Group(rowStart, rowEnd)]
    {
      groupedRows := groupedRows + [Group(rowStart, rowEnd)];
    }
  }
}
