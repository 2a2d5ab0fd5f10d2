/** excel/ReadonlySheet.java: a named, append-only container of rows and row groups,
    filled by the readers and then handed out for reading. */
module ReadonlySheets {
  import opened Wrappers
  import opened Groups
  import opened Values

  class ReadonlySheet {
    const sheetName: string
    var contents: seq<Record>
    var groupedRows: seq<Group>

    /** An empty sheet with the given name. */
    constructor (sheetName: string)
      ensures this.sheetName == sheetName && contents == [] && groupedRows == []
    {
      this.sheetName := sheetName;
      contents := [];
      groupedRows := [];
    }

    function GetNumberOfRows(): nat
      reads this
    {
      |contents|
    }

    /** The row added as the i-th one; an index outside the rows fails. */
    function GetRow(i: int): (r: Option<Record>)
      reads this
      ensures r.Some? <==> 0 <= i < GetNumberOfRows()
    {
      if 0 <= i < |contents| then Some(contents[i]) else None
    }

    /** Appends a row: it becomes the last one, the count grows by one, and every earlier
        row is read back as before. */
    method AddRow(row: Record)
      modifies this`contents
      ensures contents == old(contents) + [row]
      ensures GetNumberOfRows() == old(GetNumberOfRows()) + 1
      ensures GetRow(old(GetNumberOfRows())) == Some(row)
      ensures forall i :: 0 <= i < old(GetNumberOfRows()) ==> GetRow(i) == old(GetRow(i))
    {
      contents := contents + [row];
    }

    /** Appends the group (rowStart, rowEnd) after all earlier ones. */
    method AddRowGrouping(rowStart: int, rowEnd: int)
      modifies this`groupedRows
      ensures groupedRows == old(groupedRows) + [Group(rowStart, rowEnd)]
    {
      groupedRows := groupedRows + [Group(rowStart, rowEnd)];
    }

    /** The groups containing rowIndex, in the order they were added (no sorting). */
    method GetRowGroups(rowIndex: int) returns (relevantGroups: seq<Group>)
      ensures relevantGroups == Containing(groupedRows, rowIndex)
    {
      relevantGroups := [];
      for k := 0 to |groupedRows|
        invariant relevantGroups == Containing(groupedRows[..k], rowIndex)
      {
        var rowGroup := groupedRows[k];
        if rowGroup.startIndex <= rowIndex && rowGroup.endIndex >= rowIndex {
          relevantGroups := relevantGroups + [rowGroup];
        }
        assert groupedRows[..k + 1][..k] == groupedRows[..k];
      }
      assert groupedRows[..|groupedRows|] == groupedRows;
    }
  }

  /** The positions of the groups containing `row`, in increasing order. */
  function ContainingIndices(groups: seq<Group>, row: int): seq<nat> {
    if groups == [] then []
    else
      var prefix := ContainingIndices(groups[..|groups| - 1], row);
      prefix + (if groups[|groups| - 1].Contains(row) then [|groups| - 1] else [])
  }

  /** Filtering keeps every copy of a group, in the order of the list: the result is the
      list read at the strictly increasing positions of exactly the groups that contain
      the row. */
  lemma ContainingOrder(groups: seq<Group>, row: int)
    ensures var r, idx := Containing(groups, row), ContainingIndices(groups, row);
      && |idx| == |r|
      && (forall k :: 0 <= k < |idx| ==> idx[k] < |groups| && r[k] == groups[idx[k]])
      && (forall k, l :: 0 <= k < l < |idx| ==> idx[k] < idx[l])
      && (forall i :: 0 <= i < |groups| ==> (i in idx <==> groups[i].Contains(row)))
  {
    ContainingIndicesSpec(groups, row);
    ContainingAt(groups, row);
  }

  lemma {:induction false} ContainingIndicesSpec(groups: seq<Group>, row: int)
    ensures var idx := ContainingIndices(groups, row);
      && (forall k :: 0 <= k < |idx| ==> idx[k] < |groups|)
      && (forall k, l :: 0 <= k < l < |idx| ==> idx[k] < idx[l])
      && (forall i :: 0 <= i < |groups| ==> (i in idx <==> groups[i].Contains(row)))
    decreases |groups|
  {
    if groups != [] {
      var prefix := groups[..|groups| - 1];
      ContainingIndicesSpec(prefix, row);
      forall i | 0 <= i < |prefix|
        ensures prefix[i] == groups[i]
      {
      }
    }
  }

  lemma {:induction false} ContainingAt(groups: seq<Group>, row: int)
    ensures var r, idx := Containing(groups, row), ContainingIndices(groups, row);
      && |idx| == |r|
      && (forall k :: 0 <= k < |idx| ==> 0 <= idx[k] < |groups| && r[k] == groups[idx[k]])
    decreases |groups|
  {
    if groups != [] {
      var prefix := groups[..|groups| - 1];
      ContainingAt(prefix, row);
      var c, pidx := Containing(prefix, row), ContainingIndices(prefix, row);
      var r, idx := Containing(groups, row), ContainingIndices(groups, row);
      forall k | 0 <= k < |idx|
        ensures 0 <= idx[k] < |groups| && r[k] == groups[idx[k]]
      {
        if k < |pidx| {
          assert idx[k] == pidx[k] && r[k] == c[k];
          assert prefix[pidx[k]] == groups[pidx[k]];
        }
      }
    }
  }
}
