/** excel/SimpleExcelReader.java: the older reader that turns every sheet of a workbook
    into a ReadonlySheet of typed values. Its group tracking pushes or pops a single
    start per level change, whatever the size of the change. */
module SimpleExcelReading {
  import opened Wrappers
  import opened Groups
  import opened Spreadsheet
  import opened Values
  import opened ReadonlySheets
  import ExcelSheetReading

  // ---------------------------------------------------------------------------
  // Values

  function OfText(s: Option<string>): Value {
    if s.None? then Null else Str(s.value)
  }

  /** STRING gives the text, NUMERIC the double, BOOLEAN the flag, FORMULA and every
      other type the engine's string value of the cell. */
  function SimpleDecode(content: CellContent): Value {
    match content
    case TextCell(text) => OfText(text)
    case NumericCell(number) => Num(number)
    case BooleanCell(flag) => Bool(flag)
    case FormulaCell(_, stringValue) => OfText(stringValue)
    case OtherCell(stringValue) => OfText(stringValue)
  }

  /** The values of a row, one per cell in cell order: no gap filling, no padding. */
  function DecodeRow(cells: seq<Cell>): (r: Record)
    ensures |r| == |cells| && forall i :: 0 <= i < |cells| ==> r[i] == SimpleDecode(cells[i].content)
  {
    seq(|cells|, i requires 0 <= i < |cells| => SimpleDecode(cells[i].content))
  }

  predicate AllNullValues(values: Record) {
    forall i :: 0 <= i < |values| ==> values[i] == Null
  }

  /** The rows kept: all of them, or with ignoreEmptyRows those with a non-null value. */
  function SimpleKept(rows: seq<Row>, ignoreEmptyRows: bool): seq<Record> {
    if rows == [] then []
    else
      var values := DecodeRow(rows[|rows| - 1].cells);
      SimpleKept(rows[..|rows| - 1], ignoreEmptyRows)
        + (if !ignoreEmptyRows || !AllNullValues(values) then [values] else [])
  }

  // ---------------------------------------------------------------------------
  // The single-step group pass

  /** The pass's variables: tracked level, pending starts (innermost first), last row
      index and the groups added so far. */
  datatype SimpleState = SimpleState(level: nat, stack: seq<int>, previousRow: int, closed: seq<Group>)

  /** One row. A decrease with no pending start polls null from the deque, and unboxing
      it into addRowGrouping(int, int) fails: None. */
  function SimpleStep(st: SimpleState, level: nat): (r: Option<SimpleState>)
    ensures r.Some? ==> r.value.level == level && r.value.previousRow == st.previousRow + 1
  {
    if level > st.level then
      Some(SimpleState(level, [st.previousRow + 1] + st.stack, st.previousRow + 1, st.closed))
    else if level < st.level then
      if st.stack == [] then None
      else Some(SimpleState(level, st.stack[1..], st.previousRow + 1, st.closed + [Group(st.stack[0], st.previousRow)]))
    else
      Some(st.(previousRow := st.previousRow + 1))
  }

  function SimpleScan(levels: seq<nat>): (r: Option<SimpleState>)
    ensures r.Some? ==> (r.value.level == ExcelSheetReading.LastLevel(levels)
                         && r.value.previousRow == |levels| - 1)
  {
    if levels == [] then Some(SimpleState(0, [], -1, []))
    else
      match SimpleScan(levels[..|levels| - 1])
      case None => None
      case Some(st) => SimpleStep(st, levels[|levels| - 1])
  }

  /** The groups of a sheet, or None when the pass fails: after the last row at most
      one open group is closed, ending at the last row index; a level above 0 with no
      pending start fails like a decrease does. */
  function SimpleGroups(levels: seq<nat>): Option<seq<Group>> {
    match SimpleScan(levels)
    case None => None
    case Some(st) =>
      if st.level == 0 then Some(st.closed)
      else if st.stack == [] then None
      else Some(st.closed + [Group(st.stack[0], st.previousRow)])
  }

  // ---------------------------------------------------------------------------
  // Counting pushes and pops

  /** The number of rows whose level is above the previous row's (the first row is
      compared with level 0). */
  function Rises(levels: seq<nat>): nat {
    if levels == [] then 0
    else
      var prefix := levels[..|levels| - 1];
      Rises(prefix) + (if levels[|levels| - 1] > ExcelSheetReading.LastLevel(prefix) then 1 else 0)
  }

  /** The number of rows whose level is below the previous row's. */
  function Drops(levels: seq<nat>): nat {
    if levels == [] then 0
    else
      var prefix := levels[..|levels| - 1];
      Drops(prefix) + (if levels[|levels| - 1] < ExcelSheetReading.LastLevel(prefix) then 1 else 0)
  }

  /** Every prefix has had at least as many rises as drops. */
  predicate NeverOverdrawn(levels: seq<nat>) {
    forall k :: 0 <= k <= |levels| ==> Drops(levels[..k]) <= Rises(levels[..k])
  }

  /** Each rise pushes exactly one start and each drop pops exactly one and adds exactly
      one group, so the pass succeeds exactly when no prefix has more drops than rises;
      then the stack holds rises minus drops starts and one group was added per drop. */
  lemma {:induction false} SimpleScanCounts(levels: seq<nat>)
    ensures SimpleScan(levels).Some? <==> NeverOverdrawn(levels)
    ensures SimpleScan(levels).Some? ==>
      && |SimpleScan(levels).value.stack| == Rises(levels) - Drops(levels)
      && |SimpleScan(levels).value.closed| == Drops(levels)
    decreases |levels|
  {
    if levels == [] {
      assert levels[..0] == [];
    } else {
      var prefix := levels[..|levels| - 1];
      SimpleScanCounts(prefix);
      NeverOverdrawnSnoc(levels);
    }
  }

  /** No prefix overdraws exactly when no shorter prefix does and the whole sheet does
      not. */
  lemma NeverOverdrawnSnoc(levels: seq<nat>)
    requires levels != []
    ensures NeverOverdrawn(levels)
        <==> NeverOverdrawn(levels[..|levels| - 1]) && Drops(levels) <= Rises(levels)
  {
    var prefix := levels[..|levels| - 1];
    assert levels[..|levels|] == levels;
    if NeverOverdrawn(levels) {
      forall k | 0 <= k <= |prefix| ensures Drops(prefix[..k]) <= Rises(prefix[..k]) {
        assert levels[..k] == prefix[..k];
      }
    }
    if NeverOverdrawn(prefix) && Drops(levels) <= Rises(levels) {
      forall k | 0 <= k <= |levels| ensures Drops(levels[..k]) <= Rises(levels[..k]) {
        if k < |levels| {
          assert levels[..k] == prefix[..k];
        }
      }
    }
  }

  /** The failing example: levels 0,2,1,0 open one group, close it, then find no start
      to pop at the third row. */
  lemma CrashExample(levels: seq<nat>)
    requires levels == [0, 2, 1, 0]
    ensures SimpleGroups(levels) == None
  {
    var s0 := SimpleState(0, [], -1, []);
    var s1 := SimpleState(0, [], 0, []);
    var s2 := SimpleState(2, [1], 1, []);
    var s3 := SimpleState(1, [], 2, [Group(1, 1)]);
    assert SimpleStep(s1, 2) == Some(s2) by { assert [0 + 1] + [] == [1]; }
    assert SimpleStep(s2, 1) == Some(s3) by { assert [1][1..] == [] && [] + [Group(1, 1)] == [Group(1, 1)]; }
    SimpleScanStart(levels);
    SimpleScanStepIs(levels, 0, 0, s0, Some(s1));
    SimpleScanStepIs(levels, 1, 2, s1, Some(s2));
    SimpleScanStepIs(levels, 2, 1, s2, Some(s3));
    SimpleScanStepIs(levels, 3, 0, s3, None);
    SimpleScanWhole(levels);
  }

  /** A jump by two opens only one group: levels 0,2,2,0 give the single group (1,2),
      where the full reader gives (1,2) twice. */
  lemma JumpOpensOneGroup(levels: seq<nat>)
    requires levels == [0, 2, 2, 0]
    ensures SimpleGroups(levels) == Some([Group(1, 2)])
    ensures ExcelSheetReading.ExtractGroups(levels, 4) == [Group(1, 2), Group(1, 2)]
  {
    var s0 := SimpleState(0, [], -1, []);
    var s1 := SimpleState(0, [], 0, []);
    var s2 := SimpleState(2, [1], 1, []);
    var s3 := SimpleState(2, [1], 2, []);
    var s4 := SimpleState(0, [], 3, [Group(1, 2)]);
    assert SimpleStep(s1, 2) == Some(s2) by { assert [0 + 1] + [] == [1]; }
    assert SimpleStep(s3, 0) == Some(s4) by { assert [1][1..] == [] && [] + [Group(1, 2)] == [Group(1, 2)]; }
    SimpleScanStart(levels);
    SimpleScanStepIs(levels, 0, 0, s0, Some(s1));
    SimpleScanStepIs(levels, 1, 2, s1, Some(s2));
    SimpleScanStepIs(levels, 2, 2, s2, Some(s3));
    SimpleScanStepIs(levels, 3, 0, s3, Some(s4));
    SimpleScanWhole(levels);
    FullReaderJump(levels);
  }

  lemma FullReaderJump(levels: seq<nat>)
    requires levels == [0, 2, 2, 0]
    ensures ExcelSheetReading.ExtractGroups(levels, 4) == [Group(1, 2), Group(1, 2)]
  {
    FullReaderJumpScan(levels);
    assert ExcelSheetReading.CloseTop([], 0, 3) == [];
  }

  lemma FullReaderJumpScan(levels: seq<nat>)
    requires |levels| == 4 && levels[0] == 0 && levels[1] == 2 && levels[2] == 2 && levels[3] == 0
    ensures ExcelSheetReading.Scan(levels) == ExcelSheetReading.ScanState(0, [], 3, [Group(1, 2), Group(1, 2)])
  {
    var s0 := ExcelSheetReading.ScanState(0, [], -1, []);
    var s1 := ExcelSheetReading.ScanState(0, [], 0, []);
    var s2 := ExcelSheetReading.ScanState(2, [1, 1], 1, []);
    var s3 := ExcelSheetReading.ScanState(2, [1, 1], 2, []);
    var s4 := ExcelSheetReading.ScanState(0, [], 3, [Group(1, 2), Group(1, 2)]);
    assert ExcelSheetReading.Step(s1, 2) == s2 by { assert ExcelSheetReading.Repeat(1, 2) == [1, 1]; }
    assert ExcelSheetReading.Step(s3, 0) == s4 by {
      assert ExcelSheetReading.CloseTop([1, 1], 2, 2) == [Group(1, 2), Group(1, 2)];
    }
    ExcelSheetReading.ScanStart(levels);
    ExcelSheetReading.ScanStepIs(levels, 0, 0, s0, s1);
    ExcelSheetReading.ScanStepIs(levels, 1, 2, s1, s2);
    ExcelSheetReading.ScanStepIs(levels, 2, 2, s2, s3);
    ExcelSheetReading.ScanStepIs(levels, 3, 0, s3, s4);
    ExcelSheetReading.ScanWhole(levels);
  }

  /** Levels that change by at most one from row to row (starting from 0). */
  predicate UnitSteps(levels: seq<nat>) {
    forall i :: 0 <= i < |levels| ==> -1 <= levels[i] - LevelBefore(levels, i) <= 1
  }

  /** The level of the row before row i (0 before the first row). */
  function LevelBefore(levels: seq<nat>, i: nat): int
    requires i < |levels|
  {
    if i == 0 then 0 else levels[i - 1]
  }

  /** With unit changes only, the two passes coincide row by row. */
  lemma {:induction false} UnitStepsAgree(levels: seq<nat>)
    requires UnitSteps(levels)
    ensures var full := ExcelSheetReading.Scan(levels);
      SimpleScan(levels) == Some(SimpleState(full.depth, full.stack, full.previousRow, full.closed))
    decreases |levels|
  {
    if levels != [] {
      var prefix := levels[..|levels| - 1];
      assert UnitSteps(prefix) by {
        forall i | 0 <= i < |prefix|
          ensures -1 <= prefix[i] - LevelBefore(prefix, i) <= 1
        {
          assert prefix[i] == levels[i];
          assert LevelBefore(prefix, i) == LevelBefore(levels, i);
        }
      }
      UnitStepsAgree(prefix);
      var st := ExcelSheetReading.Scan(prefix);
      var level := levels[|levels| - 1];
      assert -1 <= level - LevelBefore(levels, |levels| - 1) <= 1;
      assert LevelBefore(levels, |levels| - 1) == ExcelSheetReading.LastLevel(prefix);
      if level > st.depth {
        assert ExcelSheetReading.Repeat(st.previousRow + 1, 1) == [st.previousRow + 1];
      } else if level < st.depth {
        assert ExcelSheetReading.CloseTop(st.stack, 1, st.previousRow) == [Group(st.stack[0], st.previousRow)];
      }
    }
  }

  /** With unit changes only, no dropped rows and a last level of at most one, the older
      reader finds exactly the groups of ExcelSheetReader. */
  lemma UnitStepsSameGroups(levels: seq<nat>)
    requires UnitSteps(levels) && ExcelSheetReading.LastLevel(levels) <= 1
    ensures SimpleGroups(levels) == Some(ExcelSheetReading.ExtractGroups(levels, |levels|))
  {
    UnitStepsAgree(levels);
    var full := ExcelSheetReading.Scan(levels);
    if full.depth == 1 {
      assert ExcelSheetReading.CloseTop(full.stack, 1, full.previousRow) == [Group(full.stack[0], full.previousRow)];
    } else {
      assert full.depth == 0;
      assert ExcelSheetReading.CloseTop(full.stack, 0, full.previousRow) == [];
      assert full.closed + [] == full.closed;
    }
  }

  // ---------------------------------------------------------------------------
  // The reader

  /** Why reading a sheet fails: the null group start, or a sheet index out of range. */
  datatype ReadError = NullGroupStart | IllegalArgument

  datatype OpenError = IOError | FormatError

  class SimpleExcelReader {
    const ignoreEmptyRows: bool
    /** the sheets of the opened workbook, in workbook order */
    const workbook: seq<EngineSheet>

    constructor (workbook: seq<EngineSheet>, ignoreEmptyRows: bool)
      ensures this.workbook == workbook && this.ignoreEmptyRows == ignoreEmptyRows
    {
      this.workbook := workbook;
      this.ignoreEmptyRows := ignoreEmptyRows;
    }

    /** Opening a file: a missing file is an I/O error, a file the engine cannot parse a
        format error (parsed == None), otherwise a reader over its sheets. */
    static method Open(fileExists: bool, parsed: Option<seq<EngineSheet>>, ignoreEmptyRows: bool)
      returns (r: Result<SimpleExcelReader, OpenError>)
      ensures !fileExists ==> r == Err(IOError)
      ensures fileExists && parsed.None? ==> r == Err(FormatError)
      ensures fileExists && parsed.Some? ==>
        r.Ok? && fresh(r.value) && r.value.workbook == parsed.value && r.value.ignoreEmptyRows == ignoreEmptyRows
    {
      if !fileExists {
        return Err(IOError);
      }
      if parsed.None? {
        return Err(FormatError);
      }
      var reader := new SimpleExcelReader(parsed.value, ignoreEmptyRows);
      return Ok(reader);
    }

    /** The typed values of a row's cells, in cell order, and whether all are null. */
    static method ReadValues(cells: seq<Cell>) returns (rowContents: Record, isEmpty: bool)
      ensures rowContents == DecodeRow(cells)
      ensures isEmpty == AllNullValues(rowContents)
    {
      rowContents := [];
      isEmpty := true;
      var c := 0;
      while c < |cells|
        invariant 0 <= c <= |cells|
        invariant rowContents == DecodeRow(cells[..c])
        invariant isEmpty == AllNullValues(rowContents)
      {
        var value := SimpleDecode(cells[c].content);
        isEmpty := isEmpty && value == Null;
        rowContents := rowContents + [value];
        c := c + 1;
      }
      assert cells[..c] == cells;
    }

    /** Reads one sheet into a new ReadonlySheet, or fails on the null group start. */
    method ReadSheet(sheet: EngineSheet) returns (r: Result<ReadonlySheet, ReadError>)
      ensures r.Ok? <==> SimpleGroups(ExcelSheetReading.Levels(sheet.rows)).Some?
      ensures r.Err? ==> r.error == NullGroupStart
      ensures r.Ok? ==>
        && fresh(r.value)
        && r.value.sheetName == sheet.name
        && r.value.contents == SimpleKept(sheet.rows, ignoreEmptyRows)
        && r.value.groupedRows == SimpleGroups(ExcelSheetReading.Levels(sheet.rows)).value
    {
      var rows := sheet.rows;
      var result := new ReadonlySheet(sheet.name);
      var stack: seq<int> := [];
      var groupLevel: nat := 0;
      var previousRow := -1;
      var n := 0;
      while n < |rows|
        invariant 0 <= n <= |rows|
        invariant fresh(result) && result.sheetName == sheet.name
        invariant SimpleScan(ExcelSheetReading.Levels(rows[..n]))
               == Some(SimpleState(groupLevel, stack, previousRow, result.groupedRows))
        invariant result.contents == SimpleKept(rows[..n], ignoreEmptyRows)
      {
        var currentRow := rows[n];
        var currentGroupLevel := currentRow.outlineLevel;
        SimpleScanRowsSnoc(rows, n);
        SimpleKeptSnoc(rows, n, ignoreEmptyRows);
        if currentGroupLevel > groupLevel {
          stack := [previousRow + 1] + stack;
        } else if currentGroupLevel < groupLevel {
          if stack == [] {
            SimpleScanRowsFail(rows, n + 1);
            return Err(NullGroupStart);
          }
          var groupingStart := stack[0];
          stack := stack[1..];
          result.AddRowGrouping(groupingStart, previousRow);
        }
        groupLevel := currentGroupLevel;

        var rowContents, isEmpty := ReadValues(currentRow.cells);
        if !ignoreEmptyRows || !isEmpty {
          result.AddRow(rowContents);
        }
        previousRow := previousRow + 1;
        n := n + 1;
      }
      assert rows[..n] == rows;
      if groupLevel > 0 {
        if stack == [] {
          return Err(NullGroupStart);
        }
        var groupingStart := stack[0];
        result.AddRowGrouping(groupingStart, previousRow);
      }
      return Ok(result);
    }

    /** readSheet(int): the sheet at a workbook index; an index out of range fails. */
    method ReadSheetAt(index: int) returns (r: Result<ReadonlySheet, ReadError>)
      ensures !(0 <= index < |workbook|) ==> r == Err(IllegalArgument)
      ensures 0 <= index < |workbook| ==>
        && (r.Ok? <==> SimpleGroups(ExcelSheetReading.Levels(workbook[index].rows)).Some?)
        && (r.Err? ==> r.error == NullGroupStart)
        && (r.Ok? ==> (fresh(r.value)
                       && r.value.sheetName == workbook[index].name
                       && r.value.contents == SimpleKept(workbook[index].rows, ignoreEmptyRows)
                       && r.value.groupedRows == SimpleGroups(ExcelSheetReading.Levels(workbook[index].rows)).value))
    {
      if !(0 <= index < |workbook|) {
        return Err(IllegalArgument);
      }
      r := ReadSheet(workbook[index]);
    }

    /** One ReadonlySheet per workbook sheet, in workbook order; the first failing
        sheet fails the whole read. Closing the workbook afterwards is not modelled. */
    method ReadAll() returns (r: Result<seq<ReadonlySheet>, ReadError>)
      ensures r.Ok? <==> forall i :: 0 <= i < |workbook| ==>
                           SimpleGroups(ExcelSheetReading.Levels(workbook[i].rows)).Some?
      ensures r.Err? ==> r.error == NullGroupStart
      ensures r.Ok? ==>
        && |r.value| == |workbook|
        && forall i :: 0 <= i < |workbook| ==>
             && fresh(r.value[i])
             && r.value[i].sheetName == workbook[i].name
             && r.value[i].contents == SimpleKept(workbook[i].rows, ignoreEmptyRows)
             && r.value[i].groupedRows == SimpleGroups(ExcelSheetReading.Levels(workbook[i].rows)).value
    {
      var result: seq<ReadonlySheet> := [];
      var i := 0;
      while i < |workbook|
        invariant 0 <= i <= |workbook| && |result| == i
        invariant forall j :: 0 <= j < i ==> SimpleGroups(ExcelSheetReading.Levels(workbook[j].rows)).Some?
        invariant forall j :: 0 <= j < i ==>
             && fresh(result[j])
             && result[j].sheetName == workbook[j].name
             && result[j].contents == SimpleKept(workbook[j].rows, ignoreEmptyRows)
             && result[j].groupedRows == SimpleGroups(ExcelSheetReading.Levels(workbook[j].rows)).value
      {
        var sheet := ReadSheet(workbook[i]);
        if sheet.Err? {
          return Err(sheet.error);
        }
        result := result + [sheet.value];
        i := i + 1;
      }
      return Ok(result);
    }
  }

  lemma SimpleScanSnoc(levels: seq<nat>, level: nat)
    ensures SimpleScan(levels + [level])
         == (match SimpleScan(levels) case None => None case Some(st) => SimpleStep(st, level))
  {
    assert (levels + [level])[..|levels|] == levels;
  }

  lemma SimpleScanStart(levels: seq<nat>)
    ensures SimpleScan(levels[..0]) == Some(SimpleState(0, [], -1, []))
  {
    assert levels[..0] == [];
  }

  /** One more row, at `level`, takes the pass from `st` to `next`. */
  lemma SimpleScanStepIs(levels: seq<nat>, n: nat, level: nat, st: SimpleState, next: Option<SimpleState>)
    requires n < |levels| && levels[n] == level && SimpleScan(levels[..n]) == Some(st)
    requires SimpleStep(st, level) == next
    ensures SimpleScan(levels[..n + 1]) == next
  {
    SimpleScanSnoc(levels[..n], level);
    assert levels[..n + 1] == levels[..n] + [level];
  }

  lemma SimpleScanWhole(levels: seq<nat>)
    ensures SimpleScan(levels[..|levels|]) == SimpleScan(levels)
  {
    assert levels[..|levels|] == levels;
  }

  /** Once the pass has failed on a prefix it fails on the whole sheet. */
  lemma {:induction false} SimpleScanNoneStays(levels: seq<nat>, k: nat)
    requires k <= |levels| && SimpleScan(levels[..k]).None?
    ensures SimpleScan(levels).None?
    decreases |levels| - k
  {
    if k < |levels| {
      SimpleScanSnoc(levels[..k], levels[k]);
      assert levels[..k + 1] == levels[..k] + [levels[k]];
      SimpleScanNoneStays(levels, k + 1);
    } else {
      assert levels[..k] == levels;
    }
  }

  lemma SimpleScanRowsSnoc(rows: seq<Row>, n: nat)
    requires n < |rows|
    ensures SimpleScan(ExcelSheetReading.Levels(rows[..n + 1]))
         == (match SimpleScan(ExcelSheetReading.Levels(rows[..n]))
             case None => None
             case Some(st) => SimpleStep(st, rows[n].outlineLevel))
  {
    ExcelSheetReading.LevelsSnoc(rows, n);
    SimpleScanSnoc(ExcelSheetReading.Levels(rows[..n]), rows[n].outlineLevel);
  }

  lemma SimpleScanRowsFail(rows: seq<Row>, k: nat)
    requires k <= |rows| && SimpleScan(ExcelSheetReading.Levels(rows[..k])).None?
    ensures SimpleGroups(ExcelSheetReading.Levels(rows)).None?
  {
    assert ExcelSheetReading.Levels(rows)[..k] == ExcelSheetReading.Levels(rows[..k]);
    SimpleScanNoneStays(ExcelSheetReading.Levels(rows), k);
  }

  lemma SimpleKeptSnoc(rows: seq<Row>, n: nat, ignoreEmptyRows: bool)
    requires n < |rows|
    ensures SimpleKept(rows[..n + 1], ignoreEmptyRows)
         == SimpleKept(rows[..n], ignoreEmptyRows)
          + (if !ignoreEmptyRows || !AllNullValues(DecodeRow(rows[n].cells)) then [DecodeRow(rows[n].cells)] else [])
  {
    assert rows[..n + 1][..n] == rows[..n];
  }
}
