/** excel/ExcelSheetReader.java: reads one sheet completely at construction into
    string lines and row groups, then hands the lines out through a rewindable cursor.

    The reading pass is specified by pure functions over the sheet's rows: KeptLines
    for the decoded lines and ExtractGroups for the groups, the latter built from Scan,
    which replays the pass's stack of pending group starts one row at a time. */
module ExcelSheetReading {
  import opened Wrappers
  import opened Groups
  import opened Spreadsheet

  /** A row as the reader returns it (String[], whose entries may be null). */
  type Line = seq<Option<string>>

  // ---------------------------------------------------------------------------
  // Cell decoding

  /** STRING gives its text, NUMERIC the double's rendering, BOOLEAN "true"/"false",
      FORMULA the formula text, any other type the engine's string value. */
  function Decode(content: CellContent): Option<string> {
    match content
    case TextCell(text) => text
    case NumericCell(number) => Some(number.rendering)
    case BooleanCell(flag) => Some(if flag then "true" else "false")
    case FormulaCell(formula, _) => formula
    case OtherCell(stringValue) => stringValue
  }

  function Blanks(n: nat): (r: Line)
    ensures |r| == n && forall i :: 0 <= i < n ==> r[i] == Some("")
  {
    seq(n, _ => Some(""))
  }

  lemma BlanksSnoc(line: Line, n: nat)
    ensures line + Blanks(n) + [Some("")] == line + Blanks(n + 1)
  {
    assert Blanks(n + 1) == Blanks(n) + [Some("")];
  }

  /** The gap filling before a cell: "" up to the cell's column. */
  function FillTo(line: Line, column: nat): Line {
    if column > |line| then line + Blanks(column - |line|) else line
  }

  /** The decoded values of a row's cells, each preceded by its gap filling. */
  function DecodeCells(cells: seq<Cell>): Line {
    if cells == [] then []
    else
      var last := cells[|cells| - 1];
      FillTo(DecodeCells(cells[..|cells| - 1]), last.column) + [Decode(last.content)]
  }

  /** A row is empty when every one of its cells decodes to null (so a row without
      cells is empty); the "" of gap filling does not count. */
  predicate AllNull(cells: seq<Cell>) {
    forall i :: 0 <= i < |cells| ==> Decode(cells[i].content) == None
  }

  /** Right-padding with "" up to the sheet's column count. */
  function PadTo(line: Line, nColumns: int): Line {
    if |line| < nColumns then line + Blanks(nColumns - |line|) else line
  }

  /** The lines the reader keeps, in sheet order. */
  function KeptLines(rows: seq<Row>, ignoreEmptyRows: bool, nColumns: int): seq<Line> {
    if rows == [] then []
    else
      var last := rows[|rows| - 1];
      KeptLines(rows[..|rows| - 1], ignoreEmptyRows, nColumns) +
      (if !ignoreEmptyRows || !AllNull(last.cells) then [PadTo(DecodeCells(last.cells), nColumns)] else [])
  }

  // ---------------------------------------------------------------------------
  // The group pass

  function Levels(rows: seq<Row>): (levels: seq<nat>)
    ensures |levels| == |rows| && forall i :: 0 <= i < |rows| ==> levels[i] == rows[i].outlineLevel
  {
    seq(|rows|, i requires 0 <= i < |rows| => rows[i].outlineLevel)
  }

  /** The pass's variables after some rows: the current depth, the pending group
      starts (innermost first), the index of the last processed row, and the groups
      closed so far in closing order. */
  datatype ScanState = ScanState(depth: nat, stack: seq<int>, previousRow: int, closed: seq<Group>)

  function Repeat(x: int, n: nat): (r: seq<int>)
    ensures |r| == n && forall i :: 0 <= i < n ==> r[i] == x
  {
    seq(n, _ => x)
  }

  /** The groups emitted by popping the top k starts, all ending at `end`. */
  function CloseTop(stack: seq<int>, k: nat, end: int): (r: seq<Group>)
    requires k <= |stack|
    ensures |r| == k && forall i :: 0 <= i < k ==> r[i] == Group(stack[i], end)
  {
    seq(k, i requires 0 <= i < k => Group(stack[i], end))
  }

  /** One row of the pass (StepSpec states what it does). */
  function Step(st: ScanState, level: nat): (r: ScanState)
    requires |st.stack| == st.depth
    ensures r.depth == level && |r.stack| == level
    ensures r.previousRow == st.previousRow + 1
  {
    if level > st.depth then
      ScanState(level, Repeat(st.previousRow + 1, level - st.depth) + st.stack, st.previousRow + 1, st.closed)
    else if level < st.depth then
      var k := st.depth - level;
      ScanState(level, st.stack[k..], st.previousRow + 1, st.closed + CloseTop(st.stack, k, st.previousRow))
    else
      st.(previousRow := st.previousRow + 1)
  }

  /** An increase of the level pushes the row's index once per unit and closes nothing;
      a decrease pops once per unit, emitting (popped start, previous row) each time;
      either way the depth becomes the row's level. */
  lemma StepSpec(st: ScanState, level: nat)
    requires |st.stack| == st.depth
    ensures var r := Step(st, level);
      && r.depth == level && |r.stack| == level && r.previousRow == st.previousRow + 1
      && (level >= st.depth ==>
          && r.closed == st.closed
          && r.stack[level - st.depth..] == st.stack
          && forall i :: 0 <= i < level - st.depth ==> r.stack[i] == st.previousRow + 1)
      && (level < st.depth ==>
          && r.stack == st.stack[st.depth - level..]
          && |r.closed| == |st.closed| + (st.depth - level)
          && r.closed[..|st.closed|] == st.closed
          && forall i :: 0 <= i < st.depth - level ==> r.closed[|st.closed| + i] == Group(st.stack[i], st.previousRow))
  {
  }

  lemma CloseTopSnoc(stack: seq<int>, k: nat, end: int)
    requires k < |stack|
    ensures CloseTop(stack, k + 1, end) == CloseTop(stack, k, end) + [Group(stack[k], end)]
  {
  }

  function LastLevel(levels: seq<nat>): nat {
    if levels == [] then 0 else levels[|levels| - 1]
  }

  /** The pass over all rows, before the groups still open are closed. */
  function Scan(levels: seq<nat>): (r: ScanState)
    ensures |r.stack| == r.depth == LastLevel(levels)
    ensures r.previousRow == |levels| - 1
  {
    if levels == [] then ScanState(0, [], -1, [])
    else Step(Scan(levels[..|levels| - 1]), levels[|levels| - 1])
  }

  function Min(a: int, b: int): int {
    if a <= b then a else b
  }

  /** The reader's groups: those closed during the pass, then the ones still open,
      innermost first, ending at the last row but at most at the last kept line. */
  function ExtractGroups(levels: seq<nat>, kept: nat): seq<Group> {
    var st := Scan(levels);
    st.closed + CloseTop(st.stack, st.depth, Min(st.previousRow, kept - 1))
  }

  // ---------------------------------------------------------------------------
  // What the pass guarantees

  /** Pending starts lie in [0, previousRow] and do not increase towards the bottom. */
  ghost predicate StackOk(stack: seq<int>, previousRow: int) {
    && (forall i :: 0 <= i < |stack| ==> 0 <= stack[i] <= previousRow)
    && (forall i, j :: 0 <= i < j < |stack| ==> stack[j] <= stack[i])
  }

  /** Closed groups are well formed, end before `bound`, and any two are nested or
      disjoint. */
  ghost predicate ClosedOk(closed: seq<Group>, bound: int) {
    && (forall i :: 0 <= i < |closed| ==> 0 <= closed[i].startIndex <= closed[i].endIndex < bound)
    && (forall i, j :: 0 <= i < |closed| && 0 <= j < |closed| ==> Laminar(closed[i], closed[j]))
  }

  /** Each pending start is at or before a closed group's start (so the pending group
      will contain that group) or after its end. */
  ghost predicate Separated(closed: seq<Group>, stack: seq<int>) {
    forall i, j :: 0 <= i < |closed| && 0 <= j < |stack| ==>
      stack[j] <= closed[i].startIndex || closed[i].endIndex < stack[j]
  }

  /** The stack discipline of the pass. */
  ghost predicate ScanInv(st: ScanState) {
    && |st.stack| == st.depth
    && st.previousRow >= -1
    && StackOk(st.stack, st.previousRow)
    && ClosedOk(st.closed, st.previousRow)
    && Separated(st.closed, st.stack)
  }

  lemma PushInv(st: ScanState, level: nat)
    requires ScanInv(st) && level > st.depth
    ensures ScanInv(Step(st, level))
  {
    var p := st.previousRow;
    var n := level - st.depth;
    var stack := Repeat(p + 1, n) + st.stack;
    assert Step(st, level) == ScanState(level, stack, p + 1, st.closed);
    forall i, j | 0 <= i < j < |stack| ensures stack[j] <= stack[i] {
      if j >= n {
        assert stack[j] == st.stack[j - n];
        if i >= n {
          assert stack[i] == st.stack[i - n];
        }
      }
    }
    forall i, j | 0 <= i < |st.closed| && 0 <= j < |stack|
      ensures stack[j] <= st.closed[i].startIndex || st.closed[i].endIndex < stack[j]
    {
      if j >= n {
        assert stack[j] == st.stack[j - n];
      }
    }
    assert forall j :: 0 <= j < |stack| ==> 0 <= stack[j] <= p + 1 by {
      forall j | 0 <= j < |stack| ensures 0 <= stack[j] <= p + 1 {
        if j >= n {
          assert stack[j] == st.stack[j - n];
        }
      }
    }
  }

  /** Groups closed by popping the top k starts at row p keep the closed list sound. */
  lemma PopClosedOk(closed: seq<Group>, stack: seq<int>, k: nat, p: int)
    requires k <= |stack| && StackOk(stack, p) && ClosedOk(closed, p) && Separated(closed, stack)
    ensures ClosedOk(closed + CloseTop(stack, k, p), p + 1)
  {
    var c := closed + CloseTop(stack, k, p);
    var m := |closed|;
    forall i | 0 <= i < |c| ensures 0 <= c[i].startIndex <= c[i].endIndex < p + 1 {
      if i >= m {
        assert c[i] == Group(stack[i - m], p);
      } else {
        assert c[i] == closed[i];
      }
    }
    forall i, j | 0 <= i < |c| && 0 <= j < |c| ensures Laminar(c[i], c[j]) {
      if i < m && j < m {
        assert c[i] == closed[i] && c[j] == closed[j];
      } else if i >= m && j >= m {
        assert c[i] == Group(stack[i - m], p) && c[j] == Group(stack[j - m], p);
      } else if i >= m {
        assert c[j] == closed[j] && c[i] == Group(stack[i - m], p);
        assert stack[i - m] <= closed[j].startIndex || closed[j].endIndex < stack[i - m];
      } else {
        assert c[i] == closed[i] && c[j] == Group(stack[j - m], p);
        assert stack[j - m] <= closed[i].startIndex || closed[i].endIndex < stack[j - m];
      }
    }
  }

  /** After the pop, the remaining starts are separated from every closed group. */
  lemma PopSeparated(closed: seq<Group>, stack: seq<int>, k: nat, p: int)
    requires k <= |stack| && StackOk(stack, p) && Separated(closed, stack)
    ensures Separated(closed + CloseTop(stack, k, p), stack[k..])
  {
    var c := closed + CloseTop(stack, k, p);
    var rest := stack[k..];
    var m := |closed|;
    forall i, j | 0 <= i < |c| && 0 <= j < |rest|
      ensures rest[j] <= c[i].startIndex || c[i].endIndex < rest[j]
    {
      assert rest[j] == stack[k + j];
      if i >= m {
        assert c[i] == Group(stack[i - m], p);
        assert stack[k + j] <= stack[i - m];
      } else {
        assert c[i] == closed[i];
      }
    }
  }

  lemma PopInv(st: ScanState, level: nat)
    requires ScanInv(st) && level <= st.depth
    ensures ScanInv(Step(st, level))
  {
    var p := st.previousRow;
    var k := st.depth - level;
    if level < st.depth {
      assert Step(st, level) == ScanState(level, st.stack[k..], p + 1, st.closed + CloseTop(st.stack, k, p));
      PopClosedOk(st.closed, st.stack, k, p);
      PopSeparated(st.closed, st.stack, k, p);
      PopStackOk(st.stack, k, p);
    }
  }

  /** The starts left after a pop keep the stack discipline one row later. */
  lemma PopStackOk(stack: seq<int>, k: nat, p: int)
    requires k <= |stack| && StackOk(stack, p)
    ensures StackOk(stack[k..], p + 1)
  {
    assert forall j :: 0 <= j < |stack[k..]| ==> stack[k..][j] == stack[k + j];
  }

  lemma ScanSnoc(levels: seq<nat>, level: nat)
    ensures Scan(levels + [level]) == Step(Scan(levels), level)
  {
    assert (levels + [level])[..|levels|] == levels;
  }

  lemma {:induction false} ScanInvariant(levels: seq<nat>)
    ensures ScanInv(Scan(levels))
    decreases |levels|
  {
    if levels != [] {
      var prefix := levels[..|levels| - 1];
      ScanInvariant(prefix);
      var level := levels[|levels| - 1];
      if level > Scan(prefix).depth {
        PushInv(Scan(prefix), level);
      } else {
        PopInv(Scan(prefix), level);
      }
    }
  }

  /** Groups closed inside the loop are well formed, lie within the rows seen, and are
      pairwise nested or disjoint, whatever the rows that were dropped. */
  lemma ClosedGroupsSound(levels: seq<nat>, kept: nat)
    ensures var gs := ExtractGroups(levels, kept);
      var c := |Scan(levels).closed|;
      && c <= |gs|
      && (forall i :: 0 <= i < c ==> gs[i].WellFormed() && gs[i].endIndex < |levels|)
      && (forall i, j :: 0 <= i < c && 0 <= j < c ==> Laminar(gs[i], gs[j]))
  {
    ScanInvariant(levels);
    var st := Scan(levels);
    var gs := ExtractGroups(levels, kept);
    assert forall i :: 0 <= i < |st.closed| ==> gs[i] == st.closed[i];
  }

  /** When no row was dropped, every group (including those closed at the end) is well
      formed, lies within the sheet's rows, and any two are nested or disjoint. */
  lemma ExtractGroupsSound(levels: seq<nat>)
    ensures var gs := ExtractGroups(levels, |levels|);
      && (forall i :: 0 <= i < |gs| ==> gs[i].WellFormed() && gs[i].endIndex < |levels|)
      && (forall i, j :: 0 <= i < |gs| && 0 <= j < |gs| ==> Laminar(gs[i], gs[j]))
  {
    ScanInvariant(levels);
    var st := Scan(levels);
    PopClosedOk(st.closed, st.stack, st.depth, st.previousRow);
  }

  lemma {:induction false} FlatLevelsScan(levels: seq<nat>)
    requires forall i :: 0 <= i < |levels| ==> levels[i] == 0
    ensures Scan(levels) == ScanState(0, [], |levels| - 1, [])
    decreases |levels|
  {
    if levels != [] {
      FlatLevelsScan(levels[..|levels| - 1]);
    }
  }

  /** A sheet without outline levels has no groups. */
  lemma FlatLevelsNoGroups(levels: seq<nat>, kept: nat)
    requires forall i :: 0 <= i < |levels| ==> levels[i] == 0
    ensures ExtractGroups(levels, kept) == []
  {
    FlatLevelsScan(levels);
  }

  /** Two sibling groups of two rows each: levels 0,1,1,0,1,1 give (1,2) then (4,5). */
  lemma SiblingGroups(levels: seq<nat>)
    requires levels == [0, 1, 1, 0, 1, 1]
    ensures ExtractGroups(levels, 6) == [Group(1, 2), Group(4, 5)]
  {
    SiblingScan(levels);
    assert CloseTop([4], 1, 5) == [Group(4, 5)];
  }

  lemma SiblingScan(levels: seq<nat>)
    requires |levels| == 6
    requires levels[0] == 0 && levels[1] == 1 && levels[2] == 1
    requires levels[3] == 0 && levels[4] == 1 && levels[5] == 1
    ensures Scan(levels) == ScanState(1, [4], 5, [Group(1, 2)])
  {
    var s0 := ScanState(0, [], -1, []);
    var s1 := ScanState(0, [], 0, []);
    var s2 := ScanState(1, [1], 1, []);
    var s3 := ScanState(1, [1], 2, []);
    var s4 := ScanState(0, [], 3, [Group(1, 2)]);
    var s5 := ScanState(1, [4], 4, [Group(1, 2)]);
    var s6 := ScanState(1, [4], 5, [Group(1, 2)]);
    SiblingSteps();
    ScanStart(levels);
    ScanStepIs(levels, 0, 0, s0, s1);
    ScanStepIs(levels, 1, 1, s1, s2);
    ScanStepIs(levels, 2, 1, s2, s3);
    ScanStepIs(levels, 3, 0, s3, s4);
    ScanStepIs(levels, 4, 1, s4, s5);
    ScanStepIs(levels, 5, 1, s5, s6);
    ScanWhole(levels);
  }

  lemma SiblingSteps()
    ensures Step(ScanState(0, [], -1, []), 0) == ScanState(0, [], 0, [])
    ensures Step(ScanState(0, [], 0, []), 1) == ScanState(1, [1], 1, [])
    ensures Step(ScanState(1, [1], 1, []), 1) == ScanState(1, [1], 2, [])
    ensures Step(ScanState(1, [1], 2, []), 0) == ScanState(0, [], 3, [Group(1, 2)])
    ensures Step(ScanState(0, [], 3, [Group(1, 2)]), 1) == ScanState(1, [4], 4, [Group(1, 2)])
    ensures Step(ScanState(1, [4], 4, [Group(1, 2)]), 1) == ScanState(1, [4], 5, [Group(1, 2)])
  {
    assert Repeat(1, 1) == [1] && Repeat(4, 1) == [4];
    assert CloseTop([1], 1, 2) == [Group(1, 2)];
  }

  /** Nested groups: levels 0,2,2,1,1,1 give the inner (1,2) first and the outer
      (1,5) when the sheet ends; row 1 lies in both, listed inner first, and row 3
      only in the outer one. */
  lemma NestedGroups(levels: seq<nat>)
    requires levels == [0, 2, 2, 1, 1, 1]
    ensures ExtractGroups(levels, 6) == [Group(1, 2), Group(1, 5)]
    ensures RowGroups(ExtractGroups(levels, 6), 1) == [Group(1, 2), Group(1, 5)]
    ensures RowGroups(ExtractGroups(levels, 6), 3) == [Group(1, 5)]
  {
    NestedScan(levels);
    assert CloseTop([1], 1, 5) == [Group(1, 5)];
    var gs := ExtractGroups(levels, 6);
    assert gs == [Group(1, 2), Group(1, 5)];
    NestedRowGroups(gs);
  }

  lemma NestedScan(levels: seq<nat>)
    requires |levels| == 6
    requires levels[0] == 0 && levels[1] == 2 && levels[2] == 2
    requires levels[3] == 1 && levels[4] == 1 && levels[5] == 1
    ensures Scan(levels) == ScanState(1, [1], 5, [Group(1, 2)])
  {
    var s0 := ScanState(0, [], -1, []);
    var s1 := ScanState(0, [], 0, []);
    var s2 := ScanState(2, [1, 1], 1, []);
    var s3 := ScanState(2, [1, 1], 2, []);
    var s4 := ScanState(1, [1], 3, [Group(1, 2)]);
    var s5 := ScanState(1, [1], 4, [Group(1, 2)]);
    var s6 := ScanState(1, [1], 5, [Group(1, 2)]);
    NestedSteps();
    ScanStart(levels);
    ScanStepIs(levels, 0, 0, s0, s1);
    ScanStepIs(levels, 1, 2, s1, s2);
    ScanStepIs(levels, 2, 2, s2, s3);
    ScanStepIs(levels, 3, 1, s3, s4);
    ScanStepIs(levels, 4, 1, s4, s5);
    ScanStepIs(levels, 5, 1, s5, s6);
    ScanWhole(levels);
  }

  lemma NestedSteps()
    ensures Step(ScanState(0, [], -1, []), 0) == ScanState(0, [], 0, [])
    ensures Step(ScanState(0, [], 0, []), 2) == ScanState(2, [1, 1], 1, [])
    ensures Step(ScanState(2, [1, 1], 1, []), 2) == ScanState(2, [1, 1], 2, [])
    ensures Step(ScanState(2, [1, 1], 2, []), 1) == ScanState(1, [1], 3, [Group(1, 2)])
    ensures Step(ScanState(1, [1], 3, [Group(1, 2)]), 1) == ScanState(1, [1], 4, [Group(1, 2)])
    ensures Step(ScanState(1, [1], 4, [Group(1, 2)]), 1) == ScanState(1, [1], 5, [Group(1, 2)])
  {
    assert Repeat(1, 2) == [1, 1];
    assert CloseTop([1, 1], 1, 2) == [Group(1, 2)];
  }

  /** The pass before any row. */
  lemma ScanStart(levels: seq<nat>)
    ensures Scan(levels[..0]) == ScanState(0, [], -1, [])
  {
    assert levels[..0] == [];
  }

  /** One more row, at `level`, takes the pass from `st` to `next`. */
  lemma ScanStepIs(levels: seq<nat>, n: nat, level: nat, st: ScanState, next: ScanState)
    requires n < |levels| && levels[n] == level && Scan(levels[..n]) == st && Step(st, level) == next
    ensures Scan(levels[..n + 1]) == next
  {
    ScanSnoc(levels[..n], level);
    assert levels[..n + 1] == levels[..n] + [level];
  }

  lemma ScanWhole(levels: seq<nat>)
    ensures Scan(levels[..|levels|]) == Scan(levels)
  {
    assert levels[..|levels|] == levels;
  }

  lemma NestedRowGroups(gs: seq<Group>)
    requires gs == [Group(1, 2), Group(1, 5)]
    ensures RowGroups(gs, 1) == [Group(1, 2), Group(1, 5)]
    ensures RowGroups(gs, 3) == [Group(1, 5)]
  {
    assert gs[..1] == [Group(1, 2)] && gs[..1][..0] == [];
    assert Containing(gs, 1) == gs;
    assert Containing(gs, 3) == [Group(1, 5)];
    assert SortDesc([Group(1, 5)]) == [Group(1, 5)];
  }

  /** When trailing rows are dropped as empty, a group still open at the end can end
      before it starts: levels 0,1 with only the first row kept give (1,0). */
  lemma TrailingGroupInverted(levels: seq<nat>)
    requires levels == [0, 1]
    ensures ExtractGroups(levels, 1) == [Group(1, 0)]
    ensures !Group(1, 0).WellFormed()
  {
    var s0 := ScanState(0, [], -1, []);
    var s1 := ScanState(0, [], 0, []);
    var s2 := ScanState(1, [1], 1, []);
    assert Step(s0, 0) == s1;
    assert Step(s1, 1) == s2 by { assert Repeat(1, 1) == [1]; }
    ScanStart(levels);
    ScanStepIs(levels, 0, 0, s0, s1);
    ScanStepIs(levels, 1, 1, s1, s2);
    ScanWhole(levels);
    assert CloseTop([1], 1, 0) == [Group(1, 0)];
  }

  // ---------------------------------------------------------------------------
  // What the decoding guarantees

  predicate ColumnsIncreasing(cells: seq<Cell>) {
    forall i, j :: 0 <= i < j < |cells| ==> cells[i].column < cells[j].column
  }

  predicate IsColumnOf(cells: seq<Cell>, column: int) {
    exists k :: 0 <= k < |cells| && cells[k].column == column
  }

  /** For cells in increasing column order, each decoded value lands at its cell's
      column, every other position up to the last cell holds "", and nothing follows
      the last cell. */
  lemma {:induction false} DecodeCellsPlacement(cells: seq<Cell>)
    requires ColumnsIncreasing(cells)
    ensures var line := DecodeCells(cells);
      && |line| == (if cells == [] then 0 else cells[|cells| - 1].column + 1)
      && (forall k :: 0 <= k < |cells| ==> line[cells[k].column] == Decode(cells[k].content))
      && (forall j :: 0 <= j < |line| && !IsColumnOf(cells, j) ==> line[j] == Some(""))
    decreases |cells|
  {
    if cells != [] {
      var prefix := cells[..|cells| - 1];
      var last := cells[|cells| - 1];
      assert ColumnsIncreasing(prefix);
      DecodeCellsPlacement(prefix);
      var before := DecodeCells(prefix);
      assert |before| <= last.column by {
        if prefix != [] {
          assert prefix[|prefix| - 1].column < last.column;
        }
      }
      var line := DecodeCells(cells);
      assert line == before + Blanks(last.column - |before|) + [Decode(last.content)];
      LineShape(before, last.column - |before|, Decode(last.content), line);
      forall k | 0 <= k < |cells|
        ensures line[cells[k].column] == Decode(cells[k].content)
      {
        if k < |cells| - 1 {
          assert prefix[k] == cells[k];
        }
      }
      forall j | 0 <= j < |line| && !IsColumnOf(cells, j)
        ensures line[j] == Some("")
      {
        if j < |before| {
          assert !IsColumnOf(prefix, j) by {
            assert forall k :: 0 <= k < |prefix| ==> prefix[k] == cells[k];
          }
        }
      }
    }
  }

  /** A line made of `before`, `gap` blanks and one value. */
  lemma LineShape(before: Line, gap: nat, v: Option<string>, line: Line)
    requires line == before + Blanks(gap) + [v]
    ensures |line| == |before| + gap + 1 && line[|before| + gap] == v
    ensures forall j :: 0 <= j < |before| ==> line[j] == before[j]
    ensures forall j :: |before| <= j < |before| + gap ==> line[j] == Some("")
  {
  }

  /** Padding keeps the line and extends it with "" to at least nColumns entries. */
  lemma PadToSpec(line: Line, nColumns: int)
    ensures var r := PadTo(line, nColumns);
      && |r| == (if |line| < nColumns then nColumns else |line|)
      && r[..|line|] == line
      && forall j :: |line| <= j < |r| ==> r[j] == Some("")
  {
  }

  function EmptyCount(rows: seq<Row>): nat {
    if rows == [] then 0
    else EmptyCount(rows[..|rows| - 1]) + (if AllNull(rows[|rows| - 1].cells) then 1 else 0)
  }

  /** The positions of the rows with a non-null cell, in increasing order. */
  function NonEmptyIndices(rows: seq<Row>): seq<nat> {
    if rows == [] then []
    else
      var prefix := NonEmptyIndices(rows[..|rows| - 1]);
      prefix + (if AllNull(rows[|rows| - 1].cells) then [] else [|rows| - 1])
  }

  /** Without ignoreEmptyRows every row is kept, padded, in order; with it, exactly the
      rows whose cells all decode to null are dropped: the lines are the padded lines of
      the other rows, in sheet order. */
  lemma KeptLinesSpec(rows: seq<Row>, ignoreEmptyRows: bool, nColumns: int)
    ensures var lines := KeptLines(rows, ignoreEmptyRows, nColumns);
      && |lines| == |rows| - (if ignoreEmptyRows then EmptyCount(rows) else 0)
      && (!ignoreEmptyRows ==>
            forall i :: 0 <= i < |rows| ==> lines[i] == PadTo(DecodeCells(rows[i].cells), nColumns))
      && (ignoreEmptyRows ==>
            var idx := NonEmptyIndices(rows);
            && |lines| == |idx|
            && (forall k :: 0 <= k < |idx| ==>
                  idx[k] < |rows| && lines[k] == PadTo(DecodeCells(rows[idx[k]].cells), nColumns))
            && (forall k, l :: 0 <= k < l < |idx| ==> idx[k] < idx[l])
            && (forall i :: 0 <= i < |rows| ==> (i in idx <==> !AllNull(rows[i].cells))))
  {
    KeptLinesCount(rows, ignoreEmptyRows, nColumns);
    if ignoreEmptyRows {
      NonEmptyIndicesSpec(rows);
      KeptLinesAt(rows, nColumns);
    } else {
      KeptLinesAll(rows, nColumns);
    }
  }

  lemma {:induction false} NonEmptyIndicesSpec(rows: seq<Row>)
    ensures var idx := NonEmptyIndices(rows);
      && (forall k :: 0 <= k < |idx| ==> idx[k] < |rows|)
      && (forall k, l :: 0 <= k < l < |idx| ==> idx[k] < idx[l])
      && (forall i :: 0 <= i < |rows| ==> (i in idx <==> !AllNull(rows[i].cells)))
    decreases |rows|
  {
    if rows != [] {
      var prefix := rows[..|rows| - 1];
      NonEmptyIndicesSpec(prefix);
      forall i | 0 <= i < |prefix|
        ensures prefix[i] == rows[i]
      {
      }
    }
  }

  lemma {:induction false} KeptLinesAt(rows: seq<Row>, nColumns: int)
    ensures var lines, idx := KeptLines(rows, true, nColumns), NonEmptyIndices(rows);
      && |lines| == |idx|
      && (forall k :: 0 <= k < |idx| ==>
            0 <= idx[k] < |rows| && lines[k] == PadTo(DecodeCells(rows[idx[k]].cells), nColumns))
    decreases |rows|
  {
    if rows != [] {
      var prefix := rows[..|rows| - 1];
      KeptLinesAt(prefix, nColumns);
      var earlier, pidx := KeptLines(prefix, true, nColumns), NonEmptyIndices(prefix);
      var lines, idx := KeptLines(rows, true, nColumns), NonEmptyIndices(rows);
      forall k | 0 <= k < |idx|
        ensures 0 <= idx[k] < |rows| && lines[k] == PadTo(DecodeCells(rows[idx[k]].cells), nColumns)
      {
        if k < |pidx| {
          assert idx[k] == pidx[k] && lines[k] == earlier[k];
          assert prefix[pidx[k]] == rows[pidx[k]];
        }
      }
    }
  }

  lemma {:induction false} KeptLinesCount(rows: seq<Row>, ignoreEmptyRows: bool, nColumns: int)
    ensures |KeptLines(rows, ignoreEmptyRows, nColumns)| == |rows| - (if ignoreEmptyRows then EmptyCount(rows) else 0)
    decreases |rows|
  {
    if rows != [] {
      var prefix := rows[..|rows| - 1];
      KeptLinesCount(prefix, ignoreEmptyRows, nColumns);
      EmptyCountBound(prefix);
    }
  }

  lemma {:induction false} KeptLinesAll(rows: seq<Row>, nColumns: int)
    ensures var lines := KeptLines(rows, false, nColumns);
      |lines| == |rows| && forall i :: 0 <= i < |rows| ==> lines[i] == PadTo(DecodeCells(rows[i].cells), nColumns)
    decreases |rows|
  {
    if rows != [] {
      var prefix := rows[..|rows| - 1];
      var last := rows[|rows| - 1];
      KeptLinesAll(prefix, nColumns);
      var earlier := KeptLines(prefix, false, nColumns);
      var lines := KeptLines(rows, false, nColumns);
      assert lines == earlier + [PadTo(DecodeCells(last.cells), nColumns)];
      forall i | 0 <= i < |rows|
        ensures lines[i] == PadTo(DecodeCells(rows[i].cells), nColumns)
      {
        if i < |prefix| {
          assert lines[i] == earlier[i];
          assert prefix[i] == rows[i];
        }
      }
    }
  }

  lemma {:induction false} EmptyCountBound(rows: seq<Row>)
    ensures EmptyCount(rows) <= |rows|
    decreases |rows|
  {
    if rows != [] {
      EmptyCountBound(rows[..|rows| - 1]);
    }
  }

  lemma DecodeCellsSnoc(cells: seq<Cell>, c: nat)
    requires c < |cells|
    ensures DecodeCells(cells[..c + 1]) == FillTo(DecodeCells(cells[..c]), cells[c].column) + [Decode(cells[c].content)]
    ensures AllNull(cells[..c + 1]) == (AllNull(cells[..c]) && Decode(cells[c].content) == None)
  {
    assert cells[..c + 1][..c] == cells[..c];
  }

  lemma LevelsSnoc(rows: seq<Row>, n: nat)
    requires n < |rows|
    ensures Levels(rows[..n + 1]) == Levels(rows[..n]) + [rows[n].outlineLevel]
  {
  }

  lemma ScanRowsSnoc(rows: seq<Row>, n: nat)
    requires n < |rows|
    ensures Scan(Levels(rows[..n + 1])) == Step(Scan(Levels(rows[..n])), rows[n].outlineLevel)
  {
    LevelsSnoc(rows, n);
    ScanSnoc(Levels(rows[..n]), rows[n].outlineLevel);
  }

  lemma KeptLinesSnoc(rows: seq<Row>, n: nat, ignoreEmptyRows: bool, nColumns: int)
    requires n < |rows|
    ensures KeptLines(rows[..n + 1], ignoreEmptyRows, nColumns)
         == KeptLines(rows[..n], ignoreEmptyRows, nColumns)
          + (if !ignoreEmptyRows || !AllNull(rows[n].cells) then [PadTo(DecodeCells(rows[n].cells), nColumns)] else [])
  {
    assert rows[..n + 1][..n] == rows[..n];
  }

  // ---------------------------------------------------------------------------
  // The reader

  class ExcelSheetReader {
    const sheet: EngineSheet
    const sheetName: string
    const ignoreEmptyRows: bool
    var contents: seq<Line>
    var groupedRows: seq<Group>
    /** the position of the iterator used by readNextRow */
    var cursor: nat

    ghost predicate Valid()
      reads this
    {
      cursor <= |contents|
    }

    /** Reads the whole sheet at once; the cursor starts at the first line. */
    constructor (sheet: EngineSheet, ignoreEmptyRows: bool)
      ensures this.sheet == sheet && sheetName == sheet.name && this.ignoreEmptyRows == ignoreEmptyRows
      ensures contents == KeptLines(sheet.rows, ignoreEmptyRows, RowZeroWidth(sheet.rows))
      ensures groupedRows == ExtractGroups(Levels(sheet.rows), |contents|)
      ensures cursor == 0 && Valid()
    {
      this.sheet := sheet;
      sheetName := sheet.name;
      this.ignoreEmptyRows := ignoreEmptyRows;
      contents := [];
      groupedRows := [];
      cursor := 0;
      new;
      Read();
    }

    /** Decodes the cells of one row: gap filling, then the value; also tells whether
        every value was null. */
    static method ReadCells(cells: seq<Cell>) returns (rowContents: Line, isEmpty: bool)
      ensures rowContents == DecodeCells(cells)
      ensures isEmpty == AllNull(cells)
    {
      rowContents := [];
      isEmpty := true;
      var c := 0;
      while c < |cells|
        invariant 0 <= c <= |cells|
        invariant rowContents == DecodeCells(cells[..c])
        invariant isEmpty == AllNull(cells[..c])
      {
        var currentCell := cells[c];
        rowContents := FillGap(rowContents, currentCell.column);
        DecodeCellsSnoc(cells, c);
        var value := Decode(currentCell.content);
        isEmpty := isEmpty && value == None;
        rowContents := rowContents + [value];
        c := c + 1;
      }
      assert cells[..c] == cells;
    }

    /** The gap filling before a cell: appends "" until the line reaches the cell's
        column. */
    static method FillGap(line: Line, column: nat) returns (rowContents: Line)
      ensures rowContents == FillTo(line, column)
    {
      rowContents := line;
      while column > |rowContents|
        invariant |line| <= |rowContents|
        invariant rowContents == line + Blanks(|rowContents| - |line|)
        invariant |rowContents| > |line| ==> |rowContents| <= column
        decreases column - |rowContents|
      {
        BlanksSnoc(line, |rowContents| - |line|);
        rowContents := rowContents + [Some("")];
      }
    }

    /** The level change at one row: opens one group per unit of increase, all
        starting at the row, or closes one per unit of decrease, ending at the row
        before; in the pass this is the code before the cells are read. */
    method ChangeLevel(currentGroupLevel: nat, groupLevel0: nat, stack0: seq<int>, previousRow: int)
      returns (groupLevel: nat, stack: seq<int>)
      requires |stack0| == groupLevel0
      modifies this`groupedRows
      ensures ScanState(groupLevel, stack, previousRow + 1, groupedRows)
           == Step(ScanState(groupLevel0, stack0, previousRow, old(groupedRows)), currentGroupLevel)
    {
      groupLevel, stack := groupLevel0, stack0;
      ghost var before := ScanState(groupLevel0, stack0, previousRow, groupedRows);
      if currentGroupLevel > groupLevel {
        while currentGroupLevel > groupLevel
          invariant before.depth <= groupLevel <= currentGroupLevel
          invariant stack == Repeat(previousRow + 1, groupLevel - before.depth) + before.stack
          invariant groupedRows == before.closed
        {
          stack := [previousRow + 1] + stack;
          groupLevel := groupLevel + 1;
        }
      } else if currentGroupLevel < groupLevel {
        while currentGroupLevel < groupLevel
          invariant currentGroupLevel <= groupLevel <= before.depth
          invariant stack == before.stack[before.depth - groupLevel..]
          invariant groupedRows == before.closed + CloseTop(before.stack, before.depth - groupLevel, previousRow)
        {
          var groupingStart := stack[0];
          CloseTopSnoc(before.stack, before.depth - groupLevel, previousRow);
          groupedRows := groupedRows + [Group(groupingStart, previousRow)];
          stack := stack[1..];
          groupLevel := groupLevel - 1;
        }
      }
    }

    /** Right-pads a kept line with "" to the sheet's column count. */
    static method PadRow(decoded: Line, nColumns: int) returns (rowContents: Line)
      ensures rowContents == PadTo(decoded, nColumns)
    {
      rowContents := decoded;
      while |rowContents| < nColumns
        invariant |decoded| <= |rowContents|
        invariant rowContents == decoded + Blanks(|rowContents| - |decoded|)
        invariant |rowContents| > |decoded| ==> |rowContents| <= nColumns
        decreases nColumns - |rowContents|
      {
        BlanksSnoc(decoded, |rowContents| - |decoded|);
        rowContents := rowContents + [Some("")];
      }
    }

    /** After the last row: closes the groups still open, innermost first, ending at
        the last row but at most at the last kept line. */
    method CloseOpenGroups(groupLevel0: nat, stack0: seq<int>, previousRow: int)
      requires |stack0| == groupLevel0
      modifies this`groupedRows
      ensures groupedRows == old(groupedRows) + CloseTop(stack0, groupLevel0, Min(previousRow, |contents| - 1))
    {
      var groupLevel: int, stack := groupLevel0, stack0;
      while groupLevel > 0
        invariant 0 <= groupLevel <= groupLevel0
        invariant stack == stack0[groupLevel0 - groupLevel..]
        invariant groupedRows == old(groupedRows)
          + CloseTop(stack0, groupLevel0 - groupLevel, Min(previousRow, |contents| - 1))
      {
        var groupingStart := stack[0];
        var lastRow := Min(previousRow, |contents| - 1);
        CloseTopSnoc(stack0, groupLevel0 - groupLevel, lastRow);
        groupedRows := groupedRows + [Group(groupingStart, lastRow)];
        stack := stack[1..];
        groupLevel := groupLevel - 1;
      }
    }

    /** The single pass over the rows: group stack, decoding, padding, filtering. */
    method Read()
      requires contents == [] && groupedRows == []
      modifies this`contents, this`groupedRows
      ensures contents == KeptLines(sheet.rows, ignoreEmptyRows, RowZeroWidth(sheet.rows))
      ensures groupedRows == ExtractGroups(Levels(sheet.rows), |contents|)
    {
      var rows := sheet.rows;
      var nColumns := RowZeroWidth(rows);
      var stack: seq<int> := [];
      var groupLevel: nat := 0;
      var previousRow := -1;
      var n := 0;
      while n < |rows|
        invariant 0 <= n <= |rows|
        invariant ScanState(groupLevel, stack, previousRow, groupedRows) == Scan(Levels(rows[..n]))
        invariant contents == KeptLines(rows[..n], ignoreEmptyRows, nColumns)
      {
        var currentRow := rows[n];
        ghost var before := ScanState(groupLevel, stack, previousRow, groupedRows);
        ghost var linesBefore := contents;
        groupLevel, stack := ChangeLevel(currentRow.outlineLevel, groupLevel, stack, previousRow);
        assert contents == linesBefore;
        KeptLinesSnoc(rows, n, ignoreEmptyRows, nColumns);
        var rowContents, isEmpty := ReadCells(currentRow.cells);
        if !ignoreEmptyRows || !isEmpty {
          rowContents := PadRow(rowContents, nColumns);
          contents := contents + [rowContents];
        }
        assert contents == KeptLines(rows[..n + 1], ignoreEmptyRows, nColumns);
        previousRow := previousRow + 1;
        ScanRowsSnoc(rows, n);
        assert ScanState(groupLevel, stack, previousRow, groupedRows) == Scan(Levels(rows[..n + 1]));
        n := n + 1;
      }
      assert rows[..n] == rows;
      CloseOpenGroups(groupLevel, stack, previousRow);
    }

    /** The groups containing rowIndex, innermost first; groupedRows is left as it is. */
    method GetRowGroups(rowIndex: int) returns (r: seq<Group>)
      ensures r == RowGroups(groupedRows, rowIndex)
    {
      var relevant: seq<Group> := [];
      for k := 0 to |groupedRows|
        invariant relevant == Containing(groupedRows[..k], rowIndex)
      {
        if groupedRows[k].Contains(rowIndex) {
          relevant := relevant + [groupedRows[k]];
        }
        assert groupedRows[..k + 1][..k] == groupedRows[..k];
      }
      assert groupedRows[..|groupedRows|] == groupedRows;
      r := SortDesc(relevant);
    }

    /** The next stored line, or null once all have been returned. */
    method ReadNextRow() returns (line: Option<Line>)
      requires Valid()
      modifies this`cursor
      ensures Valid()
      ensures old(cursor) < |contents| ==> line == Some(contents[old(cursor)]) && cursor == old(cursor) + 1
      ensures old(cursor) == |contents| ==> line == None && cursor == old(cursor)
    {
      if cursor < |contents| {
        line := Some(contents[cursor]);
        cursor := cursor + 1;
      } else {
        line := None;
      }
    }

    /** Rewinds: the next reads produce the same lines again. */
    method Close()
      modifies this`cursor
      ensures cursor == 0 && Valid()
    {
      cursor := 0;
    }
  }
}
