/** excel/ExcelSheetWriter.java: appends rows of typed fields to a sheet of a workbook
    opened for writing. Text longer than the engine's limit is split into several cells,
    preferably at a space. */
module ExcelSheetWriting {
  import opened Wrappers
  import opened Spreadsheet
  import ExcelSheetReading

  /** The longest text a cell of an Excel 2007 workbook may hold. */
  const MaxTextLength: nat := 32767

  /** A field handed to writeRow: null, a Number (as the double it converts to), a
      Boolean, or any other object, of which only its toString() text matters. */
  datatype Field = NullField | NumberField(number: Double) | BooleanField(flag: bool) | OtherField(text: string)

  /** A prepared cell: its cell type and value. */
  datatype CellValue = Blank | Numeric(number: Double) | BooleanValue(flag: bool) | Text(text: string)

  // ---------------------------------------------------------------------------
  // Splitting long text

  /** lastIndexOf(' '): the index of the last space, or -1. */
  function LastSpace(window: string): (k: int)
    ensures -1 <= k < |window|
    ensures k >= 0 ==> window[k] == ' ' && forall j :: k < j < |window| ==> window[j] != ' '
    ensures k == -1 ==> forall j :: 0 <= j < |window| ==> window[j] != ' '
  {
    if window == [] then -1
    else if window[|window| - 1] == ' ' then |window| - 1
    else LastSpace(window[..|window| - 1])
  }

  function Min(a: int, b: int): int {
    if a <= b then a else b
  }

  /** One turn of the splitting loop as written: the chunk emitted and the remaining text.
      The remaining text starts exactly where the chunk ends (the Math.min never
      changes the cut, since the cut is at most max and the text is longer). */
  function AsWrittenStep(s: string, max: nat): (r: (string, string))
    requires 0 < max < |s|
    ensures r.0 + r.1 == s && |r.0| <= max
  {
    var firstPart := s[..max];
    var found := LastSpace(firstPart);
    var pos := if found == -1 then max else found;
    var chunk := s[..pos];
    var cut := Min(pos, |s| - 1);
    (chunk, s[cut..])
  }

  /** The splitting loop as written, or None when it never ends: a turn that leaves the
      text as long as before leaves it unchanged, so every later turn repeats it. */
  function AsWrittenSplit(s: string, max: nat): Option<seq<string>>
    requires max > 0
    decreases |s|
  {
    if |s| <= max then Some([s])
    else
      var (chunk, rest) := AsWrittenStep(s, max);
      if |rest| >= |s| then None
      else
        match AsWrittenSplit(rest, max)
        case None => None
        case Some(chunks) => Some([chunk] + chunks)
  }

  /** The loop stalls exactly when the text starts with a space and the rest of the window
      has none; it then emits an empty chunk and keeps the text unchanged. */
  lemma AsWrittenStall(s: string, max: nat)
    requires 0 < max < |s|
    ensures var (chunk, rest) := AsWrittenStep(s, max);
      && (|rest| >= |s| <==> (s[0] == ' ' && forall j :: 0 < j < max ==> s[j] != ' '))
      && (|rest| >= |s| ==> chunk == [] && rest == s)
  {
    var firstPart := s[..max];
    var found := LastSpace(firstPart);
    if s[0] == ' ' && forall j :: 0 < j < max ==> s[j] != ' ' {
      assert firstPart[0] == ' ';
      assert found == 0;
    } else if found == 0 {
      assert firstPart[0] == ' ';
      assert forall j :: 0 < j < max ==> firstPart[j] == s[j];
    }
  }

  /** The cut position of the corrected loop: the last space in the window, unless there
      is none or it is the first character; then the full window. */
  function Cut(s: string, max: nat): (p: nat)
    requires 0 < max < |s|
    ensures 0 < p <= max
  {
    var found := LastSpace(s[..max]);
    if found <= 0 then max else found
  }

  /** The corrected splitting: chunks of at most max characters, cut at a space when the
      window has one after its first character. */
  function Chunks(s: string, max: nat): (r: seq<string>)
    requires max > 0
    ensures |r| >= 1
    decreases |s|
  {
    if |s| <= max then [s]
    else
      var p := Cut(s, max);
      [s[..p]] + Chunks(s[p..], max)
  }

  function Concat(parts: seq<string>): string {
    if parts == [] then [] else parts[0] + Concat(parts[1..])
  }

  /** Emitting the first chunk of an over-long remainder keeps the chunks of the whole
      text the emitted chunks followed by those of the remainder. */
  lemma SplitKeeps(text: string, emitted: seq<string>, s: string, max: nat)
    requires 0 < max < |s| && Chunks(text, max) == emitted + Chunks(s, max)
    ensures Chunks(text, max) == (emitted + [s[..Cut(s, max)]]) + Chunks(s[Cut(s, max)..], max)
  {
  }

  /** Splitting loses nothing and bounds every chunk: the chunks concatenate back to the
      text, each has at most max characters, none is empty unless the text is, and text
      within the limit is a single unchanged chunk. */
  lemma {:induction false} ChunksSpec(s: string, max: nat)
    requires max > 0
    ensures var r := Chunks(s, max);
      && Concat(r) == s
      && (forall i :: 0 <= i < |r| ==> |r[i]| <= max)
      && (s != [] ==> forall i :: 0 <= i < |r| ==> r[i] != [])
      && (|s| <= max ==> r == [s])
    decreases |s|
  {
    if |s| > max {
      var p := Cut(s, max);
      var rest := Chunks(s[p..], max);
      ChunksSpec(s[p..], max);
      var r := Chunks(s, max);
      assert r[1..] == rest;
      assert s == s[..p] + s[p..];
      assert forall i :: 1 <= i < |r| ==> r[i] == rest[i - 1];
    }
  }

  /** Where the first chunk of an over-long text ends: before the last space of the
      window, which starts the next chunk, or after max characters when the window has
      no space past its first character. */
  lemma FirstChunkCut(s: string, max: nat)
    requires 0 < max < |s|
    ensures var p := |Chunks(s, max)[0]|;
      && (p < max ==> s[p] == ' ' && forall j :: p < j < max ==> s[j] != ' ')
      && ((forall j :: 0 < j < max ==> s[j] != ' ') ==> p == max)
  {
    var window := s[..max];
    var found := LastSpace(window);
    assert forall j :: 0 <= j < max ==> window[j] == s[j];
    if forall j :: 0 < j < max ==> s[j] != ' ' {
      assert found <= 0;
    }
  }

  /** Whenever the loop as written ends, it produces the corrected chunks. */
  lemma {:induction false} AsWrittenAgrees(s: string, max: nat)
    requires max > 0 && AsWrittenSplit(s, max).Some?
    ensures AsWrittenSplit(s, max).value == Chunks(s, max)
    decreases |s|
  {
    if |s| > max {
      var (chunk, rest) := AsWrittenStep(s, max);
      AsWrittenAgrees(rest, max);
      AsWrittenStall(s, max);
      var found := LastSpace(s[..max]);
      assert found != 0;
    }
  }

  /** The stalling input: with max 3, "ab cdefg" is cut after "ab" and the rest " cdefg"
      has its only window space first, so the loop as written never ends; the corrected
      loop gives "ab", " cd", "efg". */
  lemma StallExample(s: string)
    requires s == "ab cdefg"
    ensures AsWrittenSplit(s, 3) == None
    ensures Chunks(s, 3) == ["ab", " cd", "efg"]
  {
    assert s[..3] == "ab ";
    assert LastSpace("ab ") == 2;
    assert s[..2] == "ab" && s[2..] == " cdefg";
    assert AsWrittenStep(s, 3) == ("ab", " cdefg");
    var rest := " cdefg";
    assert rest[..3] == " cd";
    assert LastSpace(" cd") == 0 by {
      assert " cd"[..2] == " c" && " c"[..1] == " ";
      assert LastSpace(" c") == LastSpace(" ");
    }
    assert AsWrittenStep(rest, 3) == ("", " cdefg");
    assert Cut(s, 3) == 2;
    assert Cut(rest, 3) == 3;
    assert rest[3..] == "efg";
    assert Chunks("efg", 3) == ["efg"];
  }

  /** Text without spaces, 200 characters longer than a limit of at least 200, becomes one
      cell of max characters and one of 200. */
  lemma LongWordSplit(s: string, max: nat)
    requires max >= 200 && |s| == max + 200 && forall i :: 0 <= i < |s| ==> s[i] == 'a'
    ensures Chunks(s, max) == [s[..max], s[max..]]
    ensures |Chunks(s, max)[0]| == max && |Chunks(s, max)[1]| == 200
  {
    assert LastSpace(s[..max]) == -1 by {
      assert forall j :: 0 <= j < max ==> s[..max][j] == 'a';
    }
  }

  // ---------------------------------------------------------------------------
  // Preparing the fields of a row

  function TextValues(chunks: seq<string>): (r: seq<CellValue>)
    ensures |r| == |chunks| && forall i :: 0 <= i < |chunks| ==> r[i] == Text(chunks[i])
  {
    seq(|chunks|, i requires 0 <= i < |chunks| => Text(chunks[i]))
  }

  lemma TextValuesSnoc(chunks: seq<string>, chunk: string)
    ensures TextValues(chunks + [chunk]) == TextValues(chunks) + [Text(chunk)]
  {
  }

  /** null is a BLANK cell, a number NUMERIC, a Boolean BOOLEAN, anything else STRING
      cells of its text, split when too long. */
  function Classify(field: Field, max: nat): seq<CellValue>
    requires max > 0
  {
    match field
    case NullField => [Blank]
    case NumberField(number) => [Numeric(number)]
    case BooleanField(flag) => [BooleanValue(flag)]
    case OtherField(text) => TextValues(Chunks(text, max))
  }

  /** The prepared cells of a row, field after field. */
  function Prepared(fields: seq<Field>, max: nat): seq<CellValue>
    requires max > 0
  {
    if fields == [] then []
    else Prepared(fields[..|fields| - 1], max) + Classify(fields[|fields| - 1], max)
  }

  /** A field that yields exactly one cell: anything but over-long text. */
  predicate FitsOneCell(field: Field, max: nat) {
    field.OtherField? ==> |field.text| <= max
  }

  /** The single cell of a field that fits in one. */
  function OneValue(field: Field): CellValue {
    match field
    case NullField => Blank
    case NumberField(number) => Numeric(number)
    case BooleanField(flag) => BooleanValue(flag)
    case OtherField(text) => Text(text)
  }

  /** When no text is too long, every field becomes exactly one cell, in order. */
  lemma {:induction false} PreparedOnePerField(fields: seq<Field>, max: nat)
    requires max > 0 && forall i :: 0 <= i < |fields| ==> FitsOneCell(fields[i], max)
    ensures Prepared(fields, max) == seq(|fields|, i requires 0 <= i < |fields| => OneValue(fields[i]))
    decreases |fields|
  {
    if fields != [] {
      var prefix := fields[..|fields| - 1];
      PreparedOnePerField(prefix, max);
      var last := fields[|fields| - 1];
      ClassifyOne(last, max);
      var ones := seq(|fields|, i requires 0 <= i < |fields| => OneValue(fields[i]));
      assert ones[..|prefix|] == seq(|prefix|, i requires 0 <= i < |prefix| => OneValue(prefix[i]));
      assert ones == ones[..|prefix|] + [OneValue(last)];
    }
  }

  /** A field that fits in one cell is classified as that one cell. */
  lemma ClassifyOne(field: Field, max: nat)
    requires max > 0 && FitsOneCell(field, max)
    ensures Classify(field, max) == [OneValue(field)]
  {
    if field.OtherField? {
      ChunksSpec(field.text, max);
    }
  }

  /** A text field always yields at least one cell, and its cells spell its text. */
  lemma TextFieldCells(text: string, max: nat)
    requires max > 0
    ensures var cells := Classify(OtherField(text), max);
      && |cells| >= 1
      && (forall i :: 0 <= i < |cells| ==> cells[i].Text? && |cells[i].text| <= max)
      && Concat(seq(|cells|, i requires 0 <= i < |cells| => cells[i].text)) == text
  {
    ChunksSpec(text, max);
    var cells := Classify(OtherField(text), max);
    assert seq(|cells|, i requires 0 <= i < |cells| => cells[i].text) == Chunks(text, max);
  }

  // ---------------------------------------------------------------------------
  // Cells as the engine stores them

  /** applyTo: what the engine holds after the cell type and value are set. A blank
      cell's string value is "". */
  function Apply(value: CellValue): CellContent {
    match value
    case Blank => OtherCell(Some(""))
    case Numeric(number) => NumericCell(number)
    case BooleanValue(flag) => BooleanCell(flag)
    case Text(text) => TextCell(Some(text))
  }

  /** Prepared value i goes to column i. */
  function RowCells(values: seq<CellValue>): (r: seq<Cell>)
    ensures |r| == |values| && forall i :: 0 <= i < |values| ==> r[i] == Cell(i, Apply(values[i]))
  {
    seq(|values|, i requires 0 <= i < |values| => Cell(i, Apply(values[i])))
  }

  /** What ExcelSheetReader gives back for a field that fits in one cell. */
  function Rendering(field: Field): Option<string> {
    match field
    case NullField => Some("")
    case NumberField(number) => Some(number.rendering)
    case BooleanField(flag) => Some(if flag then "true" else "false")
    case OtherField(text) => Some(text)
  }

  lemma {:induction false} DenseCellsDecode(values: seq<CellValue>)
    ensures ExcelSheetReading.DecodeCells(RowCells(values))
         == seq(|values|, i requires 0 <= i < |values| => ExcelSheetReading.Decode(Apply(values[i])))
    decreases |values|
  {
    if values != [] {
      var prefix := values[..|values| - 1];
      DenseCellsDecode(prefix);
      var cells := RowCells(values);
      assert cells[..|cells| - 1] == RowCells(prefix);
    }
  }

  /** Written and read back: a row whose texts fit in one cell each reads back, through
      ExcelSheetReader's decoding, as the fields' renderings in order. */
  lemma WrittenRowReadsBack(fields: seq<Field>, max: nat)
    requires max > 0 && forall i :: 0 <= i < |fields| ==> FitsOneCell(fields[i], max)
    ensures ExcelSheetReading.DecodeCells(RowCells(Prepared(fields, max)))
         == seq(|fields|, i requires 0 <= i < |fields| => Rendering(fields[i]))
  {
    var values := Prepared(fields, max);
    PreparedOnePerField(fields, max);
    DenseCellsDecode(values);
    var decoded := seq(|values|, i requires 0 <= i < |values| => ExcelSheetReading.Decode(Apply(values[i])));
    var rendered := seq(|fields|, i requires 0 <= i < |fields| => Rendering(fields[i]));
    forall i | 0 <= i < |fields| ensures decoded[i] == rendered[i] {
      assert values[i] == OneValue(fields[i]);
      OneValueRendering(fields[i]);
    }
    assert decoded == rendered;
  }

  lemma OneValueRendering(field: Field)
    ensures ExcelSheetReading.Decode(Apply(OneValue(field))) == Rendering(field)
  {
  }

  /** A long word written as one field reads back as two cells: max characters, then 200. */
  lemma LongWordReadsBack(s: string, max: nat)
    requires max >= 200 && |s| == max + 200 && forall i :: 0 <= i < |s| ==> s[i] == 'a'
    ensures ExcelSheetReading.DecodeCells(RowCells(Prepared([OtherField(s)], max)))
         == [Some(s[..max]), Some(s[max..])]
  {
    LongWordSplit(s, max);
    var fields := [OtherField(s)];
    assert fields[..0] == [];
    assert Prepared(fields, max) == [Text(s[..max]), Text(s[max..])];
    DenseCellsDecode(Prepared(fields, max));
  }

  // ---------------------------------------------------------------------------
  // The writer

  /** The writer's view of its workbook: the only thing it does with it is to ask it to
      close the writer. */
  class BookHandle {
    var closeRequests: seq<ExcelSheetWriter>

    constructor ()
      ensures closeRequests == []
    {
      closeRequests := [];
    }
  }

  class ExcelSheetWriter {
    const book: BookHandle
    const sheet: EngineSheet
    /** the number the next written row gets */
    var currentRow: nat

    /** The cursor starts after the rows the sheet already has. */
    constructor (book: BookHandle, sheet: EngineSheet)
      ensures this.book == book && this.sheet == sheet
      ensures currentRow == sheet.PhysicalNumberOfRows()
    {
      this.book := book;
      this.sheet := sheet;
      currentRow := sheet.PhysicalNumberOfRows();
    }

    /** The sheet's rows are numbered without gaps and the cursor is right after them:
        then every write appends. */
    ghost predicate Appending()
      reads this, sheet
    {
      Dense(sheet.rows) && currentRow == |sheet.rows|
    }

    /** The splitting loop of prepareFields for one text, with the corrected cut. */
    static method SplitText(text: string) returns (result: seq<CellValue>)
      ensures result == TextValues(Chunks(text, MaxTextLength))
    {
      result := [];
      ghost var emitted: seq<string> := [];
      var fieldValue := text;
      while |fieldValue| > MaxTextLength
        invariant Chunks(text, MaxTextLength) == emitted + Chunks(fieldValue, MaxTextLength)
        invariant result == TextValues(emitted)
        decreases |fieldValue|
      {
        var firstPart := fieldValue[..MaxTextLength];
        var pos := LastSpace(firstPart);
        if pos <= 0 {
          pos := MaxTextLength;
        }
        firstPart := fieldValue[..pos];
        SplitKeeps(text, emitted, fieldValue, MaxTextLength);
        TextValuesSnoc(emitted, firstPart);
        result := result + [Text(firstPart)];
        emitted := emitted + [firstPart];
        fieldValue := fieldValue[pos..];
      }
      TextValuesSnoc(emitted, fieldValue);
      result := result + [Text(fieldValue)];
      emitted := emitted + [fieldValue];
    }

    /** prepareFields: the cells for a row's fields, splitting over-long text. */
    static method PrepareFields(fields: seq<Field>) returns (result: seq<CellValue>)
      ensures result == Prepared(fields, MaxTextLength)
    {
      result := [];
      for i := 0 to |fields|
        invariant result == Prepared(fields[..i], MaxTextLength)
      {
        var field := fields[i];
        assert fields[..i + 1][..i] == fields[..i];
        match field {
          case NullField =>
            result := result + [Blank];
          case NumberField(number) =>
            result := result + [Numeric(number)];
          case BooleanField(flag) =>
            result := result + [BooleanValue(flag)];
          case OtherField(text) =>
            var chunks := SplitText(text);
            result := result + chunks;
        }
      }
      assert fields[..|fields|] == fields;
    }

    /** Creates the row at the cursor with prepared value i in column i. */
    method CreateRowWith(cellValues: seq<CellValue>)
      modifies this, sheet
      ensures sheet.rows == PutRow(old(sheet.rows), Row(old(currentRow), 0, RowCells(cellValues)))
      ensures currentRow == old(currentRow) + 1
    {
      var cells: seq<Cell> := [];
      for i := 0 to |cellValues|
        invariant |cells| == i
        invariant forall j :: 0 <= j < i ==> cells[j] == Cell(j, Apply(cellValues[j]))
      {
        cells := cells + [Cell(i, Apply(cellValues[i]))];
      }
      assert cells == RowCells(cellValues);
      sheet.CreateRow(Row(currentRow, 0, cells));
      currentRow := currentRow + 1;
    }

    /** Writes one row at the cursor and moves the cursor on by one; on a sheet written
        only by appending, the row is appended after all others. */
    method WriteRow(columns: seq<Field>)
      modifies this, sheet
      ensures sheet.rows
           == PutRow(old(sheet.rows), Row(old(currentRow), 0, RowCells(Prepared(columns, MaxTextLength))))
      ensures currentRow == old(currentRow) + 1
      ensures old(Appending()) ==>
        && Appending()
        && sheet.rows == old(sheet.rows) + [Row(old(currentRow), 0, RowCells(Prepared(columns, MaxTextLength)))]
    {
      var cellValues := PrepareFields(columns);
      CreateRowWith(cellValues);
      if old(Appending()) {
        PutRowAppends(old(sheet.rows), Row(old(currentRow), 0, RowCells(cellValues)));
      }
    }

    /** Writes the header row exactly like a data row (its cell style and the frozen
        first row are formatting only). */
    method WriteHeader(fields: seq<Field>)
      modifies this, sheet
      ensures sheet.rows
           == PutRow(old(sheet.rows), Row(old(currentRow), 0, RowCells(Prepared(fields, MaxTextLength))))
      ensures currentRow == old(currentRow) + 1
      ensures old(Appending()) ==>
        && Appending()
        && sheet.rows == old(sheet.rows) + [Row(old(currentRow), 0, RowCells(Prepared(fields, MaxTextLength)))]
    {
      var cellValues := PrepareFields(fields);
      CreateRowWith(cellValues);
      if old(Appending()) {
        PutRowAppends(old(sheet.rows), Row(old(currentRow), 0, RowCells(cellValues)));
      }
    }

    /** Closing only asks the book to close this writer. */
    method Close()
      modifies book
      ensures book.closeRequests == old(book.closeRequests) + [this]
    {
      book.closeRequests := book.closeRequests + [this];
    }

    /** Flushing does nothing: the streaming workbook cannot be flushed. */
    method Flush()
    {
    }
  }
}
