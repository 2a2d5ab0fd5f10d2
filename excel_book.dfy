/** excel/ExcelBook.java: a workbook opened either read-only (the file existed) or for
    writing a new workbook (the file was created). It hands out sheet readers and, when
    writable, creates sheets with writers for them. */
module ExcelBooks {
  import opened Wrappers
  import opened Decimal
  import opened Spreadsheet
  import opened ExcelSheetReading
  import opened ExcelSheetWriting

  /** The mode is fixed when the book is opened. */
  datatype Mode = ReadOnly | WriteNewWb

  datatype BookError = IOError | FormatError | Unsupported | IllegalArgument

  /** createSheet retries with ids 0 .. Byte.MAX_VALUE - 1. */
  const IdLimit: nat := 127

  function Names(sheets: seq<EngineSheet>): (r: seq<string>)
    ensures |r| == |sheets| && forall i :: 0 <= i < |sheets| ==> r[i] == sheets[i].name
  {
    seq(|sheets|, i requires 0 <= i < |sheets| => sheets[i].name)
  }

  /** The fallback name for retry `id`: the sanitiser applied to the safe name followed by
      the id in decimal. */
  function Candidate(safe: string -> string, safeName: string, id: nat): string {
    safe(safeName + NatToString(id))
  }

  /** The first retry id from `from` on whose candidate name the workbook accepts;
      `taken(names, n)` stands for createSheet refusing n given the existing names. */
  function FirstFreeId(names: seq<string>, safe: string -> string, taken: (seq<string>, string) -> bool,
                       safeName: string, from: nat): (r: Option<nat>)
    ensures r.Some? ==>
      && from <= r.value < IdLimit
      && !taken(names, Candidate(safe, safeName, r.value))
      && forall j :: from <= j < r.value ==> taken(names, Candidate(safe, safeName, j))
    ensures r.None? ==> forall j :: from <= j < IdLimit ==> taken(names, Candidate(safe, safeName, j))
    decreases IdLimit - from
  {
    if from >= IdLimit then None
    else if !taken(names, Candidate(safe, safeName, from)) then Some(from)
    else FirstFreeId(names, safe, taken, safeName, from + 1)
  }

  /** The first free id is the one whose predecessors are all refused. */
  lemma FirstFreeIdAt(names: seq<string>, safe: string -> string, taken: (seq<string>, string) -> bool,
                      safeName: string, k: nat)
    requires k < IdLimit && !taken(names, Candidate(safe, safeName, k))
    requires forall j :: 0 <= j < k ==> taken(names, Candidate(safe, safeName, j))
    ensures FirstFreeId(names, safe, taken, safeName, 0) == Some(k)
  {
  }

  class ExcelBook {
    const mode: Mode
    const ignoreEmptyRows: bool
    /** the receiver of the writers' close requests */
    const handle: BookHandle
    /** the workbook's sheets, in workbook order */
    var sheets: seq<EngineSheet>

    constructor (mode: Mode, sheets: seq<EngineSheet>, ignoreEmptyRows: bool)
      ensures this.mode == mode && this.sheets == sheets && this.ignoreEmptyRows == ignoreEmptyRows
      ensures fresh(handle)
    {
      this.mode := mode;
      this.sheets := sheets;
      this.ignoreEmptyRows := ignoreEmptyRows;
      handle := new BookHandle();
    }

    /** Opening: a missing file is created and gives an empty writable workbook; if it
        cannot be created, an I/O error. An existing file is opened read-only, or fails
        with a format error when the engine cannot parse it (parsed == None). */
    static method Open(fileExists: bool, created: bool, parsed: Option<seq<EngineSheet>>, ignoreEmptyRows: bool)
      returns (r: Result<ExcelBook, BookError>)
      ensures !fileExists && !created ==> r == Err(IOError)
      ensures !fileExists && created ==> r.Ok? && r.value.mode == WriteNewWb && r.value.sheets == []
      ensures fileExists && parsed.None? ==> r == Err(FormatError)
      ensures fileExists && parsed.Some? ==> r.Ok? && r.value.mode == ReadOnly && r.value.sheets == parsed.value
      ensures r.Ok? ==> fresh(r.value) && r.value.ignoreEmptyRows == ignoreEmptyRows
    {
      if !fileExists {
        if created {
          var book := new ExcelBook(WriteNewWb, [], ignoreEmptyRows);
          return Ok(book);
        }
        return Err(IOError);
      }
      if parsed.None? {
        return Err(FormatError);
      }
      var book := new ExcelBook(ReadOnly, parsed.value, ignoreEmptyRows);
      return Ok(book);
    }

    /** A reader per sheet, in workbook order. */
    method GetAllSheetReaders() returns (result: seq<ExcelSheetReader>)
      ensures |result| == |sheets|
      ensures forall i :: 0 <= i < |sheets| ==>
        && fresh(result[i])
        && result[i].sheet == sheets[i]
        && result[i].ignoreEmptyRows == ignoreEmptyRows
        && result[i].contents == KeptLines(sheets[i].rows, ignoreEmptyRows, RowZeroWidth(sheets[i].rows))
        && result[i].groupedRows == ExtractGroups(Levels(sheets[i].rows), |result[i].contents|)
        && result[i].cursor == 0 && result[i].Valid()
    {
      result := [];
      for i := 0 to |sheets|
        invariant |result| == i
        invariant forall j :: 0 <= j < i ==>
          && fresh(result[j])
          && result[j].sheet == sheets[j]
          && result[j].ignoreEmptyRows == ignoreEmptyRows
          && result[j].contents == KeptLines(sheets[j].rows, ignoreEmptyRows, RowZeroWidth(sheets[j].rows))
          && result[j].groupedRows == ExtractGroups(Levels(sheets[j].rows), |result[j].contents|)
          && result[j].cursor == 0 && result[j].Valid()
      {
        var reader := new ExcelSheetReader(sheets[i], ignoreEmptyRows);
        result := result + [reader];
      }
    }

    /** getReader(int): a reader for the sheet at the index; an index out of range fails. */
    method GetReaderAt(index: int) returns (r: Result<ExcelSheetReader, BookError>)
      ensures !(0 <= index < |sheets|) ==> r == Err(IllegalArgument)
      ensures 0 <= index < |sheets| ==>
        && r.Ok? && fresh(r.value) && r.value.sheet == sheets[index]
        && r.value.ignoreEmptyRows == ignoreEmptyRows
        && r.value.contents == KeptLines(sheets[index].rows, ignoreEmptyRows, RowZeroWidth(sheets[index].rows))
        && r.value.groupedRows == ExtractGroups(Levels(sheets[index].rows), |r.value.contents|)
        && r.value.cursor == 0 && r.value.Valid()
    {
      if !(0 <= index < |sheets|) {
        return Err(IllegalArgument);
      }
      var reader := new ExcelSheetReader(sheets[index], ignoreEmptyRows);
      return Ok(reader);
    }

    /** The set of the current sheet names. */
    method GetTableNames() returns (result: set<string>)
      ensures forall n :: n in result <==> n in Names(sheets)
    {
      result := {};
      for i := 0 to |sheets|
        invariant forall n :: n in result <==> n in Names(sheets)[..i]
      {
        result := result + {sheets[i].name};
        assert Names(sheets)[..i + 1] == Names(sheets)[..i] + [sheets[i].name];
      }
      assert Names(sheets)[..|sheets|] == Names(sheets);
    }

    /** getReader(String): a reader for the first sheet with exactly this name, or null. */
    method GetReader(name: string) returns (result: Option<ExcelSheetReader>)
      ensures result.Some? <==> name in Names(sheets)
      ensures result.Some? ==>
        exists i :: (0 <= i < |sheets| && sheets[i].name == name
          && (forall j :: 0 <= j < i ==> sheets[j].name != name)
          && result.value.sheet == sheets[i] && fresh(result.value)
          && result.value.ignoreEmptyRows == ignoreEmptyRows
          && result.value.contents == KeptLines(sheets[i].rows, ignoreEmptyRows, RowZeroWidth(sheets[i].rows))
          && result.value.groupedRows == ExtractGroups(Levels(sheets[i].rows), |result.value.contents|)
          && result.value.cursor == 0 && result.value.Valid())
    {
      result := None;
      var i := 0;
      while i < |sheets|
        invariant 0 <= i <= |sheets|
        invariant forall j :: 0 <= j < i ==> sheets[j].name != name
      {
        if sheets[i].name == name {
          var reader := new ExcelSheetReader(sheets[i], ignoreEmptyRows);
          return Some(reader);
        }
        i := i + 1;
      }
    }

    /** getWriter: refused when read-only. Otherwise a new empty sheet named
        safe(name) is appended; if the workbook refuses that name, the candidates for
        ids 0, 1, ... are tried in order and the first accepted one is created and moved
        to the front; if none is accepted, an I/O error and no new sheet. */
    method GetWriter(name: string, safe: string -> string, taken: (seq<string>, string) -> bool)
      returns (r: Result<ExcelSheetWriter, BookError>)
      modifies this`sheets
      ensures mode == ReadOnly ==> r == Err(Unsupported) && sheets == old(sheets)
      ensures mode == WriteNewWb && !taken(Names(old(sheets)), safe(name)) ==>
        && r.Ok? && fresh(r.value) && fresh(r.value.sheet)
        && r.value.sheet.name == safe(name) && r.value.sheet.rows == []
        && sheets == old(sheets) + [r.value.sheet]
      ensures mode == WriteNewWb && taken(Names(old(sheets)), safe(name)) ==>
        var id := FirstFreeId(Names(old(sheets)), safe, taken, safe(name), 0);
        && (id.None? ==> r == Err(IOError) && sheets == old(sheets))
        && (id.Some? ==>
              && r.Ok? && fresh(r.value) && fresh(r.value.sheet)
              && r.value.sheet.name == Candidate(safe, safe(name), id.value) && r.value.sheet.rows == []
              && sheets == [r.value.sheet] + old(sheets))
      ensures r.Ok? ==> r.value.book == handle && r.value.currentRow == 0
    {
      if mode == ReadOnly {
        return Err(Unsupported);
      }
      var safeName := safe(name);
      var names := Names(sheets);
      var sheet: EngineSheet;
      if !taken(names, safeName) {
        sheet := new EngineSheet(safeName, []);
        sheets := sheets + [sheet];
      } else {
        var created := CreateFallback(names, safe, taken, safeName);
        if created.None? {
          return Err(IOError);
        }
        sheet := created.value;
      }
      var writer := new ExcelSheetWriter(handle, sheet);
      return Ok(writer);
    }

    /** The retry loop of getWriter: tries the candidates for ids 0 .. IdLimit - 1 in
        order and creates the first one the workbook accepts, at the front. */
    method CreateFallback(names: seq<string>, safe: string -> string, taken: (seq<string>, string) -> bool,
                          safeName: string)
      returns (sheet: Option<EngineSheet>)
      modifies this`sheets
      ensures var id := FirstFreeId(names, safe, taken, safeName, 0);
        && (id.None? ==> sheet.None? && sheets == old(sheets))
        && (id.Some? ==>
              && sheet.Some? && fresh(sheet.value) && sheet.value.rows == []
              && sheet.value.name == Candidate(safe, safeName, id.value)
              && sheets == [sheet.value] + old(sheets))
    {
      var id: nat := 0;
      while id < IdLimit
        invariant id <= IdLimit && sheets == old(sheets)
        invariant forall j :: 0 <= j < id ==> taken(names, Candidate(safe, safeName, j))
      {
        var tmpName := Candidate(safe, safeName, id);
        if !taken(names, tmpName) {
          FirstFreeIdAt(names, safe, taken, safeName, id);
          var created := new EngineSheet(tmpName, []);
          sheets := [created] + sheets;
          return Some(created);
        }
        id := id + 1;
      }
      return None;
    }
  }
}
