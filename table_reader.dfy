/** TableReader.java: reads a whole table file, choosing between the Excel and the CSV
    reader by the file's extension, and hands back one ReadonlySheet per table. */
module TableReading {
  import opened Wrappers
  import opened Strings
  import opened Spreadsheet
  import opened Values
  import opened ReadonlySheets
  import SimpleExcelReading
  import ExcelSheetReading
  import CsvSeparators

  /** One file as the reader sees it: its name, whether it exists, and its text lines
      (None when they cannot be read). */
  datatype File = File(name: string, fileExists: bool, lines: Option<seq<string>>)

  datatype FileType = Excel | Csv

  datatype TableError =
    | IOError
    | FormatError
    | IllegalArgument
      /** the Excel reader's unboxing of a missing group start */
    | NullPointer
      /** the CSV separator peek on an empty file */
    | IndexOutOfBounds

  /** The text after the last '.', or None when the name has no '.'. */
  function Extension(name: string): Option<string> {
    var pos := LastIndexOf(name, '.');
    if pos == -1 then None else Some(name[pos + 1..])
  }

  /** The extension is the '.'-free text after the last '.', and there is none exactly
      when the name has no '.'. */
  lemma ExtensionSpec(name: string)
    ensures var r := Extension(name);
      && (r.None? <==> '.' !in name)
      && (r.Some? ==>
            && |r.value| < |name|
            && name[|name| - |r.value| - 1] == '.'
            && name[|name| - |r.value|..] == r.value
            && '.' !in r.value)
  {
  }

  /** The file type a lower-cased extension names. */
  function TypeOf(lower: string): (r: Result<FileType, TableError>)
    ensures r == Ok(Csv) <==> lower == "csv"
    ensures r == Ok(Excel) <==> (lower == "xls" || lower == "xlsx")
    ensures r.Err? ==> r.error == IllegalArgument
  {
    if lower == "csv" then Ok(Csv)
    else if lower == "xls" || lower == "xlsx" then Ok(Excel)
    else Err(IllegalArgument)
  }

  /** The file type named by the lower-cased extension; a name without a '.' or with any
      other extension is refused. */
  function Classify(name: string): (r: Result<FileType, TableError>)
    ensures Extension(name).None? ==> r == Err(IllegalArgument)
    ensures Extension(name).Some? ==> r == TypeOf(ToLowerAscii(Extension(name).value))
  {
    match Extension(name)
    case None => Err(IllegalArgument)
    case Some(ext) => TypeOf(ToLowerAscii(ext))
  }

  /** Lower-casing a name lower-cases its extension. */
  lemma {:induction false} ExtensionOfLower(name: string)
    ensures Extension(ToLowerAscii(name)).Some? == Extension(name).Some?
    ensures Extension(name).Some? ==> Extension(ToLowerAscii(name)).value == ToLowerAscii(Extension(name).value)
  {
    var lower := ToLowerAscii(name);
    var pos := LastIndexOf(name, '.');
    LowerLastDot(name);
    assert LastIndexOf(lower, '.') == pos;
    if pos != -1 {
      LowerSuffix(name, pos + 1);
      assert Extension(lower) == Some(lower[pos + 1..]);
      assert Extension(name) == Some(name[pos + 1..]);
    }
  }

  /** The extension test ignores case. */
  lemma ClassifyIgnoresCase(name: string)
    ensures Classify(ToLowerAscii(name)) == Classify(name)
  {
    ExtensionOfLower(name);
    if Extension(name).Some? {
      LowerIdempotent(Extension(name).value);
    }
  }

  /** A name ending in ".<ext>" has exactly that extension. */
  lemma ExtensionOfSuffix(base: string, ext: string)
    requires '.' !in ext
    ensures Extension(base + "." + ext) == Some(ext)
  {
    var name := base + "." + ext;
    assert name[|base|] == '.';
    assert name[|base| + 1..] == ext;
  }

  /** "A.CSV" and "a.b.xlsx" are classified by their last extension, in any case. */
  lemma ClassifyExamples(upper: string, dotted: string)
    requires upper == "A.CSV" && dotted == "a.b.xlsx"
    ensures Classify(upper) == Ok(Csv) && Classify(dotted) == Ok(Excel)
  {
    UpperCsv(upper);
    DottedXlsx(dotted);
  }

  lemma UpperCsv(name: string)
    requires name == "A.CSV"
    ensures Classify(name) == Ok(Csv)
  {
    var ext := "CSV";
    assert name == "A" + "." + ext;
    ExtensionOfSuffix("A", ext);
    var lower := ToLowerAscii(ext);
    assert lower[0] == 'c' && lower[1] == 's' && lower[2] == 'v';
    assert lower == "csv";
  }

  lemma DottedXlsx(name: string)
    requires name == "a.b.xlsx"
    ensures Classify(name) == Ok(Excel)
  {
    var ext := "xlsx";
    assert name == "a.b" + "." + ext;
    ExtensionOfSuffix("a.b", ext);
    LowerLower(ext);
  }

  /** The records of a CSV file, each field a text value. */
  function CsvRecords(rows: seq<seq<string>>): (r: seq<Record>)
    ensures |r| == |rows| && forall i :: 0 <= i < |rows| ==> r[i] == TextRecord(rows[i])
  {
    seq(|rows|, i requires 0 <= i < |rows| => TextRecord(rows[i]))
  }

  /** The CSV wrapper sheet: a sheet with the given name holding the CSV rows in order. */
  method NewCsvSheet(sheetName: string, rows: seq<seq<string>>) returns (sheet: ReadonlySheet)
    ensures fresh(sheet)
    ensures sheet.sheetName == sheetName && sheet.contents == CsvRecords(rows) && sheet.groupedRows == []
  {
    sheet := new ReadonlySheet(sheetName);
    for i := 0 to |rows|
      invariant sheet.sheetName == sheetName && sheet.groupedRows == []
      invariant sheet.contents == CsvRecords(rows[..i])
    {
      sheet.AddRow(TextRecord(rows[i]));
      assert rows[..i + 1] == rows[..i] + [rows[i]];
    }
    assert rows[..|rows|] == rows;
  }

  class TableReader {
    const file: File
    const fileType: FileType
    /** the caller's CSV delimiter; None for the one-argument constructor */
    const csvDelimiter: Option<char>

    constructor (file: File, fileType: FileType, csvDelimiter: Option<char>)
      ensures this.file == file && this.fileType == fileType && this.csvDelimiter == csvDelimiter
    {
      this.file := file;
      this.fileType := fileType;
      this.csvDelimiter := csvDelimiter;
    }

    /** Both constructors: a missing file fails before its name is looked at; then the
        extension decides the type or the file is refused. */
    static method Open(file: File, csvDelimiter: Option<char>) returns (r: Result<TableReader, TableError>)
      ensures !file.fileExists ==> r == Err(IOError)
      ensures file.fileExists && Classify(file.name).Err? ==> r == Err(IllegalArgument)
      ensures file.fileExists && Classify(file.name).Ok? ==>
        && r.Ok? && fresh(r.value) && r.value.file == file
        && r.value.fileType == Classify(file.name).value && r.value.csvDelimiter == csvDelimiter
    {
      if !file.fileExists {
        return Err(IOError);
      }
      var t := Classify(file.name);
      if t.Err? {
        return Err(t.error);
      }
      var reader := new TableReader(file, t.value, csvDelimiter);
      return Ok(reader);
    }

    /** read(): an Excel file gives one sheet per workbook sheet, read by the simple Excel
        reader keeping empty rows; `workbook` is what the engine parses the file into. A
        CSV file gives a single sheet named after the file whose rows are the CSV records
        in order; `parse` stands for the CSV library reading the file with a configuration
        (None when reading fails). */
    method Read(workbook: Option<seq<EngineSheet>>, parse: CsvSeparators.Config -> Option<seq<seq<string>>>)
      returns (r: Result<seq<ReadonlySheet>, TableError>)
      ensures fileType == Excel ==>
        && (r.Ok? <==>
              && file.fileExists && workbook.Some?
              && forall i :: 0 <= i < |workbook.value| ==>
                   SimpleExcelReading.SimpleGroups(ExcelSheetReading.Levels(workbook.value[i].rows)).Some?)
        && (!file.fileExists ==> r == Err(IOError))
        && (file.fileExists && workbook.None? ==> r == Err(FormatError))
        && (file.fileExists && workbook.Some? && r.Err? ==> r == Err(NullPointer))
        && (r.Ok? ==>
              && |r.value| == |workbook.value|
              && forall i :: 0 <= i < |r.value| ==>
                   && fresh(r.value[i])
                   && r.value[i].sheetName == workbook.value[i].name
                   && r.value[i].contents == SimpleExcelReading.SimpleKept(workbook.value[i].rows, false)
                   && r.value[i].groupedRows
                      == SimpleExcelReading.SimpleGroups(ExcelSheetReading.Levels(workbook.value[i].rows)).value)
      ensures fileType == Csv ==>
        var config := CsvSeparators.ReaderConfig(file.fileExists, file.lines, csvDelimiter);
        && (r.Ok? <==> config.Ok? && parse(config.value).Some?)
        && (config == Err(CsvSeparators.IndexOutOfBounds) ==> r == Err(IndexOutOfBounds))
        && (config == Err(CsvSeparators.FileNotFound) ==> r == Err(IOError))
        && (config.Ok? && parse(config.value).None? ==> r == Err(IOError))
        && (r.Ok? ==>
              && |r.value| == 1 && fresh(r.value[0])
              && r.value[0].sheetName == file.name
              && r.value[0].contents == CsvRecords(parse(config.value).value)
              && r.value[0].groupedRows == [])
    {
      if fileType == Excel {
        var excelReader := SimpleExcelReading.SimpleExcelReader.Open(file.fileExists, workbook, false);
        if excelReader.Err? {
          return Err(if excelReader.error == SimpleExcelReading.IOError then IOError else FormatError);
        }
        var sheets := excelReader.value.ReadAll();
        if sheets.Err? {
          return Err(if sheets.error == SimpleExcelReading.NullGroupStart then NullPointer else IllegalArgument);
        }
        return Ok(sheets.value);
      } else {
        var config := CsvSeparators.ReaderConfig(file.fileExists, file.lines, csvDelimiter);
        if config.Err? {
          return Err(if config.error == CsvSeparators.FileNotFound then IOError else IndexOutOfBounds);
        }
        var content := parse(config.value);
        if content.None? {
          return Err(IOError);
        }
        var sheet := NewCsvSheet(file.name, content.value);
        return Ok([sheet]);
      }
    }
  }
}
