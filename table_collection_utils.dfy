/** TableCollectionUtils.java: opens a table collection for a file, choosing by the
    file name's suffix, which is compared case-sensitively. */
module TableCollections {
  import opened Wrappers
  import opened Strings
  import opened Spreadsheet
  import opened TableReading
  import ExcelBooks

  /** The collection opened: the CSV file set for one file (its behaviour is not part of
      this model), or a workbook. */
  datatype Collection = CsvFileSet(file: File) | Workbook(book: ExcelBooks.ExcelBook)

  /** The suffix decision: ".csv" selects CSV, ".xlsx" or ".xls" selects Excel, case
      sensitively; any other name is refused. */
  function SuffixType(name: string): (r: Option<FileType>)
    ensures r == Some(Csv) <==> EndsWith(name, ".csv")
    ensures r == Some(Excel) <==> !EndsWith(name, ".csv") && (EndsWith(name, ".xlsx") || EndsWith(name, ".xls"))
  {
    if EndsWith(name, ".csv") then Some(Csv)
    else if EndsWith(name, ".xlsx") || EndsWith(name, ".xls") then Some(Excel)
    else None
  }

  /** openExcelOrCsvCollection: every failure, an unsupported suffix included, is an I/O
      error; a workbook that cannot be parsed is reported as an I/O error too. `created`
      and `parsed` are what creating and parsing the file yield, as for ExcelBook.Open. */
  method OpenExcelOrCsvCollection(file: File, created: bool, parsed: Option<seq<EngineSheet>>)
    returns (r: Result<Collection, TableError>)
    ensures r.Err? ==> r.error == IOError
    ensures SuffixType(file.name).None? ==> r.Err?
    ensures SuffixType(file.name) == Some(Csv) ==> r == Ok(CsvFileSet(file))
    ensures SuffixType(file.name) == Some(Excel) ==>
      && (r.Ok? <==> if file.fileExists then parsed.Some? else created)
      && (r.Ok? ==>
            && r.value.Workbook? && fresh(r.value.book) && !r.value.book.ignoreEmptyRows
            && (file.fileExists ==> r.value.book.mode == ExcelBooks.ReadOnly && r.value.book.sheets == parsed.value)
            && (!file.fileExists ==> r.value.book.mode == ExcelBooks.WriteNewWb && r.value.book.sheets == []))
  {
    var fileName := file.name;
    if EndsWith(fileName, ".csv") {
      return Ok(CsvFileSet(file));
    } else if EndsWith(fileName, ".xlsx") || EndsWith(fileName, ".xls") {
      var book := ExcelBooks.ExcelBook.Open(file.fileExists, created, parsed, false);
      if book.Err? {
        return Err(IOError);
      }
      return Ok(Workbook(book.value));
    } else {
      return Err(IOError);
    }
  }

  /** A ".csv" suffix is a "csv" extension. */
  lemma SuffixGivesExtension(name: string, ext: string)
    requires |ext| > 0 && '.' !in ext && EndsWith(name, "." + ext)
    ensures Extension(name) == Some(ext)
  {
    var base := name[..|name| - |ext| - 1];
    assert name == base + "." + ext;
    ExtensionOfSuffix(base, ext);
  }

  /** Whatever the suffix test accepts, the table reader classifies the same way. */
  lemma SuffixAgreesWithTableReader(name: string)
    requires SuffixType(name).Some?
    ensures Classify(name) == Ok(SuffixType(name).value)
  {
    if EndsWith(name, ".csv") {
      SuffixClassifies(name, "csv");
    } else if EndsWith(name, ".xlsx") {
      SuffixClassifies(name, "xlsx");
    } else {
      SuffixClassifies(name, "xls");
    }
  }

  lemma SuffixClassifies(name: string, ext: string)
    requires ext == "csv" || ext == "xlsx" || ext == "xls"
    requires EndsWith(name, "." + ext)
    ensures Classify(name) == TypeOf(ext)
  {
    SuffixGivesExtension(name, ext);
    LowerLower(ext);
  }

  /** The converse fails: "A.CSV" is a CSV table for the table reader but is refused
      here. */
  lemma UpperCaseSuffixRefused(name: string)
    requires name == "A.CSV"
    ensures SuffixType(name).None? && Classify(name) == Ok(Csv)
  {
    ClassifyExamples(name, "a.b.xlsx");
    assert name[|name| - 4..] == ".CSV";
    assert name[|name| - 4..] != ".csv" by { assert name[|name| - 3] == 'C'; }
    assert name[|name| - 5..] != ".xlsx";
    assert name[|name| - 4..] != ".xls" by { assert name[|name| - 3] == 'C'; }
  }
}
