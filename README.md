# KernelHaven IOUtils table layer in Dafny

This project models the table layer of KernelHaven's IOUtils plug-in: the code that reads
and writes tables in Excel workbooks and CSV files.

- **Excel reading.** `ExcelSheetReader` reads one sheet into lines of strings. It fills
  missing cells with "", pads every line to the width of row 0 and can drop empty rows. It
  also recovers the sheet's row groups from the rows' outline levels, using a stack of
  pending group starts. `SimpleExcelReader` is the older reader. It produces typed values,
  and its group tracking pushes or pops only one start per level change.
- **Excel writing.** `ExcelSheetWriter` appends rows to a sheet. Text longer than the
  engine's cell limit of 32767 characters is split over several cells, preferably at a
  space.
- **Workbooks.** `ExcelBook` opens a workbook read-only or for writing. It hands out
  readers, lists the sheet names and creates sheets for writers. When a name is refused,
  it retries with numbered names.
- **Containers.** `Group`, `ReadonlySheet` and `Sheet` are the values and append-only
  containers the readers fill.
- **File dispatch.** `TableReader` and `TableCollectionUtils` pick the Excel or the CSV
  path by the file name's extension.
- **CSV separator.** `CSVUtils` and the `SimpleCSVReader` constructors decide the CSV
  separator and the lines to skip from a leading "sep" line.

The spreadsheet engine is the module `Spreadsheet`. It keeps only what the table layer
observes:

- a sheet is its name and its physical rows in row-number order;
- a row has its outline level and its cells;
- a cell has a column index and typed content;
- `createRow` replaces or inserts a row by number.

Files are values:

- whether they exist;
- whether they can be created;
- what the engine parses them into;
- their text lines.

Modules, one per source file, plus shared helpers:

| module | file | models |
|---|---|---|
| `Wrappers`, `Decimal`, `Strings` | wrappers.dfy, decimal.dfy, strings.dfy | Option/Result, decimal rendering, the string operations used |
| `Spreadsheet` | spreadsheet.dfy | the engine's rows, cells and sheets |
| `Groups` | groups.dfy | `Group`, and the filter-and-sort of `getRowGroups` |
| `Values` | values.dfy | the typed values of a `ReadonlySheet` row |
| `ExcelSheetReading` | excel_sheet_reader.dfy | `ExcelSheetReader` |
| `SimpleExcelReading` | simple_excel_reader.dfy | `SimpleExcelReader` |
| `ExcelSheetWriting` | excel_sheet_writer.dfy | `ExcelSheetWriter` |
| `ExcelBooks` | excel_book.dfy | `ExcelBook` |
| `ReadonlySheets`, `Sheets` | readonly_sheet.dfy, sheet.dfy | `ReadonlySheet`, `Sheet` |
| `TableReading` | table_reader.dfy | `TableReader` |
| `TableCollections` | table_collection_utils.dfy | `TableCollectionUtils` |
| `CsvSeparators` | csv.dfy | `CSVUtils.determineSeparator` and the `SimpleCSVReader` constructors |

Imperative code is modelled as imperative Dafny:

- the row loop of `read()`;
- the deque pushes and pops;
- the cell loops;
- the writer's row cursor;
- the split loop;
- `getWriter`'s retry loop;
- the appends to the containers.

Each such method is proved against a specification function on values, and the
properties are proved about those functions.

## Model

| member | source | states |
|---|---|---|
| ExcelSheetReading.ExcelSheetReader.constructor | src/net/ssehub/kernel_haven/io/excel/ExcelSheetReader.java:43-53 | Holds three things. The lines are the kept rows of the sheet, decoded and padded to row 0's width. The groups are the ones the outline levels describe, trailing ones clamped to the last kept line. The row cursor starts at the first line. |
| ExcelSheetReading.ExcelSheetReader.Read | src/net/ssehub/kernel_haven/io/excel/ExcelSheetReader.java:55-134 | The row loop with its deque and counters produces exactly the kept lines and the extracted groups. |
| ExcelSheetReading.ExcelSheetReader.ReadCells | src/net/ssehub/kernel_haven/io/excel/ExcelSheetReader.java:84-115 | The cell loop with its gap filling yields the row's decoded line. The row counts as empty exactly when every cell decodes to null. |
| ExcelSheetReading.DecodeCellsPlacement | src/net/ssehub/kernel_haven/io/excel/ExcelSheetReader.java:89-114 | For cells in increasing column order: each value lands at its column index, every other position holds "", and the line ends at the last cell's column. |
| ExcelSheetReading.ExcelSheetReader.ChangeLevel | src/net/ssehub/kernel_haven/io/excel/ExcelSheetReader.java:70-82 | The push and pop loops perform one step of the group pass. |
| ExcelSheetReading.StepSpec | src/net/ssehub/kernel_haven/io/excel/ExcelSheetReader.java:70-81 | A rise by d pushes d copies of previousRow+1 above the old stack and closes nothing. A drop by d closes the top d starts as groups ending at previousRow, innermost first. Afterwards the depth equals the row's level. |
| ExcelSheetReading.ExcelSheetReader.PadRow | src/net/ssehub/kernel_haven/io/excel/ExcelSheetReader.java:117-121 | The padding loop yields the line padded to the column count. |
| ExcelSheetReading.PadToSpec | src/net/ssehub/kernel_haven/io/excel/ExcelSheetReader.java:119-121 | Padding keeps the line as a prefix and adds only "" up to the column count. A longer line is left as it is. |
| ExcelSheetReading.KeptLinesSpec | src/net/ssehub/kernel_haven/io/excel/ExcelSheetReader.java:117-123 | Without ignoreEmptyRows, every row gives its padded line in order. With it, exactly the all-null rows are dropped: the lines are the padded lines of the other rows, in sheet order, one for each strictly increasing position in `NonEmptyIndices`. |
| ExcelSheetReading.ExcelSheetReader.CloseOpenGroups | src/net/ssehub/kernel_haven/io/excel/ExcelSheetReader.java:127-133 | The groups still open are closed innermost first. Each ends at min(previousRow, number of kept lines - 1). |
| ExcelSheetReading.ScanInvariant | src/net/ssehub/kernel_haven/io/excel/ExcelSheetReader.java:62-125 | Holds after every row. The deque holds one start per open level, each within the rows seen and non-increasing towards the bottom. Closed groups are well formed and nested or disjoint. Each pending start lies outside, or at or before, every closed group. |
| ExcelSheetReading.ExtractGroupsSound | src/net/ssehub/kernel_haven/io/excel/ExcelSheetReader.java:55-134 | When no row is dropped, every group has 0 <= start <= end < number of rows, and any two groups are nested or disjoint. |
| ExcelSheetReading.ClosedGroupsSound | src/net/ssehub/kernel_haven/io/excel/ExcelSheetReader.java:76-81 | Groups closed during the pass are well formed, lie within the rows and are nested or disjoint, whatever rows are dropped. |
| ExcelSheetReading.FlatLevelsNoGroups | src/net/ssehub/kernel_haven/io/excel/ExcelSheetReader.java:70 | A sheet without outline levels has no groups. |
| ExcelSheetReading.SiblingGroups | src/net/ssehub/kernel_haven/io/excel/ExcelSheetReader.java:70-133 | Levels 0,1,1,0,1,1 give the groups [1;2] and [4;5]. |
| ExcelSheetReading.NestedGroups | src/net/ssehub/kernel_haven/io/excel/ExcelSheetReader.java:70-164 | Levels 0,2,2,1,1,1 give [1;2] and [1;5]. Row 1 lies in both, innermost first; row 3 lies only in [1;5]. |
| ExcelSheetReading.TrailingGroupInverted | src/net/ssehub/kernel_haven/io/excel/ExcelSheetReader.java:127-131 | Levels 0,1 with the second row dropped as empty clamp the trailing group to [1;0], which is not well formed. |
| ExcelSheetReading.ExcelSheetReader.GetRowGroups | src/net/ssehub/kernel_haven/io/excel/ExcelSheetReader.java:152-164 | The filter loop and sort yield the groups containing the row, by descending start. |
| Groups.RowGroupsSpec | src/net/ssehub/kernel_haven/io/excel/ExcelSheetReader.java:152-164 | The result holds exactly the groups containing the row, as a permutation of the filtered list, with as many copies of each as the list holds. Starts are descending, and groups with equal starts keep their original order. |
| Groups.SortDescStable | src/net/ssehub/kernel_haven/io/excel/ExcelSheetReader.java:161 | The descending sort by start is stable. |
| Groups.Containing | src/net/ssehub/kernel_haven/io/excel/ReadonlySheet.java:57-66 | A group is in the result iff it is one of the groups and contains the row. Copies and order are stated by ContainingCounts and ContainingOrder. |
| Groups.ContainingCounts | src/net/ssehub/kernel_haven/io/excel/ReadonlySheet.java:57-66 | The filter keeps every copy of a group containing the row and no copy of any other group. |
| ExcelSheetReading.ExcelSheetReader.FillGap | src/net/ssehub/kernel_haven/io/excel/ExcelSheetReader.java:90-92 | Pads the line with empty strings up to the cell's column, keeping what it held. |
| ExcelSheetReading.ExcelSheetReader.ReadNextRow | src/net/ssehub/kernel_haven/io/excel/ExcelSheetReader.java:172-181 | Returns the line at the cursor and advances it, or null at the end without moving. |
| ExcelSheetReading.ExcelSheetReader.Close | src/net/ssehub/kernel_haven/io/excel/ExcelSheetReader.java:166-170 | Resets the cursor to the first line. |
| Groups.Group.ToString | src/net/ssehub/kernel_haven/io/excel/Group.java:54-57 | The rendering is bracketed: "[" ... "]". |
| Groups.ParseToString | src/net/ssehub/kernel_haven/io/excel/Group.java:54-57 | "[start;end]" reads back to the same group, so the rendering loses nothing. |
| ReadonlySheets.ReadonlySheet.constructor | src/net/ssehub/kernel_haven/io/excel/ReadonlySheet.java:23-25 | A named sheet without rows or groups. |
| ReadonlySheets.ReadonlySheet.AddRow | src/net/ssehub/kernel_haven/io/excel/ReadonlySheet.java:31-33 | The row is appended: the count grows by one, the new row is read at the old count, and earlier rows read as before. |
| ReadonlySheets.ReadonlySheet.AddRowGrouping | src/net/ssehub/kernel_haven/io/excel/ReadonlySheet.java:40-42 | Appends Group(start, end). |
| ReadonlySheets.ReadonlySheet.GetRowGroups | src/net/ssehub/kernel_haven/io/excel/ReadonlySheet.java:57-66 | The loop yields the groups containing the row, in insertion order. |
| ReadonlySheets.ContainingOrder | src/net/ssehub/kernel_haven/io/excel/ReadonlySheet.java:58-63 | The filter result is the list read at strictly increasing positions, which are exactly the positions of the groups containing the row: every copy is kept, in list order. |
| ReadonlySheets.ReadonlySheet.GetRow | src/net/ssehub/kernel_haven/io/excel/ReadonlySheet.java:81-83 | A row exists exactly for the indexes 0 .. count-1. |
| Sheets.Sheet.constructor | src/net/ssehub/kernel_haven/io/excel/Sheet.java:23-25 | A named sheet without rows or groups. |
| Sheets.Sheet.AddRow | src/net/ssehub/kernel_haven/io/excel/Sheet.java:31-33 | Appends the row. |
| Sheets.Sheet.AddRowGrouping | src/net/ssehub/kernel_haven/io/excel/Sheet.java:40-42 | Appends Group(start, end). |
| SimpleExcelReading.SimpleExcelReader.Open | src/net/ssehub/kernel_haven/io/excel/SimpleExcelReader.java:50-62 | A missing file is an I/O error and an unparsable one a format error. Otherwise the reader holds the parsed workbook. |
| SimpleExcelReading.SimpleExcelReader.ReadAll | src/net/ssehub/kernel_haven/io/excel/SimpleExcelReader.java:69-80 | Gives one sheet per workbook sheet, in order, with its name, kept rows and groups. It fails iff some sheet's pass fails. |
| SimpleExcelReading.SimpleExcelReader.ReadSheetAt | src/net/ssehub/kernel_haven/io/excel/SimpleExcelReader.java:90-94 | An index outside the workbook is an illegal argument. Otherwise the sheet at the index is read as ReadSheet reads it: its name, kept rows and groups, or the failure of its group pass. |
| SimpleExcelReading.SimpleExcelReader.ReadSheet | src/net/ssehub/kernel_haven/io/excel/SimpleExcelReader.java:101-163 | The row loop yields the sheet's name, the kept typed rows and the single-step groups. It fails with the null unboxing iff the pass polls an empty deque. |
| SimpleExcelReading.SimpleExcelReader.ReadValues | src/net/ssehub/kernel_haven/io/excel/SimpleExcelReader.java:123-148 | The cell loop yields one typed value per cell, with no gap filling. The row is empty iff all values are null. |
| SimpleExcelReading.DecodeRow | src/net/ssehub/kernel_haven/io/excel/SimpleExcelReader.java:125-147 | Value i is the decoding of cell i: text, number, flag, or the string value for formulas and other cells. |
| SimpleExcelReading.SimpleStep | src/net/ssehub/kernel_haven/io/excel/SimpleExcelReader.java:113-121 | After a row the tracked level is the row's level and the row index advances by one. |
| SimpleExcelReading.SimpleScan | src/net/ssehub/kernel_haven/io/excel/SimpleExcelReader.java:104-154 | A successful pass ends at the last row's level and at the last row index. |
| SimpleExcelReading.SimpleScanCounts | src/net/ssehub/kernel_haven/io/excel/SimpleExcelReader.java:113-120 | The pass succeeds iff no prefix of the rows has more level drops than rises. The deque then holds rises minus drops starts, and one group was added per drop. |
| SimpleExcelReading.CrashExample | src/net/ssehub/kernel_haven/io/excel/SimpleExcelReader.java:116-119 | Levels 0,2,1,0 poll an empty deque on the second drop. |
| SimpleExcelReading.JumpOpensOneGroup | src/net/ssehub/kernel_haven/io/excel/SimpleExcelReader.java:113-120 | Levels 0,2,2,0 give the single group [1;2], where ExcelSheetReader gives [1;2] twice. |
| SimpleExcelReading.UnitStepsAgree | src/net/ssehub/kernel_haven/io/excel/SimpleExcelReader.java:113-121 | When levels change by at most one per row, the single-step pass is the ExcelSheetReader pass. |
| SimpleExcelReading.UnitStepsSameGroups | src/net/ssehub/kernel_haven/io/excel/SimpleExcelReader.java:156-160 | If, in addition, the last level is at most 1, both readers produce the same groups. |
| ExcelSheetWriting.ExcelSheetWriter.constructor | src/net/ssehub/kernel_haven/io/excel/ExcelSheetWriter.java:55-59 | The row cursor starts at the sheet's physical row count. |
| ExcelSheetWriting.ExcelSheetWriter.Close | src/net/ssehub/kernel_haven/io/excel/ExcelSheetWriter.java:62-64 | The book receives exactly one close request, for this writer. |
| ExcelSheetWriting.ExcelSheetWriter.WriteRow | src/net/ssehub/kernel_haven/io/excel/ExcelSheetWriter.java:67-79 | Creates the row at the cursor with prepared value i in column i, text split with the corrected cut (see "## Findings"), and advances the cursor. On a sheet written only by appending, the row is appended. |
| ExcelSheetWriting.ExcelSheetWriter.WriteHeader | src/net/ssehub/kernel_haven/io/excel/ExcelSheetWriter.java:82-96 | Has the same effect on the rows and the cursor as WriteRow, text split with the corrected cut (see "## Findings"). |
| ExcelSheetWriting.ExcelSheetWriter.PrepareFields | src/net/ssehub/kernel_haven/io/excel/ExcelSheetWriter.java:161-204 | Maps null to blank, numbers to numeric and booleans to boolean, each one cell. Text gives its chunks under the corrected cut (see "## Findings"), in field order. |
| ExcelSheetWriting.ExcelSheetWriter.SplitText | src/net/ssehub/kernel_haven/io/excel/ExcelSheetWriter.java:183-198 | The split loop, with the corrected cut, yields the text's chunks as text cells. |
| ExcelSheetWriting.ChunksSpec | src/net/ssehub/kernel_haven/io/excel/ExcelSheetWriter.java:184-198 | The chunks concatenate back to the text. Each has at most max characters, none is empty for a non-empty text, and a text within the limit stays one cell. |
| ExcelSheetWriting.FirstChunkCut | src/net/ssehub/kernel_haven/io/excel/ExcelSheetWriter.java:187-193 | A chunk shorter than max ends just before the last space of the window. A window with no space after its first character is cut at max. |
| ExcelSheetWriting.AsWrittenStall | src/net/ssehub/kernel_haven/io/excel/ExcelSheetWriter.java:184-196 | In the loop as written, a turn makes no progress exactly when the window's only space is its first character. It then emits "" and keeps the text unchanged. |
| ExcelSheetWriting.AsWrittenAgrees | src/net/ssehub/kernel_haven/io/excel/ExcelSheetWriter.java:184-197 | Whenever the loop as written terminates, it produces the corrected chunks. |
| ExcelSheetWriting.StallExample | src/net/ssehub/kernel_haven/io/excel/ExcelSheetWriter.java:184-197 | With max 3, "ab cdefg" never terminates as written; the corrected split gives "ab", " cd", "efg". |
| ExcelSheetWriting.LongWordSplit | src/net/ssehub/kernel_haven/io/excel/ExcelSheetWriter.java:184-198 | A space-free text 200 characters over the limit becomes one full chunk and one of 200. |
| ExcelSheetWriting.PreparedOnePerField | src/net/ssehub/kernel_haven/io/excel/ExcelSheetWriter.java:165-200 | When no text is over the limit, field i gives exactly cell i. |
| ExcelSheetWriting.TextFieldCells | src/net/ssehub/kernel_haven/io/excel/ExcelSheetWriter.java:179-199 | A text field gives one or more text cells, each within the limit, whose texts concatenate back to the field. |
| ExcelSheetWriting.RowCells | src/net/ssehub/kernel_haven/io/excel/ExcelSheetWriter.java:74-77 | Prepared value i is applied to the cell in column i. |
| ExcelSheetWriting.WrittenRowReadsBack | src/net/ssehub/kernel_haven/io/excel/ExcelSheetWriter.java:125-146 | A written row reads back through ExcelSheetReader's decoding as the fields' renderings, with null as "". |
| ExcelSheetWriting.DenseCellsDecode | src/net/ssehub/kernel_haven/io/excel/ExcelSheetReader.java:84-115 | Decoding cells written at columns 0..n-1 needs no gap filling: value i decodes cell i. |
| ExcelSheetWriting.LongWordReadsBack | src/net/ssehub/kernel_haven/io/excel/ExcelSheetWriter.java:184-198 | An over-long word reads back as its two chunks in adjacent cells. |
| ExcelSheetWriting.LastSpace | src/net/ssehub/kernel_haven/io/excel/ExcelSheetWriter.java:188 | Returns the position of the window's last space, or -1 when it has none. |
| Spreadsheet.EngineSheet.CreateRow | src/net/ssehub/kernel_haven/io/excel/ExcelSheetWriter.java:73 | The engine replaces or inserts the row by its number. |
| Spreadsheet.PutRowMembers | src/net/ssehub/kernel_haven/io/excel/ExcelSheetWriter.java:73 | Afterwards the sheet holds the new row and every old row with another number, and nothing else. |
| Spreadsheet.PutRowSorted | src/net/ssehub/kernel_haven/io/excel/ExcelSheetWriter.java:73 | Rows stay in row-number order. |
| Spreadsheet.PutRowAppends | src/net/ssehub/kernel_haven/io/excel/ExcelSheetWriter.java:58-73 | On rows numbered 0..n-1, creating row n (the physical count) appends it. |
| ExcelBooks.ExcelBook.Open | src/net/ssehub/kernel_haven/io/excel/ExcelBook.java:73-97 | A missing file is created and gives an empty writable book, or an I/O error when creation fails. An existing file is opened read-only, or fails with a format error. |
| ExcelBooks.ExcelBook.GetAllSheetReaders | src/net/ssehub/kernel_haven/io/excel/ExcelBook.java:104-112 | Gives one fresh reader per sheet, in workbook order, each with the book's ignoreEmptyRows flag, holding that sheet's lines and groups, and positioned at its first line. |
| ExcelBooks.ExcelBook.GetReaderAt | src/net/ssehub/kernel_haven/io/excel/ExcelBook.java:123-127 | An index out of range is an illegal argument. Otherwise the reader is for the sheet at the index, with the book's ignoreEmptyRows flag. It holds that sheet's kept lines and groups and is positioned at its first line. |
| ExcelBooks.ExcelBook.GetTableNames | src/net/ssehub/kernel_haven/io/excel/ExcelBook.java:130-138 | Gives exactly the set of the sheet names. |
| ExcelBooks.ExcelBook.GetReader | src/net/ssehub/kernel_haven/io/excel/ExcelBook.java:141-150 | Gives a reader iff some sheet has the name; the reader is for the first such sheet, with the book's ignoreEmptyRows flag. It holds that sheet's kept lines and groups and is positioned at its first line. |
| ExcelBooks.ExcelBook.GetWriter | src/net/ssehub/kernel_haven/io/excel/ExcelBook.java:153-189 | Refused on a read-only book, with no change. Otherwise a new empty sheet under the safe name is appended. If that name is refused, the first accepted numbered name is created at the front. When none of the 127 is accepted, an I/O error with no change. |
| ExcelBooks.ExcelBook.CreateFallback | src/net/ssehub/kernel_haven/io/excel/ExcelBook.java:166-182 | The retry loop creates the sheet for the smallest accepted id, empty and moved to the front of the book. When all ids 0..126 are refused it creates nothing and leaves the book unchanged. |
| ExcelBooks.FirstFreeId | src/net/ssehub/kernel_haven/io/excel/ExcelBook.java:168-182 | The retry id found is the smallest whose name is accepted. None means all ids 0..126 are refused. |
| TableReading.TableReader.Open | src/net/ssehub/kernel_haven/io/TableReader.java:56-86 | A missing file is an I/O error before the name is examined. Otherwise the extension decides the type or raises an illegal argument. The caller's delimiter is kept. |
| TableReading.ExtensionSpec | src/net/ssehub/kernel_haven/io/TableReader.java:61-66 | The extension is the text after the last '.', which contains no '.'. There is none iff the name has no '.'. |
| TableReading.ClassifyIgnoresCase | src/net/ssehub/kernel_haven/io/TableReader.java:66-73 | Classification gives the same answer for a name and its lower-cased form. |
| TableReading.ExtensionOfSuffix | src/net/ssehub/kernel_haven/io/TableReader.java:61-66 | A name base + "." + ext, with no '.' in ext, has the extension ext. |
| TableReading.ClassifyExamples | src/net/ssehub/kernel_haven/io/TableReader.java:61-73 | "A.CSV" is a CSV file and "a.b.xlsx" an Excel file. |
| TableReading.NewCsvSheet | src/net/ssehub/kernel_haven/io/TableReader.java:37-42 | The CSV sheet is named as given and holds the CSV rows in order, each field a text value, with no groups. |
| TableReading.TableReader.Read | src/net/ssehub/kernel_haven/io/TableReader.java:96-115 | An Excel file gives the simple Excel reader's sheets, keeping empty rows, with their names, rows and groups. A failing group pass is a null-pointer error. A CSV file gives exactly one sheet named after the file, holding the records in order. A CSV read fails iff the separator peek fails or the records cannot be read. A missing file or unreadable records are an I/O error, and an empty file an index error. |
| TableCollections.SuffixType | src/net/ssehub/kernel_haven/io/TableCollectionUtils.java:41-44 | ".csv" selects CSV. Otherwise ".xlsx" or ".xls" selects Excel. The comparison is case-sensitive. |
| TableCollections.OpenExcelOrCsvCollection | src/net/ssehub/kernel_haven/io/TableCollectionUtils.java:37-56 | Every failure is an I/O error: an unsupported suffix, a workbook that cannot be created, or one that cannot be parsed. A ".csv" name gives the CSV file set. An Excel name gives the book as ExcelBook opens it, keeping empty rows. |
| TableCollections.SuffixAgreesWithTableReader | src/net/ssehub/kernel_haven/io/TableCollectionUtils.java:41-46 | Every name the suffix test accepts is classified the same way by TableReader. |
| TableCollections.UpperCaseSuffixRefused | src/net/ssehub/kernel_haven/io/TableCollectionUtils.java:41-53 | The converse fails: "A.CSV" is refused here but is a CSV file for TableReader. |
| CsvSeparators.DetermineSeparator | src/net/ssehub/kernel_haven/io/csv/CSVUtils.java:32-44 | A first line starting with "sep" announces its last character; any other first line announces nothing. A read failure announces nothing. An empty file fails with an index error. |
| CsvSeparators.PrefixExamples | src/net/ssehub/kernel_haven/io/csv/CSVUtils.java:36-37 | The prefix test is literal: "separator" gives 'r', "SEP=;" gives nothing and "sep" gives 'p'. |
| CsvSeparators.ReaderConfig | src/net/ssehub/kernel_haven/io/csv/SimpleCSVReader.java:34-86 | A missing file is not found, and an empty file fails. With a "sep" line, that line is skipped and the caller's delimiter, or else the announced one, is used. Without one, the default ',' is used and nothing is skipped. |
| CsvSeparators.SepLineRoundTrip | src/net/ssehub/kernel_haven/io/csv/SimpleCSVReader.java:38-50 | A file starting with "sep=c" is read with separator c, skipping that line. |
| CsvSeparators.DelimiterNeedsSepLine | src/net/ssehub/kernel_haven/io/csv/SimpleCSVReader.java:70-85 | Without a "sep" line, the caller's delimiter is ignored: the default ',' is used and nothing is skipped. |
| Values.TextRecord | src/net/ssehub/kernel_haven/io/TableReader.java:39-41 | Field i of a CSV row becomes the text value i. |

## Left out

- **Library I/O.**
  - Reading and writing files, `WorkbookFactory.create`, `createNewFile`, the workbook's `write`/`close`, `ExcelBook.close`, and the close at the end of `SimpleExcelReader.readAll`.
  - These become inputs: whether the file exists, whether it could be created, and the parsed sheets (None for a parse failure).
- **Double rendering.** `Double.toString` and `doubleValue()` are floating point. A number carries its rendering as an uninterpreted string.
- **Sheet-name rules.** `WorkbookUtil.createSafeSheetName` and the engine's rule for refusing a sheet name are parameters of `GetWriter`: a sanitising function and a "taken" test over the existing names.
- **Header formatting.** The header style and the freeze pane of `writeHeader` only format the engine's output.
- **Concurrency.** The `synchronized` blocks of the writer have no counterpart; writes are sequential.
- **CSV parsing.** The CSV library's parsing in `SimpleCSVReader.readLine`/`readAll` is out of scope: only the separator and skip decision is modelled. `TableReader.Read` takes the parsed records as a function of that decision.
- **CSV file set.** `CsvFileSet`, which `TableCollectionUtils` opens for ".csv" names, is not part of this model.
- **Trivial getters.** `getSheetName`, `getGroupedRows` and `getNumberOfRows` are read as the fields they return.
- **Iteration.** The sheets' iterators are their `contents` sequences. `ExcelSheetReader`'s iterator is a cursor into its lines.
- **Row order within a write.** The engine sees a written row in one step. The order in which the writer creates cells within the row is not modelled.
- **Integer widths.** Java's 32-bit `int` overflow of the writer's `currentRow` and of row indexes is not modelled; indexes are unbounded.
- **Engine exceptions.** The engine's exceptions inside cell accessors, such as the string value of an error cell, are not modelled. Other and error cells yield their string value.
- **Lower-casing.** `Strings.ToLowerAscii` lower-cases ASCII letters only, not the platform's locale-dependent `toLowerCase`. The comparison is only against "csv", "xls" and "xlsx".
- **Text length limit.** `ExcelSheetWriting.MaxTextLength` is the engine's limit for Excel 2007 and later (32767). The splitting lemmas hold for every positive limit.
- **Flush.** `ExcelSheetWriter.Flush` has no effect and is modelled as an empty method without a contract.
- **Mixed revisions.** In this revision, `ExcelBook.getWriter` (ExcelBook.java:187) builds its writer from the sheet alone, while the writer's constructor (ExcelSheetWriter.java:55) also takes the book. The model passes the book's close-request handle.
  - Behaviour that tests expect from a later revision, such as overwriting a sheet of the same name, is not modelled.
- ExcelSheetWriting.Chunks: lengths and cut positions count characters (Unicode scalar values), not Java's UTF-16 code units. A text with characters outside the Basic Multilingual Plane is split into fewer, longer chunks than the engine's limit allows in UTF-16, and no cut falls inside a surrogate pair.
- ExcelSheetWriting.LastSpace: positions are character positions, not UTF-16 code unit positions (see Chunks).
- ExcelSheetWriting.ExcelSheetWriter.SplitText: the limit of 32767 is counted in characters, not UTF-16 code units (see Chunks).
- ExcelSheetWriting.ExcelSheetWriter.PrepareFields: text is split by character count, not UTF-16 code units (see Chunks).
- ExcelSheetReading.ExtractGroupsSound: stated only when no row is dropped. With dropped empty rows, the clamp of trailing groups can invert a group (`TrailingGroupInverted`).

## Findings

| source | as written | input that shows it | evidently intended | confidence | as-written member | corrected member |
|---|---|---|---|---|---|---|
| src/net/ssehub/kernel_haven/io/excel/ExcelSheetWriter.java:184-196 | When the last space in the 32767-character window is its first character, `pos` is 0. The turn emits "" and keeps the text unchanged, so the loop never ends. | A text of more than 32767 characters that continues after an earlier split at a space, with no other space in the next window (with a limit of 3: "ab cdefg") | Treat a space at position 0 like no space, cutting at the limit, so that every turn makes progress | not executed | ExcelSheetWriting.AsWrittenSplit, ExcelSheetWriting.StallExample | ExcelSheetWriting.Chunks, ExcelSheetWriting.ChunksSpec |
