/** csv/CSVUtils.java and the constructors of csv/SimpleCSVReader.java: the decision, taken
    on the file's first line, of which separator the CSV parser uses and how many leading
    lines it skips. The parsing itself belongs to the CSV library and is not modelled. */
module CsvSeparators {
  import opened Wrappers
  import opened Strings

  /** The CSV library's default separator. */
  const DefaultSeparator: char := ','

  /** The line that announces a separator starts with this text. */
  const SepPrefix: string := "sep"

  datatype CsvError =
    | FileNotFound
      /** the first line of an empty file is asked for */
    | IndexOutOfBounds

  /** What the parser is built with: the separator and the number of leading lines to skip. */
  datatype Config = Config(separator: char, skipLines: nat)

  /** determineSeparator, given the file's lines (None when reading them fails, which is
      logged and yields no separator): a first line starting with "sep" announces its last
      character; an empty file fails. */
  function DetermineSeparator(lines: Option<seq<string>>): (r: Result<Option<char>, CsvError>)
    ensures lines.None? ==> r == Ok(None)
    ensures lines == Some([]) ==> r == Err(IndexOutOfBounds)
    ensures lines.Some? && lines.value != [] ==>
      && r.Ok? && (r.value.Some? <==> StartsWith(lines.value[0], SepPrefix))
      && (r.value.Some? ==> r.value.value == lines.value[0][|lines.value[0]| - 1])
  {
    match lines
    case None => Ok(None)
    case Some(ls) =>
      if ls == [] then Err(IndexOutOfBounds)
      else if StartsWith(ls[0], SepPrefix) then Ok(Some(ls[0][|ls[0]| - 1]))
      else Ok(None)
  }

  /** The configuration a SimpleCSVReader is built with; `delimiter` is the caller's
      delimiter of the two-argument constructor. The file must exist. With a "sep" line that
      line is skipped and the separator is the caller's delimiter when given, the announced
      one otherwise. Without one, the default separator is used and nothing is skipped,
      whether or not the caller gave a delimiter. */
  function ReaderConfig(fileExists: bool, lines: Option<seq<string>>, delimiter: Option<char>)
    : (r: Result<Config, CsvError>)
    ensures !fileExists ==> r == Err(FileNotFound)
    ensures fileExists ==> (r.Err? <==> lines == Some([]))
    ensures fileExists && r.Err? ==> r.error == IndexOutOfBounds
    ensures r.Ok? ==>
      var announced := DetermineSeparator(lines);
      && (r.value.skipLines == 1 <==> announced.value.Some?)
      && (r.value.skipLines == 0 <==> announced.value.None?)
      && (announced.value.None? ==> r.value.separator == DefaultSeparator)
      && (announced.value.Some? && delimiter.Some? ==> r.value.separator == delimiter.value)
      && (announced.value.Some? && delimiter.None? ==> r.value.separator == announced.value.value)
  {
    if !fileExists then Err(FileNotFound)
    else
      match DetermineSeparator(lines)
      case Err(e) => Err(e)
      case Ok(None) => Ok(Config(DefaultSeparator, 0))
      case Ok(Some(s)) => Ok(Config(if delimiter.Some? then delimiter.value else s, 1))
  }

  /** A file that starts with the line "sep=c" is read with separator c, skipping that line. */
  lemma SepLineRoundTrip(c: char, body: seq<string>)
    ensures ReaderConfig(true, Some(["sep=" + [c]] + body), None) == Ok(Config(c, 1))
  {
    var lines := ["sep=" + [c]] + body;
    assert lines[0] == "sep=" + [c];
    assert lines[0][..3] == SepPrefix;
  }

  /** The caller's delimiter only takes effect together with a "sep" line. */
  lemma DelimiterNeedsSepLine(lines: seq<string>, delimiter: char)
    requires lines != [] && !StartsWith(lines[0], SepPrefix)
    ensures ReaderConfig(true, Some(lines), Some(delimiter)) == Ok(Config(DefaultSeparator, 0))
  {
  }

  /** The prefix test is literal: "separator" announces 'r', "SEP=;" announces nothing, and
      "sep" alone announces 'p'. */
  lemma PrefixExamples(a: seq<string>, b: seq<string>, c: seq<string>)
    requires a == ["separator"] && b == ["SEP=;"] && c == ["sep"]
    ensures DetermineSeparator(Some(a)) == Ok(Some('r'))
    ensures DetermineSeparator(Some(b)) == Ok(None)
    ensures DetermineSeparator(Some(c)) == Ok(Some('p'))
  {
    assert a[0][..3] == "sep";
    assert b[0][..3] != "sep" by { assert b[0][0] == 'S'; }
    assert c[0][..3] == "sep";
  }
}
