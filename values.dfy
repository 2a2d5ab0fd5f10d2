/** The entries of the rows that the sheet containers hold (Object[] in the source):
    null, a String, a Double or a Boolean. */
module Values {
  import opened Spreadsheet

  datatype Value = Null | Str(text: string) | Num(number: Double) | Bool(flag: bool)

  type Record = seq<Value>

  /** A row of text, as the CSV reader produces it: every entry is a string. */
  function TextRecord(fields: seq<string>): (r: Record)
    ensures |r| == |fields| && forall i :: 0 <= i < |fields| ==> r[i] == Str(fields[i])
  {
    seq(|fields|, i requires 0 <= i < |fields| => Str(fields[i]))
  }
}
