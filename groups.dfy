/** The immutable row interval (excel/Group.java) and the queries over lists of groups
    that both sheet classes and the sheet reader answer. */
module Groups {
  import opened Decimal
  import opened Wrappers

  /** A group of rows, first and last row inclusive, 0-based. The constructor checks
      nothing: the documented promise that both indices are non-negative (and the
      implied start <= end) is the predicate WellFormed, which callers must establish. */
  datatype Group = Group(startIndex: int, endIndex: int) {

    predicate WellFormed() {
      0 <= startIndex <= endIndex
    }

    predicate Contains(row: int) {
      startIndex <= row <= endIndex
    }

    /** The debugging rendering "[start;end]". */
    function ToString(): (s: string)
      ensures |s| >= 5 && s[0] == '[' && s[|s| - 1] == ']'
    {
      "[" + IntToString(startIndex) + ";" + IntToString(endIndex) + "]"
    }
  }

  /** Two groups are nested or disjoint: what a stack discipline guarantees. */
  predicate Laminar(g: Group, h: Group) {
    (g.startIndex <= h.startIndex && h.endIndex <= g.endIndex) ||
    (h.startIndex <= g.startIndex && g.endIndex <= h.endIndex) ||
    g.endIndex < h.startIndex || h.endIndex < g.startIndex
  }

  // ---------------------------------------------------------------------------
  // Reading a rendering back, to show that ToString loses nothing.

  function IndexOf(s: string, c: char): (k: int)
    ensures -1 <= k < |s|
    ensures k >= 0 ==> s[k] == c && forall j :: 0 <= j < k ==> s[j] != c
    ensures k == -1 ==> forall j :: 0 <= j < |s| ==> s[j] != c
  {
    if s == [] then -1
    else if s[0] == c then 0
    else var k := IndexOf(s[1..], c); if k == -1 then -1 else k + 1
  }

  predicate IntText(s: string) {
    |s| >= 1 &&
    (s[0] == '-' ==> AllDigits(s[1..])) && (s[0] != '-' ==> AllDigits(s))
  }

  function ParseGroup(s: string): Option<Group> {
    if |s| < 2 || s[0] != '[' || s[|s| - 1] != ']' then None
    else
      var inner := s[1..|s| - 1];
      var k := IndexOf(inner, ';');
      if k < 0 then None
      else
        var a, b := inner[..k], inner[k + 1..];
        if IntText(a) && IntText(b) then Some(Group(ParseInt(a), ParseInt(b))) else None
  }

  lemma NoSemicolon(i: int)
    ensures forall j :: 0 <= j < |IntToString(i)| ==> IntToString(i)[j] != ';'
  {
    forall j | 0 <= j < |IntToString(i)| ensures IntToString(i)[j] != ';' {
      IntToStringChars(i, j);
    }
  }

  /** The rendering is unambiguous: it parses back to the same group. */
  lemma ParseToString(g: Group)
    ensures ParseGroup(g.ToString()) == Some(g)
  {
    var a, b := IntToString(g.startIndex), IntToString(g.endIndex);
    var s := g.ToString();
    var inner := s[1..|s| - 1];
    assert inner == a + ";" + b;
    NoSemicolon(g.startIndex);
    assert forall j :: 0 <= j < |a| ==> inner[j] == a[j];
    assert inner[|a|] == ';';
    assert IndexOf(inner, ';') == |a|;
    assert inner[..|a|] == a;
    assert inner[|a| + 1..] == b;
    ParseIntToString(g.startIndex);
    ParseIntToString(g.endIndex);
  }

  // ---------------------------------------------------------------------------
  // Filtering by row and by start index.

  /** The groups that contain `row`, in the order of the list. */
  function Containing(groups: seq<Group>, row: int): (r: seq<Group>)
    ensures forall g :: g in r <==> g in groups && g.Contains(row)
    ensures |r| <= |groups|
  {
    if groups == [] then []
    else
      var last := groups[|groups| - 1];
      Containing(groups[..|groups| - 1], row) + (if last.Contains(row) then [last] else [])
  }

  /** Filtering keeps every copy of a group that contains the row and no copy of one that
      does not. */
  lemma {:induction false} ContainingCounts(groups: seq<Group>, row: int, g: Group)
    ensures multiset(Containing(groups, row))[g] == if g.Contains(row) then multiset(groups)[g] else 0
    decreases |groups|
  {
    if groups != [] {
      var prefix, last := groups[..|groups| - 1], groups[|groups| - 1];
      ContainingCounts(prefix, row, g);
      assert groups == prefix + [last];
    }
  }

  /** The groups with start index `k`, in the order of the list. */
  function WithStart(groups: seq<Group>, k: int): (r: seq<Group>)
    ensures forall g :: g in r ==> g in groups && g.startIndex == k
  {
    if groups == [] then []
    else (if groups[0].startIndex == k then [groups[0]] else []) + WithStart(groups[1..], k)
  }

  // ---------------------------------------------------------------------------
  // The stable sort by descending start index that ExcelSheetReader.getRowGroups uses.

  predicate DescendingStart(s: seq<Group>) {
    forall i, j :: 0 <= i < j < |s| ==> s[j].startIndex <= s[i].startIndex
  }

  /** Puts g in front of the first element whose start is not larger, so that among
      equal starts g comes first. */
  function InsertDesc(g: Group, sorted: seq<Group>): (r: seq<Group>)
    ensures multiset(r) == multiset(sorted) + multiset{g}
    ensures |r| == |sorted| + 1
  {
    if sorted == [] || sorted[0].startIndex <= g.startIndex then [g] + sorted
    else
      assert sorted == [sorted[0]] + sorted[1..];
      [sorted[0]] + InsertDesc(g, sorted[1..])
  }

  /** Sorting by descending start, keeping list order among equal starts. */
  function SortDesc(s: seq<Group>): (r: seq<Group>)
    ensures multiset(r) == multiset(s)
    ensures |r| == |s|
  {
    if s == [] then [] else
      assert s == [s[0]] + s[1..];
      InsertDesc(s[0], SortDesc(s[1..]))
  }

  /** A group at least as late as the head of a descending list extends it. */
  lemma ConsDescending(x: Group, rest: seq<Group>)
    requires DescendingStart(rest) && (rest == [] || rest[0].startIndex <= x.startIndex)
    ensures DescendingStart([x] + rest)
  {
    var r := [x] + rest;
    forall i, j | 0 <= i < j < |r| ensures r[j].startIndex <= r[i].startIndex {
      if i == 0 {
        assert r[j] == rest[j - 1];
        assert rest[j - 1].startIndex <= rest[0].startIndex;
      } else {
        assert r[i] == rest[i - 1] && r[j] == rest[j - 1];
      }
    }
  }

  lemma {:induction false} InsertDescSorted(g: Group, sorted: seq<Group>)
    requires DescendingStart(sorted)
    ensures DescendingStart(InsertDesc(g, sorted))
    decreases |sorted|
  {
    if sorted == [] || sorted[0].startIndex <= g.startIndex {
      ConsDescending(g, sorted);
    } else {
      var rest := InsertDesc(g, sorted[1..]);
      assert DescendingStart(sorted[1..]);
      InsertDescSorted(g, sorted[1..]);
      assert rest[0] == g || rest[0] == sorted[1];
      ConsDescending(sorted[0], rest);
    }
  }

  lemma {:induction false} SortDescSorted(s: seq<Group>)
    ensures DescendingStart(SortDesc(s))
    decreases |s|
  {
    if s != [] {
      SortDescSorted(s[1..]);
      InsertDescSorted(s[0], SortDesc(s[1..]));
    }
  }

  lemma WithStartCons(x: Group, rest: seq<Group>, k: int)
    ensures WithStart([x] + rest, k) == (if x.startIndex == k then [x] else []) + WithStart(rest, k)
  {
    assert ([x] + rest)[0] == x && ([x] + rest)[1..] == rest;
  }

  lemma {:induction false} InsertDescStable(g: Group, sorted: seq<Group>, k: int)
    ensures WithStart(InsertDesc(g, sorted), k)
         == (if g.startIndex == k then [g] else []) + WithStart(sorted, k)
    decreases |sorted|
  {
    if sorted == [] || sorted[0].startIndex <= g.startIndex {
      WithStartCons(g, sorted, k);
    } else {
      var head, tail := sorted[0], sorted[1..];
      var rest := InsertDesc(g, tail);
      var fromHead := if head.startIndex == k then [head] else [];
      var fromG := if g.startIndex == k then [g] else [];
      var others := WithStart(tail, k);
      calc {
        WithStart(InsertDesc(g, sorted), k);
        WithStart([head] + rest, k);
        { WithStartCons(head, rest, k); }
        fromHead + WithStart(rest, k);
        { InsertDescStable(g, tail, k); }
        fromHead + (fromG + others);
        { // g starts before head, so at most one of them starts at k
          if fromHead == [] { assert fromHead + (fromG + others) == fromG + others; }
          else { assert fromG == []; } }
        fromG + (fromHead + others);
        { WithStartCons(head, tail, k); assert sorted == [head] + tail; }
        fromG + WithStart(sorted, k);
      }
    }
  }

  /** Sorting is stable: the groups with any one start index keep their list order. */
  lemma {:induction false} SortDescStable(s: seq<Group>, k: int)
    ensures WithStart(SortDesc(s), k) == WithStart(s, k)
    decreases |s|
  {
    if s != [] {
      SortDescStable(s[1..], k);
      InsertDescStable(s[0], SortDesc(s[1..]), k);
      WithStartCons(s[0], s[1..], k);
      assert s == [s[0]] + s[1..];
    }
  }

  /** ExcelSheetReader.getRowGroups: the groups containing `row`, innermost (largest
      start) first; among equal starts the list order, i.e. the order of closing. */
  function RowGroups(groups: seq<Group>, row: int): seq<Group> {
    SortDesc(Containing(groups, row))
  }

  lemma RowGroupsSpec(groups: seq<Group>, row: int)
    ensures var r := RowGroups(groups, row);
      && (forall g :: g in r <==> g in groups && g.Contains(row))
      && multiset(r) == multiset(Containing(groups, row))
      && (forall g :: multiset(r)[g] == if g.Contains(row) then multiset(groups)[g] else 0)
      && DescendingStart(r)
      && (forall k :: WithStart(r, k) == WithStart(Containing(groups, row), k))
  {
    var c := Containing(groups, row);
    forall g: Group ensures multiset(c)[g] == (if g.Contains(row) then multiset(groups)[g] else 0) {
      ContainingCounts(groups, row, g);
    }
    SortDescSorted(c);
    forall k ensures WithStart(RowGroups(groups, row), k) == WithStart(c, k) {
      SortDescStable(c, k);
    }
    assert forall g :: g in SortDesc(c) <==> g in multiset(SortDesc(c));
    assert forall g :: g in c <==> g in multiset(c);
  }
}
