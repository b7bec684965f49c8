/**
 * RunMain of dump.cpp as a whole: scan the table, sort the entries by path,
 * then walk them to produce the tree document.
 */
module Dump {
  import opened Wrappers
  import opened Entries
  import opened Scanner
  import opened TreeWalk

  /** What RunMain produces: the sorted entry vector and the document written from it. */
  datatype Report = Report(entries: seq<Entry>, tree: Tree)

  /**
   * The scan fails exactly when no line starts with the marker. Otherwise the
   * entries are the scanned ones (sentinel included) in path order, the
   * sentinel is still first, and the document is the walk over them.
   */
  method RunMain(lines: seq<Line>) returns (r: Result<Report, ScanError>)
    ensures r.Fail? <==> FindMarker(lines).None?
    ensures r.Ok? ==>
      && Table(lines).Ok?
      && SortedByPath(r.value.entries)
      && multiset(r.value.entries) == multiset(Table(lines).value)
      && |r.value.entries| == |Table(lines).value|
      && r.value.entries[0] == Sentinel
      && Named(r.value.entries)
      && r.value.tree == Emit(r.value.entries)
  {
    var scanned := ScanTable(lines);
    if scanned.Fail? {
      return Fail(scanned.error);
    }
    var v := scanned.value;
    ghost var rows := Collect(TableRows(lines, TableStart(lines, FindMarker(lines).value)));
    assert v == [Sentinel] + rows;
    var a := new Entry[|v|]((i: int) => if 0 <= i < |v| then v[i] else Sentinel);
    assert a[..] == v;
    SortEntries(a);
    var sorted := a[..];
    CollectedNonEmpty(TableRows(lines, TableStart(lines, FindMarker(lines).value)));
    SentinelFirst(sorted, rows);
    var tree := EmitTree(sorted);
    r := Ok(Report(sorted, tree));
  }
}
