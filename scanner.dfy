/**
 * The table scan of RunMain in dump.cpp: find the "Sorted by Path" marker,
 * skip the column header, then turn rows into entries until the first line
 * that does not yield three fields.
 *
 * Lines come already tokenised: each carries its text (for the marker test)
 * and what sscanf(" %d %d %s") makes of it.
 */
module Scanner {
  import opened Wrappers
  import opened Paths
  import opened Entries

  /** The three fields of a table row: size, symbol count, path. */
  datatype Fields = Fields(size: int, count: int, path: string)

  /** One input line: its text, and its fields when it yields all three. */
  datatype Line = Line(text: string, fields: Option<Fields>)

  datatype ScanError = MarkerNotFound

  const Marker: string := "Sorted by Path"

  /** The line starts with the marker text. */
  predicate IsMarker(line: Line)
  {
    |Marker| <= |line.text| && line.text[..|Marker|] == Marker
  }

  /** Index of the first marker line, if there is one. */
  function FindMarker(lines: seq<Line>): (r: Option<nat>)
    ensures r.Some? ==> r.value < |lines| && IsMarker(lines[r.value])
    ensures forall i :: 0 <= i < |lines| && (r.None? || i < r.value) ==> !IsMarker(lines[i])
  {
    if lines == [] then None
    else if IsMarker(lines[0]) then Some(0)
    else
      match FindMarker(lines[1..])
      case None => None
      case Some(k) => Some(k + 1)
  }

  /** Where the rows begin: after the marker and one header line, if the input has them. */
  function TableStart(lines: seq<Line>, marker: nat): (start: nat)
    requires marker < |lines|
    ensures marker < start <= |lines|
    ensures start == |lines| || start == marker + 2
  {
    if marker + 2 <= |lines| then marker + 2 else |lines|
  }

  /** The rows read from index `from` on: the longest run of lines that yield three fields. */
  function TableRows(lines: seq<Line>, from: nat): (rows: seq<Fields>)
    requires from <= |lines|
    ensures from + |rows| <= |lines|
    decreases |lines| - from
  {
    if from == |lines| || lines[from].fields.None? then []
    else [lines[from].fields.value] + TableRows(lines, from + 1)
  }

  /**
   * The rows are the fields of consecutive lines from `from` on, and the line
   * after the last row, if there is one, does not yield three fields.
   */
  lemma {:induction false} TableRowsAreFields(lines: seq<Line>, from: nat)
    requires from <= |lines|
    ensures var rows := TableRows(lines, from);
      && (forall k :: 0 <= k < |rows| ==> lines[from + k].fields == Some(rows[k]))
      && (from + |rows| < |lines| ==> lines[from + |rows|].fields.None?)
    decreases |lines| - from
  {
    if from < |lines| && lines[from].fields.Some? {
      TableRowsAreFields(lines, from + 1);
    }
  }

  /** A line without three fields ends the table: no line at or after it contributes a row. */
  lemma {:induction false} MalformedLineEndsTable(lines: seq<Line>, from: nat, k: nat)
    requires from <= k < |lines|
    requires lines[k].fields.None?
    ensures |TableRows(lines, from)| <= k - from
    decreases k - from
  {
    if from < k && lines[from].fields.Some? {
      MalformedLineEndsTable(lines, from + 1, k);
    }
  }

  /** The entries made from a run of rows. */
  function Collect(rows: seq<Fields>): seq<Entry>
  {
    seq(|rows|, k requires 0 <= k < |rows| => Classify(rows[k].path, rows[k].size))
  }

  lemma CollectedNonEmpty(rows: seq<Fields>)
    ensures forall k :: 0 <= k < |rows| ==> Collect(rows)[k].path != []
  {
    forall k | 0 <= k < |rows|
      ensures Collect(rows)[k].path != []
    {
      ClassifiedShape(rows[k].path, rows[k].size);
    }
  }

  /** The entry vector RunMain builds, sentinel first, or the failure when there is no marker. */
  function Table(lines: seq<Line>): Result<seq<Entry>, ScanError>
  {
    match FindMarker(lines)
    case None => Fail(MarkerNotFound)
    case Some(m) => Ok([Sentinel] + Collect(TableRows(lines, TableStart(lines, m))))
  }

  /** Lines 121-132 of RunMain: read lines until one starts with the marker. */
  method SeekMarker(lines: seq<Line>) returns (found: bool, pos: nat)
    ensures found <==> FindMarker(lines).Some?
    ensures found ==> pos == FindMarker(lines).value
  {
    pos := 0;
    found := false;
    while pos < |lines|
      invariant pos <= |lines| && !found
      invariant forall i :: 0 <= i < pos ==> !IsMarker(lines[i])
    {
      if IsMarker(lines[pos]) {
        found := true;
        break;
      }
      pos := pos + 1;
    }
  }

  /** Lines 136-152 of RunMain: push the sentinel, then one entry per row until a line fails to yield three fields. */
  method ReadRows(lines: seq<Line>, start: nat) returns (v: seq<Entry>)
    requires start <= |lines|
    ensures v == [Sentinel] + Collect(TableRows(lines, start))
  {
    var pos := start;
    ghost var rows: seq<Fields> := [];
    v := [Sentinel];
    while pos < |lines|
      invariant start <= pos <= |lines|
      invariant rows + TableRows(lines, pos) == TableRows(lines, start)
      invariant v == [Sentinel] + Collect(rows)
      decreases |lines| - pos
    {
      match lines[pos].fields {
        case None =>
          break;
        case Some(f) =>
          var e := MakeEntry(f.path, f.size);
          assert TableRows(lines, pos) == [f] + TableRows(lines, pos + 1);
          assert Collect(rows + [f]) == Collect(rows) + [e];
          rows := rows + [f];
          v := v + [e];
          pos := pos + 1;
      }
    }
    assert TableRows(lines, pos) == [];
    assert rows == TableRows(lines, start);
  }

  /** Lines 121-152 of RunMain: the marker search, the header skip and the row loop. */
  method ScanTable(lines: seq<Line>) returns (r: Result<seq<Entry>, ScanError>)
    ensures r == Table(lines)
  {
    var found, pos := SeekMarker(lines);
    if !found {
      return Fail(MarkerNotFound);
    }
    pos := pos + 1;
    if pos < |lines| {
      pos := pos + 1;  // the column header
    }
    var v := ReadRows(lines, pos);
    r := Ok(v);
  }

  /**
   * A table whose rows stop at a line without three fields: the row before
   * it is kept, the line after it is never read, whatever the header says.
   */
  lemma RowsStopAtMalformedLine(marker: Line, header: Line, row: Line, bad: Line, after: Line)
    requires IsMarker(marker) && row.fields.Some? && bad.fields.None?
    ensures var f := row.fields.value;
      Table([marker, header, row, bad, after]) == Ok([Sentinel, Classify(f.path, f.size)])
  {
    var lines := [marker, header, row, bad, after];
    assert FindMarker(lines) == Some(0);
    assert TableRows(lines, 3) == [];
    assert TableRows(lines, 2) == [row.fields.value];
    assert TableStart(lines, 0) == 2;
    assert Collect([row.fields.value]) == [Classify(row.fields.value.path, row.fields.value.size)];
    var f := row.fields.value;
    assert Table(lines) == Ok([Sentinel] + Collect(TableRows(lines, 2)));
    assert [Sentinel] + Collect(TableRows(lines, 2)) == [Sentinel, Classify(f.path, f.size)];
  }

  /** Without a marker line the scan fails, and with one it succeeds. */
  lemma MarkerDecidesFailure(lines: seq<Line>)
    ensures Table(lines).Fail? <==> forall i :: 0 <= i < |lines| ==> !IsMarker(lines[i])
  {
  }
}
