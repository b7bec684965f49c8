/**
 * Entries of dump.cpp (struct Entry): how one table row becomes an entry,
 * and the sort that orders the entry vector by path.
 */
module Entries {
  import opened Paths
  import opened PathOrder

  /** One row of the table: a normalised path (with a trailing '/' for a directory) and its size. */
  datatype Entry = Entry(path: string, size: nat)

  /** The entry pushed before any row, to seed the prefix comparisons. */
  const Sentinel: Entry := Entry("", 0)

  const TwoTo64: int := 0x1_0000_0000_0000_0000

  /** static_cast<uint64_t> of the int parsed by sscanf: a negative value wraps modulo 2^64. */
  function ToU64(x: int): (r: nat)
    ensures r < TwoTo64
    ensures 0 <= x < TwoTo64 ==> r == x
    ensures -TwoTo64 <= x < 0 ==> r == x + TwoTo64
  {
    x % TwoTo64
  }

  /** The entry stored for a row with the given path and size fields. */
  function Classify(path: string, size: int): (e: Entry)
  {
    var p := Normalized(path);
    Entry(if IsSource(p) then p else p + "/", ToU64(size))
  }

  /**
   * What every stored entry looks like: never empty, free of backslashes, and
   * ending in '/' exactly when its normalised path is not a source file, in
   * which case exactly one '/' was added.
   */
  lemma ClassifiedShape(path: string, size: int)
    ensures var e, p := Classify(path, size), Normalized(path);
      && e.path != []
      && '\\' !in e.path
      && (IsSource(p) ==> e.path == p && e.path[|e.path| - 1] != '/')
      && (!IsSource(p) ==> |e.path| == |p| + 1 && e.path[..|p|] == p && e.path[|p|] == '/' && !IsSource(e.path))
      && (0 <= size < TwoTo64 ==> e.size == size)
  {
    var p := Normalized(path);
    if IsSource(p) {
      SourceShape(p);
    } else {
      DirectoryNotSource(p);
    }
  }

  /** A source path that is already normalised is stored as it is, with its size. */
  lemma ClassifyNormalSource(path: string, size: int)
    requires '\\' !in path && IsSource(path)
    requires 0 <= size < TwoTo64
    ensures Classify(path, size) == Entry(path, size)
  {
    NormalizedFixesSlashPaths(path);
  }

  /**
   * The row step of RunMain: the path token is copied into a character
   * buffer, normalised in place, and a '/' (then a NUL) is written after it
   * when it is not a source file.
   */
  method MakeEntry(path: string, size: int) returns (e: Entry)
    ensures e == Classify(path, size)
  {
    var n := |path|;
    var buf := new char[n + 2]((i: int) => if 0 <= i < n then path[i] else '\0');
    assert buf[0..n] == path;
    NormalizePath(buf, 0, n);
    ghost var p := Normalized(path);
    assert buf[..n] == p by { assert buf[..n] == buf[0..n]; }
    var source := IsSource(buf[..n]);
    if !source {
      buf[n] := '/';
      n := n + 1;
      buf[n] := '\0';
      assert buf[..n] == p + "/";
    }
    e := Entry(buf[..n], ToU64(size));
  }

  // ---------------------------------------------------------------------
  // Sorting the entry vector
  // ---------------------------------------------------------------------

  /** Entries in non-decreasing lexicographic order of their paths. */
  ghost predicate SortedByPath(s: seq<Entry>)
  {
    forall i, j :: 0 <= i < j < |s| ==> LessEq(s[i].path, s[j].path)
  }

  ghost predicate AdjacentSorted(s: seq<Entry>)
  {
    forall i :: 0 < i < |s| ==> LessEq(s[i - 1].path, s[i].path)
  }

  lemma {:induction false} AdjacentToSorted(s: seq<Entry>)
    requires AdjacentSorted(s)
    ensures SortedByPath(s)
  {
    if |s| > 1 {
      var t := s[..|s| - 1];
      assert AdjacentSorted(t);
      AdjacentToSorted(t);
      forall i | 0 <= i < |s| - 1
        ensures LessEq(s[i].path, s[|s| - 1].path)
      {
        if i < |s| - 2 {
          assert LessEq(t[i].path, t[|s| - 2].path);
          LessEqTransitive(s[i].path, s[|s| - 2].path, s[|s| - 1].path);
        }
      }
    }
  }

  method Swap(a: array<Entry>, i: int, j: int)
    requires 0 <= i < a.Length && 0 <= j < a.Length
    modifies a
    ensures a[..] == old(a[..])[i := old(a[j])][j := old(a[i])]
    ensures multiset(a[..]) == multiset(old(a[..]))
  {
    a[i], a[j] := a[j], a[i];
  }

  /**
   * std::sort of the entry vector by path. Modelled by an insertion sort;
   * std::sort promises only a sorted permutation, which is what is proved.
   */
  method SortEntries(a: array<Entry>)
    modifies a
    ensures SortedByPath(a[..])
    ensures multiset(a[..]) == multiset(old(a[..]))
  {
    var i := 0;
    while i < a.Length
      invariant 0 <= i <= a.Length
      invariant forall k :: 0 < k < i ==> LessEq(a[k - 1].path, a[k].path)
      invariant multiset(a[..]) == multiset(old(a[..]))
    {
      var j := i;
      while j > 0 && Less(a[j].path, a[j - 1].path)
        invariant 0 <= j <= i
        invariant forall k :: 0 < k <= i && k != j ==> LessEq(a[k - 1].path, a[k].path)
        invariant 0 < j < i ==> LessEq(a[j - 1].path, a[j + 1].path)
        invariant multiset(a[..]) == multiset(old(a[..]))
      {
        Asymmetric(a[j].path, a[j - 1].path);
        Swap(a, j - 1, j);
        j := j - 1;
      }
      i := i + 1;
    }
    AdjacentToSorted(a[..]);
  }

  /**
   * After the sort the sentinel is at index 0: every other entry has a
   * non-empty path, and the empty path sorts first. The entries after it are
   * the rows, and none of them has an empty path.
   */
  lemma SentinelFirst(s: seq<Entry>, rows: seq<Entry>)
    requires SortedByPath(s)
    requires multiset(s) == multiset([Sentinel] + rows)
    requires forall k :: 0 <= k < |rows| ==> rows[k].path != []
    ensures |s| == |rows| + 1
    ensures s[0] == Sentinel
    ensures multiset(s[1..]) == multiset(rows)
    ensures forall k :: 1 <= k < |s| ==> s[k].path != []
  {
    assert |s| == |multiset(s)| == |[Sentinel] + rows|;
    assert Sentinel in multiset(s);
    var k :| 0 <= k < |s| && s[k] == Sentinel;
    assert s[0] in multiset([Sentinel] + rows);
    assert s[0] == Sentinel;
    assert s == [s[0]] + s[1..];
    assert multiset(s) == multiset{s[0]} + multiset(s[1..]);
    assert multiset([Sentinel] + rows) == multiset{Sentinel} + multiset(rows);
    assert multiset(s[1..]) == multiset(s) - multiset{Sentinel};
    assert multiset(rows) == multiset([Sentinel] + rows) - multiset{Sentinel};
    forall k | 1 <= k < |s|
      ensures s[k].path != []
    {
      assert s[k] in multiset(s[1..]);
      assert s[k] in multiset(rows);
      assert s[k] in rows;
      var j :| 0 <= j < |rows| && rows[j] == s[k];
    }
  }
}
