/**
 * The path helpers of dump.cpp: normalizePath, commonParent, extractStem and
 * isSource. Paths are strings; a C string's terminating NUL is the end of the
 * Dafny sequence.
 */
module Paths {

  // ---------------------------------------------------------------------
  // normalizePath
  // ---------------------------------------------------------------------

  /** The character normalizePath leaves in place of `c`. */
  function NormalChar(c: char): (d: char)
    ensures d != '\\'
    ensures c != '\\' ==> d == c
  {
    if c == '\\' then '/' else c
  }

  /** `s` as normalizePath leaves it: every backslash is a slash, nothing else moves or changes. */
  function Normalized(s: string): (r: string)
    ensures |r| == |s|
    ensures '\\' !in r
    ensures forall i :: 0 <= i < |s| && s[i] == '\\' ==> r[i] == '/'
    ensures forall i :: 0 <= i < |s| && s[i] != '\\' ==> r[i] == s[i]
  {
    if s == [] then [] else [NormalChar(s[0])] + Normalized(s[1..])
  }

  /** Normalizing twice is normalizing once. */
  lemma NormalizedIdempotent(s: string)
    ensures Normalized(Normalized(s)) == Normalized(s)
  {
    var n := Normalized(s);
    assert forall i :: 0 <= i < |n| ==> n[i] != '\\';
  }

  /** A path without backslashes is left as it is. */
  lemma NormalizedFixesSlashPaths(s: string)
    requires '\\' !in s
    ensures Normalized(s) == s
  {
    assert forall i :: 0 <= i < |s| ==> s[i] != '\\';
  }

  /** normalizePath(start, end): rewrites the characters a[start..end] in place. */
  method NormalizePath(a: array<char>, start: int, end: int)
    requires 0 <= start <= end <= a.Length
    modifies a
    ensures a[..start] == old(a[..start])
    ensures a[start..end] == Normalized(old(a[start..end]))
    ensures a[end..] == old(a[end..])
  {
    var p := start;
    while p != end
      invariant start <= p <= end
      invariant forall k :: 0 <= k < start ==> a[k] == old(a[k])
      invariant forall k :: start <= k < p ==> a[k] == NormalChar(old(a[k]))
      invariant forall k :: p <= k < a.Length ==> a[k] == old(a[k])
      decreases end - p
    {
      if a[p] == '\\' {
        a[p] := '/';
      }
      p := p + 1;
    }
    ghost var before := old(a[start..end]);
    assert forall k :: 0 <= k < end - start ==> before[k] == old(a[start + k]);
  }

  // ---------------------------------------------------------------------
  // commonParent
  // ---------------------------------------------------------------------

  /** Number of '/' characters among the first `n` characters of `s`. */
  function SlashesIn(s: string, n: nat): (c: nat)
    requires n <= |s|
    ensures c <= n
  {
    if n == 0 then 0 else SlashesIn(s, n - 1) + (if s[n - 1] == '/' then 1 else 0)
  }

  /** Number of '/' characters in `s`. */
  function Slashes(s: string): nat
  {
    SlashesIn(s, |s|)
  }

  /** Where commonParent's scan stops when it has already passed index `i`. */
  function MatchFrom(a: string, b: string, i: nat): (n: nat)
    requires i <= |a| && i <= |b|
    ensures i <= n <= |a| && n <= |b|
    decreases |a| - i
  {
    if i == |a| || i == |b| || a[i] == '\0' || a[i] != b[i] then i else MatchFrom(a, b, i + 1)
  }

  /** From `i` on, the scan passes only equal non-NUL characters, and stops at an end, a mismatch or a NUL. */
  lemma {:induction false} MatchFromStops(a: string, b: string, i: nat)
    requires i <= |a| && i <= |b|
    ensures var n := MatchFrom(a, b, i);
      && (forall k :: i <= k < n ==> a[k] == b[k] && a[k] != '\0')
      && (n == |a| || n == |b| || a[n] != b[n] || a[n] == '\0')
    decreases |a| - i
  {
    if i < |a| && i < |b| && a[i] != '\0' && a[i] == b[i] {
      MatchFromStops(a, b, i + 1);
    }
  }

  /**
   * Length of the common prefix that commonParent walks: it stops at the end
   * of either string, at the first mismatch, or at a NUL character.
   */
  function MatchLen(a: string, b: string): (n: nat)
    ensures n <= |a| && n <= |b|
  {
    MatchFrom(a, b, 0)
  }

  /**
   * MatchLen is the length of the longest common NUL-free prefix: the
   * characters before it agree and are not NUL, and the one at it ends the
   * scan.
   */
  lemma MatchLenIsCommonPrefix(a: string, b: string)
    ensures var n := MatchLen(a, b);
      && (forall k :: 0 <= k < n ==> a[k] == b[k] && a[k] != '\0')
      && (n == |a| || n == |b| || a[n] != b[n] || a[n] == '\0')
  {
    MatchFromStops(a, b, 0);
  }

  /** The depth commonParent returns: the '/' count of the common prefix. */
  function CommonDepth(a: string, b: string): nat
  {
    SlashesIn(a, MatchLen(a, b))
  }

  /** commonParent(a, b): walks both paths while they agree, counting slashes. */
  method CommonParent(a: string, b: string) returns (p: nat)
    ensures p == CommonDepth(a, b)
  {
    p := 0;
    var i := 0;
    while i < |a| && i < |b| && a[i] != '\0' && a[i] == b[i]
      invariant i <= |a| && i <= |b|
      invariant MatchFrom(a, b, i) == MatchLen(a, b)
      invariant p == SlashesIn(a, i)
    {
      if a[i] == '/' {
        p := p + 1;
      }
      i := i + 1;
    }
  }

  lemma {:induction false} MatchFromSymmetric(a: string, b: string, i: nat)
    requires i <= |a| && i <= |b|
    ensures MatchFrom(a, b, i) == MatchFrom(b, a, i)
    decreases |a| - i
  {
    if i < |a| && i < |b| && a[i] != '\0' && a[i] == b[i] {
      MatchFromSymmetric(a, b, i + 1);
    }
  }

  lemma MatchLenSymmetric(a: string, b: string)
    ensures MatchLen(a, b) == MatchLen(b, a)
  {
    MatchFromSymmetric(a, b, 0);
  }

  /** Strings that agree on their first `n` characters count the same slashes there. */
  lemma {:induction false} SlashesInSamePrefix(a: string, b: string, n: nat)
    requires n <= |a| && n <= |b|
    requires forall k :: 0 <= k < n ==> a[k] == b[k]
    ensures SlashesIn(a, n) == SlashesIn(b, n)
  {
    if n > 0 {
      SlashesInSamePrefix(a, b, n - 1);
    }
  }

  /** A longer prefix never counts fewer slashes. */
  lemma {:induction false} SlashesInMonotone(s: string, m: nat, n: nat)
    requires m <= n <= |s|
    ensures SlashesIn(s, m) <= SlashesIn(s, n)
  {
    if m < n {
      SlashesInMonotone(s, m, n - 1);
    }
  }

  lemma {:induction false} SlashesInAppend(a: string, b: string, n: nat)
    requires n <= |b|
    ensures SlashesIn(a + b, |a| + n) == Slashes(a) + SlashesIn(b, n)
  {
    if n == 0 {
      SlashesInSamePrefix(a + b, a, |a|);
    } else {
      SlashesInAppend(a, b, n - 1);
    }
  }

  /** The slashes of a concatenation are those of its parts. */
  lemma SlashesAppend(a: string, b: string)
    ensures Slashes(a + b) == Slashes(a) + Slashes(b)
  {
    SlashesInAppend(a, b, |b|);
  }

  lemma {:induction false} NoSlashesIn(s: string, n: nat)
    requires n <= |s| && '/' !in s
    ensures SlashesIn(s, n) == 0
  {
    if n > 0 {
      assert s[n - 1] in s;
      NoSlashesIn(s, n - 1);
    }
  }

  /** A string without '/' counts none. */
  lemma NoSlashes(s: string)
    requires '/' !in s
    ensures Slashes(s) == 0
  {
    NoSlashesIn(s, |s|);
  }

  lemma {:induction false} MatchFromSelf(a: string, i: nat)
    requires i <= |a| && '\0' !in a
    ensures MatchFrom(a, a, i) == |a|
    decreases |a| - i
  {
    if i < |a| {
      assert a[i] in a;
      MatchFromSelf(a, i + 1);
    }
  }

  /** A path compared with itself matches up to its end (paths hold no NUL). */
  lemma MatchLenSelf(a: string)
    requires '\0' !in a
    ensures MatchLen(a, a) == |a|
  {
    MatchFromSelf(a, 0);
  }

  /** The scan runs through a shared NUL-free prefix, and stops right after it when the rests differ at once. */
  lemma {:induction false} MatchFromAfterPrefix(dir: string, x: string, y: string, i: nat)
    requires i <= |dir| && '\0' !in dir
    ensures MatchFrom(dir + x, dir + y, i) >= |dir|
    ensures x == [] || y == [] || x[0] != y[0] || x[0] == '\0' ==> MatchFrom(dir + x, dir + y, i) == |dir|
    decreases |dir| - i
  {
    if i < |dir| {
      assert dir[i] in dir;
      MatchFromAfterPrefix(dir, x, y, i + 1);
    } else if x != [] && y != [] {
      assert (dir + x)[i] == x[0] && (dir + y)[i] == y[0];
    }
  }

  /** Two paths that agree on `dir` and then differ at once share exactly the slashes of `dir`. */
  lemma CommonDepthAfterPrefix(dir: string, x: string, y: string)
    requires '\0' !in dir
    requires x == [] || y == [] || x[0] != y[0] || x[0] == '\0'
    ensures CommonDepth(dir + x, dir + y) == Slashes(dir)
  {
    MatchFromAfterPrefix(dir, x, y, 0);
    SlashesInSamePrefix(dir + x, dir, |dir|);
  }

  /** commonParent does not depend on the order of its arguments. */
  lemma CommonDepthSymmetric(a: string, b: string)
    ensures CommonDepth(a, b) == CommonDepth(b, a)
  {
    MatchLenSymmetric(a, b);
    MatchLenIsCommonPrefix(a, b);
    SlashesInSamePrefix(a, b, MatchLen(a, b));
  }

  /** commonParent never exceeds the number of '/' in either path. */
  lemma CommonDepthBounded(a: string, b: string)
    ensures CommonDepth(a, b) <= Slashes(a)
    ensures CommonDepth(a, b) <= Slashes(b)
  {
    var n := MatchLen(a, b);
    MatchLenIsCommonPrefix(a, b);
    SlashesInMonotone(a, n, |a|);
    SlashesInSamePrefix(a, b, n);
    SlashesInMonotone(b, n, |b|);
  }

  /** Against the empty sentinel path the depth is 0, on either side. */
  lemma CommonDepthWithEmpty(a: string)
    ensures CommonDepth([], a) == 0 && CommonDepth(a, []) == 0
  {
  }

  /**
   * Two paths that share a NUL-free prefix `dir` have at least the slashes of
   * `dir` in common, whatever follows.
   */
  lemma CommonDepthOfSharedDirectory(dir: string, x: string, y: string)
    requires '\0' !in dir
    ensures CommonDepth(dir + x, dir + y) >= Slashes(dir)
  {
    MatchFromAfterPrefix(dir, x, y, 0);
    SlashesInMonotone(dir + x, |dir|, MatchLen(dir + x, dir + y));
    SlashesInSamePrefix(dir + x, dir, |dir|);
  }

  // ---------------------------------------------------------------------
  // extractStem
  // ---------------------------------------------------------------------

  /** `s` without one trailing '/', if it has one. */
  function DropTrailingSlash(s: string): (r: string)
    ensures |r| <= |s|
  {
    if s != [] && s[|s| - 1] == '/' then s[..|s| - 1] else s
  }

  /** Exactly one final '/' is removed when there is one, and nothing else changes. */
  lemma DropTrailingSlashShape(s: string)
    ensures var r := DropTrailingSlash(s);
      && r == s[..|r|]
      && (if s != [] && s[|s| - 1] == '/' then |r| == |s| - 1 else r == s)
  {
  }

  /** Index just past the last '/' among the first `n` characters of `s`, or 0 when they hold none. */
  function NameStartBefore(s: string, n: nat): (k: nat)
    requires n <= |s|
    ensures k <= n
    ensures 0 < k ==> s[k - 1] == '/'
  {
    if n == 0 || s[n - 1] == '/' then n else NameStartBefore(s, n - 1)
  }

  /** No '/' lies between NameStartBefore(s, n) and n. */
  lemma {:induction false} NameStartBeforeNoSlash(s: string, n: nat)
    requires n <= |s|
    ensures forall i :: NameStartBefore(s, n) <= i < n ==> s[i] != '/'
  {
    if n > 0 && s[n - 1] != '/' {
      NameStartBeforeNoSlash(s, n - 1);
    }
  }

  /** The three facts of NameStartBefore's contract pin it down. */
  lemma {:induction false} NameStartBeforeUnique(s: string, n: nat, k: nat)
    requires k <= n <= |s|
    requires 0 < k ==> s[k - 1] == '/'
    requires forall i :: k <= i < n ==> s[i] != '/'
    ensures k == NameStartBefore(s, n)
    decreases n
  {
    if k < n {
      NameStartBeforeUnique(s, n - 1, k);
    }
  }

  /** The characters of `s` at indices from .. to-1, collected one at a time. */
  function Chars(s: string, from: nat, to: nat): (r: string)
    requires from <= to <= |s|
    ensures |r| == to - from
    decreases |s| - from
  {
    if from == to then [] else [s[from]] + Chars(s, from + 1, to)
  }

  lemma {:induction false} CharsIsSlice(s: string, from: nat, to: nat)
    requires from <= to <= |s|
    ensures Chars(s, from, to) == s[from..to]
    decreases |s| - from
  {
    if from < to {
      CharsIsSlice(s, from + 1, to);
      assert s[from..to] == [s[from]] + s[from + 1..to];
    }
  }

  /** Where the last component of a non-empty path ends: before a trailing '/', if there is one. */
  function StemEnd(path: string): (end: nat)
    requires path != []
    ensures |path| - 1 <= end <= |path|
  {
    if path[|path| - 1] == '/' then |path| - 1 else |path|
  }

  /** The final component of a non-empty path: one trailing '/' is dropped, then everything after the last remaining '/' is kept. */
  function Stem(path: string): (r: string)
    requires path != []
    ensures |r| <= |path|
  {
    var end := StemEnd(path);
    Chars(path, NameStartBefore(path, end), end)
  }

  /**
   * The stem holds no '/', and it is what follows the last '/' of the path
   * once one trailing '/' is dropped (the whole path when there is none).
   */
  lemma StemIsFinalComponent(path: string)
    requires path != []
    ensures var p := DropTrailingSlash(path);
            var r := Stem(path);
      && '/' !in r
      && |r| <= |p| && r == p[|p| - |r|..]
      && (|r| < |p| ==> p[|p| - |r| - 1] == '/')
  {
    var p := DropTrailingSlash(path);
    DropTrailingSlashShape(path);
    var end := StemEnd(path);
    assert p == path[..end];
    var k := NameStartBefore(path, end);
    NameStartBeforeNoSlash(path, end);
    CharsIsSlice(path, k, end);
    var r := Stem(path);
    assert r == path[k..end];
    assert p[k..] == r;
    forall c | c in r ensures c != '/' {
      var i :| 0 <= i < |r| && r[i] == c;
      assert path[k + i] == c;
    }
  }

  /** The component name is recovered from a path built by joining it under a directory. */
  lemma StemOfJoin(dir: string, name: string)
    requires name != [] && '/' !in name
    ensures Stem(dir + "/" + name) == name
    ensures Stem(dir + "/" + name + "/") == name
    ensures Stem(name) == name && Stem(name + "/") == name
  {
    assert name[|name| - 1] in name;
    forall i | 0 <= i < |name| ensures name[i] != '/' {
      assert name[i] in name;
    }
    var p := dir + "/" + name;
    StemOfPrefix(p, |dir| + 1, name);
    StemOfPrefix(p + "/", |dir| + 1, name);
    StemOfPrefix(name, 0, name);
    StemOfPrefix(name + "/", 0, name);
  }

  /** A path made of a prefix ending in '/' (or nothing), then `name`, then at most one '/', has stem `name`. */
  lemma StemOfPrefix(path: string, k: nat, name: string)
    requires name != [] && forall i :: 0 <= i < |name| ==> name[i] != '/'
    requires k + |name| <= |path| <= k + |name| + 1
    requires path[k..k + |name|] == name
    requires 0 < k ==> path[k - 1] == '/'
    requires |path| == k + |name| + 1 ==> path[|path| - 1] == '/'
    ensures Stem(path) == name
  {
    var end := k + |name|;
    assert path[end - 1] == name[|name| - 1];
    assert StemEnd(path) == end;
    forall i | k <= i < end ensures path[i] != '/' {
      assert path[i] == name[i - k];
    }
    NameStartBeforeUnique(path, end, k);
    CharsIsSlice(path, k, end);
  }

  /** `s` reversed (std::reverse). */
  function Reverse(s: string): (r: string)
    ensures |r| == |s|
    ensures forall i :: 0 <= i < |s| ==> r[i] == s[|s| - 1 - i]
  {
    if s == [] then [] else Reverse(s[1..]) + [s[0]]
  }

  /**
   * extractStem(path): collects the final component backwards, skipping one
   * trailing '/', then reverses it.
   */
  method ExtractStem(path: string) returns (stem: string)
    requires path != []
    ensures stem == Stem(path)
  {
    ghost var end := StemEnd(path);
    var rev: string := [];
    var pos := |path| - 1;
    if path[pos] != '/' {
      rev := rev + [path[pos]];
    }
    pos := pos - 1;
    while pos >= 0 && path[pos] != '/'
      invariant -1 <= pos < end
      invariant |rev| == end - 1 - pos
      invariant forall k :: 0 <= k < |rev| ==> rev[k] == path[end - 1 - k]
      invariant forall k :: pos < k < end ==> path[k] != '/'
    {
      rev := rev + [path[pos]];
      pos := pos - 1;
    }
    stem := Reverse(rev);
    assert stem == path[pos + 1..end];
    NameStartBeforeUnique(path, end, pos + 1);
    CharsIsSlice(path, pos + 1, end);
  }

  // ---------------------------------------------------------------------
  // isSource
  // ---------------------------------------------------------------------

  predicate EndsWith(s: string, suffix: string)
  {
    |suffix| <= |s| && s[|s| - |suffix|..] == suffix
  }

  /** isSource(end): the path ends in one of the six recognised extensions (case-sensitive). */
  predicate IsSource(path: string)
  {
    EndsWith(path, ".cc") || EndsWith(path, ".h") || EndsWith(path, ".cpp") ||
    EndsWith(path, ".c") || EndsWith(path, ".asm") || EndsWith(path, ".inl")
  }

  /** A source path ends in a letter of its extension, never in '/'. */
  lemma SourceShape(path: string)
    requires IsSource(path)
    ensures |path| >= 2 && path[|path| - 1] in "chpml"
    ensures path[|path| - 1] != '/'
  {
    var t := path[|path| - 1];
    if EndsWith(path, ".cc") { assert t == path[|path| - 3..][2]; }
    else if EndsWith(path, ".h") { assert t == path[|path| - 2..][1]; }
    else if EndsWith(path, ".cpp") { assert t == path[|path| - 4..][3]; }
    else if EndsWith(path, ".c") { assert t == path[|path| - 2..][1]; }
    else if EndsWith(path, ".asm") { assert t == path[|path| - 4..][3]; }
    else { assert t == path[|path| - 4..][3]; }
  }

  /** A path with a slash appended is never a source path. */
  lemma DirectoryNotSource(path: string)
    ensures !IsSource(path + "/")
  {
    if IsSource(path + "/") {
      SourceShape(path + "/");
      assert false;
    }
  }

  /** The suffix match is case-sensitive: an upper-case extension is not a source. */
  lemma IsSourceCaseSensitive()
    ensures IsSource("main.cpp")
    ensures !IsSource("main.CPP")
  {
    var up := "main.CPP";
    assert up[5..] != "cpp" && up[6..] != "cc" && up[7..] != "h" && up[7..] != "c";
    assert up[4..] != ".cpp" && up[4..] != ".asm" && up[4..] != ".inl";
    assert up[5..] != ".cc" && up[6..] != ".h" && up[6..] != ".c";
    assert "main.cpp"[4..] == ".cpp";
  }
}
