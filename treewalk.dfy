/**
 * The tree walk of RunMain in dump.cpp (lines 159-201). The JSON text is
 * modelled as events: an Open stands for the lines printed for one entry
 * ("{", its "data"/"$area", its "name", and "children": [) at its indent, a
 * Close for the "]" / "}," pair printed by a close loop at one indent.
 */
module TreeWalk {
  import opened Wrappers
  import opened Paths
  import opened PathOrder
  import opened Entries

  datatype Event = Open(depth: int, name: string, area: nat) | Close(depth: int)

  /** The emitted document: the root's children, and the "$area" printed for the root. */
  datatype Tree = Tree(children: seq<Event>, area: nat)

  /** The variables of the walk: lastIndent, total, and what has been printed so far. */
  datatype State = State(lastIndent: int, total: nat, events: seq<Event>)

  /** The indent of an entry whose predecessor in sorted order has path `prev`. */
  function Indent(prev: string, cur: string): (indent: int)
    ensures indent >= 2 && indent % 2 == 0
    ensures indent == 2 <==> CommonDepth(prev, cur) == 0
  {
    2 * CommonDepth(prev, cur) + 2
  }

  /** The close loop `for (j = from; j >= to; j -= 2)`: one Close per iteration. */
  function Closes(from: int, to: int): seq<Event>
    decreases from - to + 2
  {
    if from < to then [] else [Close(from)] + Closes(from - 2, to)
  }

  /**
   * The close loop runs (from - to) / 2 + 1 times when from >= to and not at
   * all otherwise, and iteration k closes the block at indent from - 2k.
   */
  lemma {:induction false} ClosesCountDown(from: int, to: int)
    ensures |Closes(from, to)| == if from >= to then (from - to) / 2 + 1 else 0
    ensures forall k :: 0 <= k < |Closes(from, to)| ==> Closes(from, to)[k] == Close(from - 2 * k)
    decreases from - to + 2
  {
    if from >= to {
      ClosesCountDown(from - 2, to);
    }
  }

  /** Every entry after the sentinel has a path, so it has a stem to print. */
  predicate Named(v: seq<Entry>)
  {
    forall k :: 1 <= k < |v| ==> v[k].path != []
  }

  /** What the loop works out for one entry before printing it: its indent, its stem and its size. */
  datatype Visit = Visit(indent: int, name: string, size: nat)

  /** The visit of entry `cur`, whose predecessor in sorted order is `prev`. */
  function VisitOf(prev: Entry, cur: Entry): (e: Visit)
    requires cur.path != []
    ensures e.indent >= 2 && e.indent % 2 == 0 && e.size == cur.size
  {
    Visit(Indent(prev.path, cur.path), Stem(cur.path), cur.size)
  }

  /** The visits of entries 1 .. |v|-1, each against the entry before it. */
  function Visits(v: seq<Entry>): (r: seq<Visit>)
    requires 1 <= |v| && Named(v)
    ensures |r| == |v| - 1
  {
    VisitsUpTo(v, |v|)
  }

  /** The visits of entries 1 .. n-1. */
  function VisitsUpTo(v: seq<Entry>, n: nat): (r: seq<Visit>)
    requires 1 <= n <= |v| && Named(v)
    ensures |r| == n - 1
  {
    if n == 1 then [] else VisitsUpTo(v, n - 1) + [VisitOf(v[n - 2], v[n - 1])]
  }

  /** Visit k of the first n-1 is entry k+1 against entry k. */
  lemma {:induction false} VisitsUpToAt(v: seq<Entry>, n: nat, k: nat)
    requires k + 1 < n <= |v| && Named(v)
    ensures VisitsUpTo(v, n)[k] == VisitOf(v[k], v[k + 1])
  {
    if k + 2 < n {
      VisitsUpToAt(v, n - 1, k);
    }
  }

  /** Visit k is entry k+1 visited against entry k. */
  lemma {:induction false} VisitAt(v: seq<Entry>, k: nat)
    requires 1 <= |v| && Named(v) && k < |v| - 1
    ensures Visits(v)[k] == VisitOf(v[k], v[k + 1])
  {
    VisitsUpToAt(v, |v|, k);
  }

  /** One iteration of the walk: close down to the visit's indent, count it at indent 2, open its block. */
  function Step(s: State, e: Visit): State
  {
    State(e.indent,
          if e.indent == 2 then s.total + e.size else s.total,
          s.events + Closes(s.lastIndent, e.indent) + [Open(e.indent, e.name, e.size)])
  }

  /** The walk's state after the first n visits. */
  function Run(ls: seq<Visit>, n: nat): State
    requires n <= |ls|
  {
    if n == 0 then State(0, 0, []) else Step(Run(ls, n - 1), ls[n - 1])
  }

  /** The whole document: the walk, the final close loop down to indent 2, and the root's total. */
  function Emit(v: seq<Entry>): Tree
    requires 1 <= |v| && Named(v)
  {
    var s := Run(Visits(v), |v| - 1);
    Tree(s.events + Closes(s.lastIndent, 2), s.total)
  }

  /** A close loop `for (j = from; j >= to; j -= 2)`, appending what it prints to `events`. */
  method CloseLoop(events: seq<Event>, from: int, to: int) returns (out: seq<Event>)
    ensures out == events + Closes(from, to)
  {
    out := events;
    var j := from;
    while j >= to
      invariant events + Closes(from, to) == out + Closes(j, to)
      decreases j - to + 2
    {
      out := out + [Close(j)];
      j := j - 2;
    }
  }

  /** The body of the loop at lines 167-187: one entry's indent, total, close loop and opening. */
  method VisitEntry(lastIndent: int, total: nat, events: seq<Event>, prev: Entry, cur: Entry)
    returns (indent: int, newTotal: nat, newEvents: seq<Event>)
    requires cur.path != []
    ensures State(indent, newTotal, newEvents) == Step(State(lastIndent, total, events), VisitOf(prev, cur))
  {
    var depth := CommonParent(prev.path, cur.path);
    indent := 2 * depth + 2;
    newTotal := total;
    if indent == 2 {
      newTotal := newTotal + cur.size;
    }
    newEvents := CloseLoop(events, lastIndent, indent);
    var stem := ExtractStem(cur.path);
    newEvents := newEvents + [Open(indent, stem, cur.size)];
  }

  /** The loop at lines 166-188 of RunMain: visit every entry after the sentinel. */
  method WalkEntries(v: seq<Entry>) returns (s: State)
    requires 1 <= |v| && Named(v)
    ensures s == Run(Visits(v), |v| - 1)
  {
    ghost var ls := Visits(v);
    var total: nat := 0;
    var lastIndent := 0;
    var events: seq<Event> := [];
    var i := 1;
    while i < |v|
      invariant 1 <= i <= |v|
      invariant Run(ls, i - 1) == State(lastIndent, total, events)
    {
      VisitAt(v, i - 1);
      lastIndent, total, events := VisitEntry(lastIndent, total, events, v[i - 1], v[i]);
      i := i + 1;
    }
    s := State(lastIndent, total, events);
  }

  /** Lines 159-201 of RunMain, with the printing replaced by events. */
  method EmitTree(v: seq<Entry>) returns (t: Tree)
    requires 1 <= |v| && Named(v)
    ensures t == Emit(v)
  {
    var s := WalkEntries(v);
    var closed := CloseLoop(s.events, s.lastIndent, 2);
    t := Tree(closed, s.total);
  }

  // ---------------------------------------------------------------------
  // The root's total
  // ---------------------------------------------------------------------

  /** Sizes of the first n visits that are at indent 2. */
  function TopSize(ls: seq<Visit>, n: nat): nat
    requires n <= |ls|
  {
    if n == 0 then 0 else TopSize(ls, n - 1) + if ls[n - 1].indent == 2 then ls[n - 1].size else 0
  }

  /** The walk's total after n visits is the size of those of them at indent 2. */
  lemma {:induction false} RunTotal(ls: seq<Visit>, n: nat)
    requires n <= |ls|
    ensures Run(ls, n).total == TopSize(ls, n)
  {
    if n > 0 {
      RunTotal(ls, n - 1);
    }
  }

  /**
   * Sizes of the entries from index k on that share no directory with the
   * entry before them: the top-level children of the root.
   */
  function TopLevelArea(v: seq<Entry>, k: nat): nat
    requires 1 <= k <= |v|
    decreases |v| - k
  {
    if k == |v| then 0
    else (if CommonDepth(v[k - 1].path, v[k].path) == 0 then v[k].size else 0) + TopLevelArea(v, k + 1)
  }

  lemma {:induction false} TopSizeOfVisits(v: seq<Entry>, n: nat)
    requires 1 <= n <= |v| && Named(v)
    ensures TopSize(Visits(v), n - 1) + TopLevelArea(v, n) == TopLevelArea(v, 1)
  {
    if n > 1 {
      TopSizeOfVisits(v, n - 1);
      VisitAt(v, n - 2);
    }
  }

  /** The root's "$area" is the sum of the sizes of exactly the entries at indent 2. */
  lemma {:induction false} RootAreaIsTopLevelSum(v: seq<Entry>)
    requires 1 <= |v| && Named(v)
    ensures Emit(v).area == TopLevelArea(v, 1)
  {
    RunTotal(Visits(v), |v| - 1);
    TopSizeOfVisits(v, |v|);
  }

  /** After the sentinel, the first entry always opens at indent 2 and counts towards the total. */
  lemma {:induction false} FirstEntryAtTop(v: seq<Entry>)
    requires 2 <= |v| && Named(v) && v[0] == Sentinel
    ensures Run(Visits(v), 1) == State(2, v[1].size, [Open(2, Stem(v[1].path), v[1].size)])
  {
    CommonDepthWithEmpty(v[1].path);
    VisitAt(v, 0);
  }

  /** An empty table gives a root without children and with area 0. */
  lemma EmptyTable()
    ensures Emit([Sentinel]) == Tree([], 0)
  {
  }

  // ---------------------------------------------------------------------
  // Nesting of the emitted blocks
  // ---------------------------------------------------------------------

  /**
   * Replays events from index `i` on against the stack of open blocks'
   * indents: an Open must be one level (two columns) inside the innermost open
   * block, a Close must close the innermost open block. None when the text
   * would be badly nested.
   */
  function ReplayFrom(stack: seq<int>, events: seq<Event>, i: nat): Option<seq<int>>
    requires i <= |events|
    decreases |events| - i
  {
    if i == |events| then Some(stack)
    else match events[i]
      case Open(d, _, _) =>
        if d == 2 * |stack| + 2 then ReplayFrom(stack + [d], events, i + 1) else None
      case Close(d) =>
        if stack != [] && stack[|stack| - 1] == d then ReplayFrom(stack[..|stack| - 1], events, i + 1) else None
  }

  /** The stack after replaying all of `events`, or None when they are badly nested. */
  function Replay(stack: seq<int>, events: seq<Event>): Option<seq<int>>
  {
    ReplayFrom(stack, events, 0)
  }

  lemma {:induction false} ReplayFromPrefix(stack: seq<int>, a: seq<Event>, b: seq<Event>, i: nat)
    requires i <= |a|
    ensures ReplayFrom(stack, a + b, i) ==
      match ReplayFrom(stack, a, i)
      case None => None
      case Some(s) => ReplayFrom(s, a + b, |a|)
    decreases |a| - i
  {
    if i < |a| {
      assert (a + b)[i] == a[i];
      match a[i]
      case Open(d, _, _) =>
        if d == 2 * |stack| + 2 {
          ReplayFromPrefix(stack + [d], a, b, i + 1);
        }
      case Close(d) =>
        if stack != [] && stack[|stack| - 1] == d {
          ReplayFromPrefix(stack[..|stack| - 1], a, b, i + 1);
        }
    }
  }

  lemma {:induction false} ReplayFromSuffix(stack: seq<int>, a: seq<Event>, b: seq<Event>, j: nat)
    requires j <= |b|
    ensures ReplayFrom(stack, a + b, |a| + j) == ReplayFrom(stack, b, j)
    decreases |b| - j
  {
    if j < |b| {
      assert (a + b)[|a| + j] == b[j];
      match b[j]
      case Open(d, _, _) =>
        if d == 2 * |stack| + 2 {
          ReplayFromSuffix(stack + [d], a, b, j + 1);
        }
      case Close(d) =>
        if stack != [] && stack[|stack| - 1] == d {
          ReplayFromSuffix(stack[..|stack| - 1], a, b, j + 1);
        }
    }
  }

  /** Replaying two stretches of output is replaying the first, then the second from where it left off. */
  lemma {:induction false} ReplayAppend(stack: seq<int>, a: seq<Event>, b: seq<Event>)
    ensures Replay(stack, a + b) ==
      match Replay(stack, a)
      case None => None
      case Some(s) => Replay(s, b)
  {
    ReplayFromPrefix(stack, a, b, 0);
    match Replay(stack, a)
    case None =>
    case Some(s) => ReplayFromSuffix(s, a, b, 0);
  }

  /** The stack of a walk that has `n` blocks open: indents 2, 4, ..., 2n. */
  function Ladder(n: nat): (r: seq<int>)
    ensures |r| == n
    ensures forall k :: 0 <= k < n ==> r[k] == 2 * k + 2
  {
    if n == 0 then [] else Ladder(n - 1) + [2 * n]
  }

  /** A close loop from `from` down to `to` pops exactly the blocks at those indents. */
  lemma {:induction false} ReplayCloses(from: int, to: int)
    requires 0 <= from && from % 2 == 0 && to % 2 == 0 && 2 <= to <= from + 2
    ensures Replay(Ladder(from / 2), Closes(from, to)) == Some(Ladder(to / 2 - 1))
    decreases from
  {
    if from >= to {
      var st := Ladder(from / 2);
      assert st[..|st| - 1] == Ladder((from - 2) / 2);
      ReplayCloses(from - 2, to);
      assert st[|st| - 1] == from;
      assert ReplayFrom(st[..|st| - 1], [Close(from)], 1) == Some(st[..|st| - 1]);
      assert Replay(st, [Close(from)]) == Some(st[..|st| - 1]);
      assert Closes(from, to) == [Close(from)] + Closes(from - 2, to);
      ReplayAppend(st, [Close(from)], Closes(from - 2, to));
    } else {
      assert from / 2 == to / 2 - 1;
    }
  }

  /** Blocks open before the step fit the ladder: the step keeps them fitting when it does not skip a level. */
  lemma {:induction false} StepNests(events: seq<Event>, last: int, indent: int, e: Event)
    requires last >= 0 && last % 2 == 0 && indent >= 2 && indent % 2 == 0
    requires Replay([], events) == Some(Ladder(last / 2))
    requires e.Open? && e.depth == indent
    ensures indent <= last + 2 ==> Replay([], events + Closes(last, indent) + [e]) == Some(Ladder(indent / 2))
    ensures indent > last + 2 ==> Replay([], events + Closes(last, indent) + [e]).None?
  {
    var closes := Closes(last, indent);
    ReplayAppend([], events + closes, [e]);
    ReplayAppend([], events, closes);
    if indent <= last + 2 {
      ReplayCloses(last, indent);
      assert Ladder(indent / 2 - 1) + [indent] == Ladder(indent / 2);
      assert ReplayFrom(Ladder(indent / 2), [e], 1) == Some(Ladder(indent / 2));
      assert Replay(Ladder(indent / 2 - 1), [e]) == Some(Ladder(indent / 2));
    } else {
      assert closes == [];
    }
  }

  /** One step of the walk keeps the output nested exactly when it was nested before and the visit does not skip a level. */
  lemma {:induction false} NestStep(s: State, e: Visit, nested: bool)
    requires e.indent >= 2 && e.indent % 2 == 0 && s.lastIndent >= 0 && s.lastIndent % 2 == 0
    requires nested ==> Replay([], s.events) == Some(Ladder(s.lastIndent / 2))
    requires !nested ==> Replay([], s.events).None?
    ensures var t := Step(s, e);
            var ok := nested && e.indent <= s.lastIndent + 2;
      && (ok ==> Replay([], t.events) == Some(Ladder(t.lastIndent / 2)))
      && (!ok ==> Replay([], t.events).None?)
  {
    var open := Open(e.indent, e.name, e.size);
    var closes := Closes(s.lastIndent, e.indent);
    if nested {
      StepNests(s.events, s.lastIndent, e.indent, open);
    } else {
      ReplayAppend([], s.events + closes, [open]);
      ReplayAppend([], s.events, closes);
    }
  }

  /** Every visit's indent is even and at least 2. */
  predicate Indented(ls: seq<Visit>)
  {
    forall k :: 0 <= k < |ls| ==> ls[k].indent >= 2 && ls[k].indent % 2 == 0
  }

  /** lastIndent after the first n visits: 0 before any. */
  function LastIndent(ls: seq<Visit>, n: nat): int
    requires n <= |ls|
  {
    if n == 0 then 0 else ls[n - 1].indent
  }

  /** None of the first n visits opens more than one level deeper than the one before it. */
  predicate NoSkip(ls: seq<Visit>, n: nat)
    requires n <= |ls|
  {
    forall k {:trigger LastIndent(ls, k)} :: 0 <= k < n ==> ls[k].indent <= LastIndent(ls, k) + 2
  }

  lemma RunIndent(ls: seq<Visit>, n: nat)
    requires n <= |ls|
    ensures Run(ls, n).lastIndent == LastIndent(ls, n)
  {
  }

  /**
   * The output of the first n visits is well nested, with one open block per
   * level up to the last visit's, exactly when none of them skipped a level;
   * otherwise it is already badly nested.
   */
  lemma {:induction false} RunNesting(ls: seq<Visit>, n: nat)
    requires n <= |ls| && Indented(ls)
    ensures NoSkip(ls, n) ==> Replay([], Run(ls, n).events) == Some(Ladder(Run(ls, n).lastIndent / 2))
    ensures !NoSkip(ls, n) ==> Replay([], Run(ls, n).events).None?
  {
    if n > 0 {
      RunNesting(ls, n - 1);
      RunIndent(ls, n - 1);
      assert NoSkip(ls, n) <==> NoSkip(ls, n - 1) && ls[n - 1].indent <= LastIndent(ls, n - 1) + 2;
      NestStep(Run(ls, n - 1), ls[n - 1], NoSkip(ls, n - 1));
    }
  }

  /** The indent of the entry before entry k (0 before the first). */
  function PrevIndent(v: seq<Entry>, k: nat): int
    requires 1 <= k < |v|
  {
    if k == 1 then 0 else Indent(v[k - 2].path, v[k - 1].path)
  }

  /**
   * No entry opens more than one level deeper than the entry before it: each
   * directory on the way down has its own row.
   */
  predicate NoSkippedLevel(v: seq<Entry>)
  {
    forall k {:trigger PrevIndent(v, k)} :: 1 <= k < |v| ==> Indent(v[k - 1].path, v[k].path) <= PrevIndent(v, k) + 2
  }

  /** The visits of a table have even indents of at least 2, and skip no level exactly when the entries skip none. */
  lemma {:induction false} VisitsClimb(v: seq<Entry>)
    requires 1 <= |v| && Named(v)
    ensures Indented(Visits(v))
    ensures NoSkippedLevel(v) <==> NoSkip(Visits(v), |v| - 1)
  {
    var ls := Visits(v);
    forall k | 0 <= k < |ls| ensures ls[k].indent >= 2 && ls[k].indent % 2 == 0 {
      VisitAt(v, k);
    }
    if NoSkippedLevel(v) {
      forall k | 0 <= k < |ls| ensures ls[k].indent <= LastIndent(ls, k) + 2 {
        VisitIndents(v, k);
        assert Indent(v[k].path, v[k + 1].path) <= PrevIndent(v, k + 1) + 2;
      }
    }
    if NoSkip(ls, |ls|) {
      forall k | 1 <= k < |v| ensures Indent(v[k - 1].path, v[k].path) <= PrevIndent(v, k) + 2 {
        VisitIndents(v, k - 1);
        assert ls[k - 1].indent <= LastIndent(ls, k - 1) + 2;
      }
    }
  }

  /** Visit k is entry k+1 against entry k, and the lastIndent before it is the previous entry's indent. */
  lemma {:induction false} VisitIndents(v: seq<Entry>, k: nat)
    requires 1 <= |v| && Named(v) && k < |v| - 1
    ensures Visits(v)[k].indent == Indent(v[k].path, v[k + 1].path)
    ensures LastIndent(Visits(v), k) == PrevIndent(v, k + 1)
  {
    var ls := Visits(v);
    VisitAt(v, k);
    if k > 0 {
      VisitAt(v, k - 1);
    }
  }

  /**
   * The emitted blocks are properly nested, each at the indent of its depth,
   * and all closed at the end, exactly when no entry skips a directory level;
   * otherwise the text goes wrong at the first skipping entry.
   */
  lemma {:induction false} EmitNesting(v: seq<Entry>)
    requires 1 <= |v| && Named(v)
    ensures NoSkippedLevel(v) ==> Replay([], Emit(v).children) == Some([])
    ensures !NoSkippedLevel(v) ==> Replay([], Emit(v).children).None?
  {
    var ls := Visits(v);
    var s := Run(ls, |ls|);
    VisitsClimb(v);
    RunNesting(ls, |ls|);
    RunIndent(ls, |ls|);
    ReplayAppend([], s.events, Closes(s.lastIndent, 2));
    if NoSkippedLevel(v) {
      ReplayCloses(s.lastIndent, 2);
    }
  }

  /** With the sentinel first, the first real entry never skips a level. */
  lemma {:induction false} SentinelStartsAtTop(v: seq<Entry>)
    requires 2 <= |v| && v[0] == Sentinel
    ensures Indent(v[0].path, v[1].path) <= PrevIndent(v, 1) + 2
  {
    CommonDepthWithEmpty(v[1].path);
  }

  // ---------------------------------------------------------------------
  // Worked examples
  // ---------------------------------------------------------------------

  /**
   * Two rows with the same directory path are both kept. The first one after
   * the sort opens at indent 2 and the second one nests inside it at indent 4,
   * so the root's total counts only the size of whichever row std::sort put
   * first: both orders are sorted permutations of the same entries.
   */
  lemma {:induction false} TieOrderDecidesArea(dir: string, x: nat, y: nat)
    requires Component(dir)
    ensures var p := dir + "/";
            var v1 := [Sentinel, Entry(p, x), Entry(p, y)];
            var v2 := [Sentinel, Entry(p, y), Entry(p, x)];
      && SortedByPath(v1) && SortedByPath(v2) && multiset(v1) == multiset(v2)
      && Emit(v1).area == x && Emit(v2).area == y
  {
    var p := dir + "/";
    DirectoryIndents(dir);
    Irreflexive(p);
    EmptyIsLeast(p);
    WalkDownArea([Sentinel, Entry(p, x), Entry(p, y)]);
    WalkDownArea([Sentinel, Entry(p, y), Entry(p, x)]);
  }

  /** A directory row `d/` opens at indent 2 after the sentinel, and a second row for it at indent 4. */
  lemma {:induction false} DirectoryIndents(d: string)
    requires Component(d)
    ensures Indent(Sentinel.path, d + "/") == 2 && Indent(d + "/", d + "/") == 4
  {
    var p := d + "/";
    assert '\0' !in p;
    MatchLenSelf(p);
    assert p[..|p|] == p;
    DirectorySlashes(d);
    CommonDepthWithEmpty(p);
  }

  /** A path component: non-empty, without '/' or NUL. */
  predicate Component(name: string)
  {
    name != [] && '/' !in name && '\0' !in name
  }

  /** A directory path `d/` holds one '/'. */
  lemma {:induction false} DirectorySlashes(d: string)
    requires Component(d)
    ensures Slashes(d + "/") == 1
  {
    SlashesAppend(d, "/");
    NoSlashes(d);
  }

  /** Two entries under directory `d` whose names start differently sit one level down. */
  lemma {:induction false} SiblingIndent(d: string, x: string, y: string)
    requires Component(d)
    requires x == [] || y == [] || x[0] != y[0]
    ensures Indent(d + "/" + x, d + "/" + y) == 4
  {
    var dir := d + "/";
    assert '\0' !in dir;
    assert dir + x == d + "/" + x && dir + y == d + "/" + y;
    CommonDepthAfterPrefix(dir, x, y);
    DirectorySlashes(d);
  }

  /** Paths whose first characters differ share no directory. */
  lemma {:induction false} TopIndent(a: string, b: string)
    requires a != [] && b != [] && a[0] != b[0]
    ensures Indent(a, b) == 2
  {
    CommonDepthAfterPrefix([], a, b);
    assert [] + a == a && [] + b == b;
  }

  /** The root's area over two rows whose indents go 2, 4: the nested row is not counted. */
  lemma {:induction false} WalkDownArea(v: seq<Entry>)
    requires |v| == 3 && Named(v)
    requires Indent(v[0].path, v[1].path) == 2 && Indent(v[1].path, v[2].path) == 4
    ensures Emit(v).area == v[1].size
  {
    RootAreaIsTopLevelSum(v);
    assert TopLevelArea(v, 2) == 0;
  }

  /** The root's area over three rows whose indents go 2, 4, 2: the nested row is not counted. */
  lemma {:induction false} WalkDownUpArea(v: seq<Entry>)
    requires |v| == 4 && Named(v)
    requires Indent(v[0].path, v[1].path) == 2 && Indent(v[1].path, v[2].path) == 4
    requires Indent(v[2].path, v[3].path) == 2
    ensures Emit(v).area == v[1].size + v[3].size
  {
    RootAreaIsTopLevelSum(v);
    assert TopLevelArea(v, 3) == v[3].size;
  }

  /** The root's area over four rows whose indents go 2, 4, 4, 2: the nested rows are not counted. */
  lemma {:induction false} WalkDownAcrossUpArea(v: seq<Entry>)
    requires |v| == 5 && Named(v)
    requires Indent(v[0].path, v[1].path) == 2 && Indent(v[1].path, v[2].path) == 4
    requires Indent(v[2].path, v[3].path) == 4 && Indent(v[3].path, v[4].path) == 2
    ensures Emit(v).area == v[1].size + v[4].size
  {
    RootAreaIsTopLevelSum(v);
    assert TopLevelArea(v, 4) == v[4].size;
    assert TopLevelArea(v, 2) == v[4].size;
  }

  /**
   * A directory row `d/` with files `d/x` and `d/y` under it, then a
   * top-level file `z`, in sorted order: the root's area is the directory's
   * size plus z's; x and y sit one level down and are not counted again.
   */
  lemma {:induction false} DirectoryRowArea(d: string, x: string, y: string, z: string, sd: nat, sx: nat, sy: nat, sz: nat)
    requires Component(d) && Component(x) && Component(y) && Component(z)
    requires x[0] != y[0] && d[0] != z[0]
    ensures Emit([Sentinel, Entry(d + "/", sd), Entry(d + "/" + x, sx), Entry(d + "/" + y, sy), Entry(z, sz)]).area
         == sd + sz
  {
    CommonDepthWithEmpty(d + "/");
    SiblingIndent(d, [], x);
    assert d + "/" + [] == d + "/";
    SiblingIndent(d, x, y);
    TopIndent(d + "/" + y, z);
    WalkDownAcrossUpArea([Sentinel, Entry(d + "/", sd), Entry(d + "/" + x, sx), Entry(d + "/" + y, sy), Entry(z, sz)]);
  }

  /**
   * The same files without the row for directory `d`: x is then the first
   * row at indent 2, so the root's area counts x and z, and y (one level
   * down again) is left out.
   */
  lemma {:induction false} MissingDirectoryRowArea(d: string, x: string, y: string, z: string, sx: nat, sy: nat, sz: nat)
    requires Component(d) && Component(x) && Component(y) && Component(z)
    requires x[0] != y[0] && d[0] != z[0]
    ensures Emit([Sentinel, Entry(d + "/" + x, sx), Entry(d + "/" + y, sy), Entry(z, sz)]).area == sx + sz
  {
    CommonDepthWithEmpty(d + "/" + x);
    SiblingIndent(d, x, y);
    TopIndent(d + "/" + y, z);
    WalkDownUpArea([Sentinel, Entry(d + "/" + x, sx), Entry(d + "/" + y, sy), Entry(z, sz)]);
  }
}
