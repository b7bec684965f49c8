/**
 * The order std::sort uses on entry paths in dump.cpp:
 * std::lexicographical_compare over the characters of the two strings.
 */
module PathOrder {

  /** `a` sorts strictly before `b`: at the first difference `a` has the smaller character, or `a` is a proper prefix of `b`. */
  predicate Less(a: string, b: string)
  {
    if a == [] then b != []
    else if b == [] then false
    else if a[0] != b[0] then a[0] < b[0]
    else Less(a[1..], b[1..])
  }

  /** `a` does not sort after `b`. */
  predicate LessEq(a: string, b: string)
  {
    !Less(b, a)
  }

  /** Length of the plain common prefix of `a` and `b`. */
  function PrefixLen(a: string, b: string): (n: nat)
    ensures n <= |a| && n <= |b| && a[..n] == b[..n]
    ensures n == |a| || n == |b| || a[n] != b[n]
  {
    if a == [] || b == [] || a[0] != b[0] then 0
    else
      var m := PrefixLen(a[1..], b[1..]);
      assert a[..m + 1] == [a[0]] + a[1..][..m];
      assert b[..m + 1] == [b[0]] + b[1..][..m];
      1 + m
  }

  /**
   * Reference reading of lexicographical_compare: look at the first position
   * where the strings differ; `a` is less when it ran out there or has the
   * smaller character.
   */
  lemma {:induction false} LessAtFirstDifference(a: string, b: string)
    ensures var n := PrefixLen(a, b);
      Less(a, b) <==> n < |b| && (n == |a| || a[n] < b[n])
  {
    if a == [] || b == [] || a[0] != b[0] {
    } else {
      LessAtFirstDifference(a[1..], b[1..]);
    }
  }

  lemma {:induction false} Irreflexive(a: string)
    ensures !Less(a, a)
  {
    if a != [] {
      Irreflexive(a[1..]);
    }
  }

  lemma {:induction false} Asymmetric(a: string, b: string)
    requires Less(a, b)
    ensures !Less(b, a)
  {
    if a != [] && b != [] && a[0] == b[0] {
      Asymmetric(a[1..], b[1..]);
    }
  }

  lemma {:induction false} Transitive(a: string, b: string, c: string)
    requires Less(a, b) && Less(b, c)
    ensures Less(a, c)
  {
    if a != [] && a[0] == b[0] && b[0] == c[0] {
      Transitive(a[1..], b[1..], c[1..]);
    }
  }

  /** Any two different strings are ordered one way or the other. */
  lemma {:induction false} Total(a: string, b: string)
    requires a != b
    ensures Less(a, b) || Less(b, a)
  {
    if a != [] && b != [] && a[0] == b[0] {
      assert a == [a[0]] + a[1..] && b == [b[0]] + b[1..];
      Total(a[1..], b[1..]);
    }
  }

  lemma Antisymmetric(a: string, b: string)
    requires LessEq(a, b) && LessEq(b, a)
    ensures a == b
  {
    if a != b {
      Total(a, b);
    }
  }

  lemma LessEqTransitive(a: string, b: string, c: string)
    requires LessEq(a, b) && LessEq(b, c)
    ensures LessEq(a, c)
  {
    if Less(c, a) {
      if a == b {
      } else {
        Total(a, b);
        Transitive(c, a, b);
      }
    }
  }

  /** The empty path sorts before every other path, and nothing sorts before it. */
  lemma EmptyIsLeast(a: string)
    ensures LessEq([], a)
    ensures a != [] ==> Less([], a)
  {
  }
}
