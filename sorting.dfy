/**
 * Python's `sorted(set(xs))`: the distinct elements of a collection in
 * ascending order. The order is a parameter so that one definition serves
 * both the person ids (integers) and the e-mail addresses (strings).
 */
module Sorting {

  /** `lt` is a strict total order: irreflexive, total and transitive. */
  ghost predicate StrictTotalOrder<T(!new)>(lt: (T, T) -> bool) {
    && (forall a :: !lt(a, a))
    && (forall a, b :: lt(a, b) || a == b || lt(b, a))
    && (forall a, b, c :: lt(a, b) && lt(b, c) ==> lt(a, c))
  }

  /** Every element is strictly below every later one (so there are no duplicates). */
  predicate StrictlySorted<T>(s: seq<T>, lt: (T, T) -> bool) {
    forall i, j :: 0 <= i < j < |s| ==> lt(s[i], s[j])
  }

  /** The set of elements of a sequence. */
  function Elements<T>(s: seq<T>): set<T> {
    set x | x in s
  }

  predicate IsMinimum<T(==)>(m: T, s: set<T>, lt: (T, T) -> bool) {
    m in s && forall x | x in s && x != m :: lt(m, x)
  }

  lemma {:induction false} HasMinimum<T(!new)>(s: set<T>, lt: (T, T) -> bool)
    requires StrictTotalOrder(lt) && s != {}
    ensures exists m :: IsMinimum(m, s, lt)
    decreases |s|
  {
    var x :| x in s;
    if s == {x} {
      assert IsMinimum(x, s, lt);
    } else {
      HasMinimum(s - {x}, lt);
      var m :| IsMinimum(m, s - {x}, lt);
      if lt(x, m) {
        forall y | y in s && y != x ensures lt(x, y) {
          if y != m {
            assert lt(m, y);
          }
        }
        assert IsMinimum(x, s, lt);
      } else {
        assert x != m && lt(m, x);
        assert IsMinimum(m, s, lt);
      }
    }
  }

  lemma MinimumIsUnique<T(!new)>(s: set<T>, lt: (T, T) -> bool)
    requires StrictTotalOrder(lt)
    ensures forall m, n :: IsMinimum(m, s, lt) && IsMinimum(n, s, lt) ==> m == n
  {
  }

  /** `sorted(s)` for a set `s`: its elements, ascending, each once. */
  function SortedSet<T(==,!new)>(s: set<T>, lt: (T, T) -> bool): (r: seq<T>)
    requires StrictTotalOrder(lt)
    ensures StrictlySorted(r, lt)
    ensures Elements(r) == s && |r| == |s|
    decreases |s|
  {
    if s == {} then []
    else
      HasMinimum(s, lt);
      MinimumIsUnique(s, lt);
      var m :| IsMinimum(m, s, lt);
      var rest := SortedSet(s - {m}, lt);
      MinimumCons(m, rest, s, lt);
      [m] + rest
  }

  /** The minimum of a set followed by the rest of it, sorted, is the whole set sorted. */
  lemma MinimumCons<T>(m: T, rest: seq<T>, s: set<T>, lt: (T, T) -> bool)
    requires IsMinimum(m, s, lt) && StrictlySorted(rest, lt) && Elements(rest) == s - {m}
    ensures StrictlySorted([m] + rest, lt) && Elements([m] + rest) == s
  {
    assert forall j :: 0 <= j < |rest| ==> rest[j] in s - {m};
    assert Elements([m] + rest) == {m} + Elements(rest);
  }

  /**
   * A strictly sorted sequence is determined by its elements: whatever
   * computes `sorted(set(xs))` agrees with `SortedSet`.
   */
  lemma {:induction false} StrictlySortedIsUnique<T(!new)>(a: seq<T>, b: seq<T>, lt: (T, T) -> bool)
    requires StrictTotalOrder(lt)
    requires StrictlySorted(a, lt) && StrictlySorted(b, lt)
    requires Elements(a) == Elements(b)
    ensures a == b
    decreases |a|
  {
    if a != [] && b != [] {
      assert a[0] == b[0] by {
        assert b[0] in Elements(a);
        assert a[0] in Elements(b);
      }
      assert Elements(a[1..]) == Elements(b[1..]) by {
        forall x | x in Elements(a[1..]) ensures x in Elements(b[1..]) {
          var i :| 1 <= i < |a| && a[i] == x;
          assert lt(a[0], x);
          assert x in Elements(b);
          var j :| 0 <= j < |b| && b[j] == x;
          assert j != 0;
          assert b[1..][j - 1] == x;
        }
        forall x | x in Elements(b[1..]) ensures x in Elements(a[1..]) {
          var j :| 1 <= j < |b| && b[j] == x;
          assert lt(b[0], x);
          assert x in Elements(a);
          var i :| 0 <= i < |a| && a[i] == x;
          assert i != 0;
          assert a[1..][i - 1] == x;
        }
      }
      StrictlySortedIsUnique(a[1..], b[1..], lt);
    } else {
      ElementsOfEmpty(a);
      ElementsOfEmpty(b);
    }
  }

  lemma ElementsOfEmpty<T>(s: seq<T>)
    ensures Elements(s) == {} <==> s == []
  {
    if s != [] {
      assert s[0] in Elements(s);
    }
  }

  /** The order of Python integers. */
  predicate IntLess(a: int, b: int) {
    a < b
  }

  lemma IntLessIsStrictTotalOrder()
    ensures StrictTotalOrder(IntLess)
  {
  }

  /**
   * The order of Python strings: lexicographic on code points, a proper
   * prefix coming first.
   */
  predicate StrLess(a: string, b: string) {
    if |a| == 0 then |b| > 0
    else if |b| == 0 then false
    else if a[0] != b[0] then a[0] < b[0]
    else StrLess(a[1..], b[1..])
  }

  lemma {:induction false} StrLessIrreflexive(a: string)
    ensures !StrLess(a, a)
  {
    if |a| > 0 {
      StrLessIrreflexive(a[1..]);
    }
  }

  lemma {:induction false} StrLessTotal(a: string, b: string)
    ensures StrLess(a, b) || a == b || StrLess(b, a)
  {
    if |a| > 0 && |b| > 0 && a[0] == b[0] {
      StrLessTotal(a[1..], b[1..]);
      if a[1..] == b[1..] {
        assert a == [a[0]] + a[1..] && b == [b[0]] + b[1..];
      }
    }
  }

  lemma {:induction false} StrLessTransitive(a: string, b: string, c: string)
    requires StrLess(a, b) && StrLess(b, c)
    ensures StrLess(a, c)
  {
    if |a| > 0 && |b| > 0 && |c| > 0 && a[0] == b[0] && b[0] == c[0] {
      StrLessTransitive(a[1..], b[1..], c[1..]);
    }
  }

  lemma StrLessIsStrictTotalOrder()
    ensures StrictTotalOrder(StrLess)
  {
    forall a ensures !StrLess(a, a) {
      StrLessIrreflexive(a);
    }
    forall a, b ensures StrLess(a, b) || a == b || StrLess(b, a) {
      StrLessTotal(a, b);
    }
    forall a, b, c | StrLess(a, b) && StrLess(b, c) ensures StrLess(a, c) {
      StrLessTransitive(a, b, c);
    }
  }
}
