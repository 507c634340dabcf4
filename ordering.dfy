/** Strict total orders, strictly increasing sequences, and Python's `sorted(set(xs))`. */
module Ordering {

  /** `lt` is irreflexive, transitive, and relates any two distinct elements one way. */
  ghost predicate StrictTotalOrder<T(!new)>(lt: (T, T) -> bool) {
    && (forall a :: !lt(a, a))
    && (forall a, b, c :: lt(a, b) && lt(b, c) ==> lt(a, c))
    && (forall a, b :: a != b ==> lt(a, b) || lt(b, a))
  }

  /** Sorted with no repeated element. */
  predicate StrictlyIncreasing<T>(s: seq<T>, lt: (T, T) -> bool) {
    forall i, j :: 0 <= i < j < |s| ==> lt(s[i], s[j])
  }

  /** Puts `x` in its place in the sorted, repetition-free `s`, unless it is already there. */
  function Insert<T(==,!new)>(x: T, s: seq<T>, lt: (T, T) -> bool): (r: seq<T>)
    requires StrictTotalOrder(lt) && StrictlyIncreasing(s, lt)
    ensures StrictlyIncreasing(r, lt)
    ensures forall y :: y in r <==> y == x || y in s
    ensures |r| == if x in s then |s| else |s| + 1
  {
    if |s| == 0 then [x]
    else if x == s[0] then s
    else if lt(x, s[0]) then [x] + s
    else
      var tail := Insert(x, s[1..], lt);
      assert forall y :: y in tail ==> lt(s[0], y);
      [s[0]] + tail
  }

  /** The distinct elements of `xs` in increasing order, as `sorted(set(xs))` gives them. */
  function SortedSet<T(==,!new)>(xs: seq<T>, lt: (T, T) -> bool): (r: seq<T>)
    requires StrictTotalOrder(lt)
    ensures StrictlyIncreasing(r, lt)
    ensures forall y :: y in r <==> y in xs
    ensures |r| <= |xs|
  {
    if |xs| == 0 then []
    else Insert(xs[|xs| - 1], SortedSet(xs[..|xs| - 1], lt), lt)
  }

  /** A strictly increasing sequence is determined by its elements, so `SortedSet` is the only
      sequence meeting its contract. */
  lemma {:induction false} IncreasingUnique<T(!new)>(a: seq<T>, b: seq<T>, lt: (T, T) -> bool)
    requires StrictTotalOrder(lt)
    requires StrictlyIncreasing(a, lt) && StrictlyIncreasing(b, lt)
    requires forall y :: y in a <==> y in b
    ensures a == b
  {
    assert |a| == 0 <==> |b| == 0 by {
      if |a| != 0 { assert a[0] in b; }
      if |b| != 0 { assert b[0] in a; }
    }
    if |a| != 0 {
      HeadIsLeast(b, a[0], lt);
      HeadIsLeast(a, b[0], lt);
      assert a[0] == b[0];
      assert a == [a[0]] + a[1..] && b == [b[0]] + b[1..];
      forall y ensures y in a[1..] <==> y in b[1..] {
        if y in a[1..] {
          var i :| 0 <= i < |a[1..]| && a[1..][i] == y;
          assert lt(a[0], a[i + 1]);
          assert y in b && y != b[0];
        }
        if y in b[1..] {
          var i :| 0 <= i < |b[1..]| && b[1..][i] == y;
          assert lt(b[0], b[i + 1]);
          assert y in a && y != a[0];
        }
      }
      IncreasingUnique(a[1..], b[1..], lt);
    }
  }

  lemma HeadIsLeast<T>(s: seq<T>, y: T, lt: (T, T) -> bool)
    requires StrictlyIncreasing(s, lt) && y in s
    ensures y == s[0] || lt(s[0], y)
  {
    var i :| 0 <= i < |s| && s[i] == y;
    if i != 0 {
      assert lt(s[0], s[i]);
    }
  }

  /** A prefix of a strictly increasing sequence holds its smallest elements: every element
      taken comes before every element left out. */
  lemma {:induction false} PrefixHoldsSmallest<T>(s: seq<T>, n: nat, lt: (T, T) -> bool)
    requires StrictlyIncreasing(s, lt) && n <= |s|
    ensures forall x, y :: x in s[..n] && y in s[n..] ==> lt(x, y)
  {
    forall x, y | x in s[..n] && y in s[n..] ensures lt(x, y) {
      var i :| 0 <= i < n && s[i] == x;
      var j :| n <= j < |s| && s[j] == y;
      assert lt(s[i], s[j]);
    }
  }

  /** Python's `<` on `str`: lexicographic by code point, a proper prefix coming first. */
  predicate StringLess(a: string, b: string) {
    if |a| == 0 then |b| != 0
    else if |b| == 0 then false
    else if a[0] != b[0] then a[0] < b[0]
    else StringLess(a[1..], b[1..])
  }

  lemma {:induction false} StringLessIrreflexive(a: string)
    ensures !StringLess(a, a)
  {
    if |a| != 0 {
      StringLessIrreflexive(a[1..]);
    }
  }

  lemma {:induction false} StringLessTransitive(a: string, b: string, c: string)
    requires StringLess(a, b) && StringLess(b, c)
    ensures StringLess(a, c)
  {
    if |a| != 0 && a[0] == b[0] && b[0] == c[0] {
      StringLessTransitive(a[1..], b[1..], c[1..]);
    }
  }

  lemma {:induction false} StringLessTotal(a: string, b: string)
    requires a != b
    ensures StringLess(a, b) || StringLess(b, a)
  {
    if |a| != 0 && |b| != 0 && a[0] == b[0] {
      assert a == [a[0]] + a[1..] && b == [b[0]] + b[1..];
      StringLessTotal(a[1..], b[1..]);
    }
  }

  /** String comparison is a strict total order, so station names sort as Python sorts them. */
  lemma StringOrder()
    ensures StrictTotalOrder(StringLess)
  {
    forall a ensures !StringLess(a, a) {
      StringLessIrreflexive(a);
    }
    forall a, b, c | StringLess(a, b) && StringLess(b, c) ensures StringLess(a, c) {
      StringLessTransitive(a, b, c);
    }
    forall a, b | a != b ensures StringLess(a, b) || StringLess(b, a) {
      StringLessTotal(a, b);
    }
  }

  /** Order of timestamps (hours since an epoch). */
  predicate Earlier(s: int, t: int) {
    s < t
  }

  lemma TimeOrder()
    ensures StrictTotalOrder(Earlier)
  {
  }
}
