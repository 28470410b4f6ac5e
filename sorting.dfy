/**
 * Ordering and selection on sequences, shared by the SQL `ORDER BY` clauses of
 * the backend and the `Array.prototype.sort` / `filter` pipelines of the front end.
 * An order is given as a "may come before" relation `le`.
 */
module Sorting {

  /** `le` is total and transitive, as every comparator used here is. */
  ghost predicate TotalPreorder<T(!new)>(le: (T, T) -> bool) {
    (forall a, b :: le(a, b) || le(b, a)) &&
    (forall a, b, c :: le(a, b) && le(b, c) ==> le(a, c))
  }

  /** Every element may come before every later one. */
  predicate SortedBy<T>(s: seq<T>, le: (T, T) -> bool) {
    forall i, j :: 0 <= i < j < |s| ==> le(s[i], s[j])
  }

  /** Puts x in front of the first element it may precede. */
  function Insert<T(!new)>(x: T, s: seq<T>, le: (T, T) -> bool): (r: seq<T>)
    requires TotalPreorder(le) && SortedBy(s, le)
    ensures multiset(r) == multiset(s) + multiset{x}
    ensures SortedBy(r, le)
  {
    if s == [] || le(x, s[0]) then
      assert forall j :: 0 <= j < |s| ==> le(x, s[j]) by {
        if s != [] {
          forall j | 0 <= j < |s| ensures le(x, s[j]) {
            if j > 0 { assert le(s[0], s[j]); }
          }
        }
      }
      [x] + s
    else
      var t := Insert(x, s[1..], le);
      assert multiset(t) == multiset(s[1..] + [x]);
      HeadBound(s, x, le);
      LowerBoundKept(s[0], s[1..] + [x], t, le);
      assert s == [s[0]] + s[1..];
      [s[0]] + t
  }

  /** In a sorted s whose head x may not precede, the head precedes the rest and x. */
  lemma HeadBound<T(!new)>(s: seq<T>, x: T, le: (T, T) -> bool)
    requires TotalPreorder(le) && SortedBy(s, le) && s != [] && !le(x, s[0])
    ensures forall j :: 0 <= j < |s[1..] + [x]| ==> le(s[0], (s[1..] + [x])[j])
  {
    var u := s[1..] + [x];
    forall j | 0 <= j < |u| ensures le(s[0], u[j]) {
      if j < |s| - 1 {
        assert u[j] == s[j + 1];
      }
    }
  }

  /** A lower bound of every element stays one after reordering. */
  lemma LowerBoundKept<T>(y: T, u: seq<T>, t: seq<T>, le: (T, T) -> bool)
    requires multiset(t) == multiset(u) && forall j :: 0 <= j < |u| ==> le(y, u[j])
    ensures forall j :: 0 <= j < |t| ==> le(y, t[j])
  {
    forall j | 0 <= j < |t| ensures le(y, t[j]) {
      assert t[j] in multiset(u);
      var k :| 0 <= k < |u| && u[k] == t[j];
    }
  }

  /** A stable insertion sort: the result is a permutation of s, ordered by le. */
  function Sort<T(!new)>(s: seq<T>, le: (T, T) -> bool): (r: seq<T>)
    requires TotalPreorder(le)
    ensures multiset(r) == multiset(s)
    ensures SortedBy(r, le)
  {
    if s == [] then []
    else
      assert s == [s[0]] + s[1..];
      Insert(s[0], Sort(s[1..], le), le)
  }

  /** The first element of a sorted sequence may come before each of its elements. */
  lemma SortedFirstIsLeast<T>(a: seq<T>, le: (T, T) -> bool, y: T)
    requires SortedBy(a, le) && y in multiset(a)
    ensures le(a[0], y) || a[0] == y
  {
    var i :| 0 <= i < |a| && a[i] == y;
    if i > 0 { assert le(a[0], a[i]); }
  }

  lemma TailMultiset<T>(a: seq<T>)
    requires a != []
    ensures multiset(a[1..]) == multiset(a) - multiset{a[0]}
  {
    assert a == [a[0]] + a[1..];
  }

  /** When le only relates equal elements both ways, a sorted permutation is unique. */
  lemma {:induction false} SortedUnique<T(!new)>(a: seq<T>, b: seq<T>, le: (T, T) -> bool)
    requires forall x, y :: x in a && y in a && le(x, y) && le(y, x) ==> x == y
    requires SortedBy(a, le) && SortedBy(b, le)
    requires multiset(a) == multiset(b)
    ensures a == b
  {
    if a != [] {
      assert |b| == |multiset(b)| == |multiset(a)| == |a|;
      assert a[0] in multiset(a) && b[0] in multiset(b);
      SortedFirstIsLeast(b, le, a[0]);
      SortedFirstIsLeast(a, le, b[0]);
      assert b[0] in a by { assert b[0] in multiset(a); }
      assert a[0] == b[0];
      TailMultiset(a);
      TailMultiset(b);
      assert SortedBy(a[1..], le) && SortedBy(b[1..], le);
      SortedUnique(a[1..], b[1..], le);
      ConsEqual(a, b);
    }
  }

  /** Sequences with the same head and the same tail are equal. */
  lemma ConsEqual<T>(a: seq<T>, b: seq<T>)
    requires a != [] && b != [] && a[0] == b[0] && a[1..] == b[1..]
    ensures a == b
  {
    assert a == [a[0]] + a[1..];
    assert b == [b[0]] + b[1..];
  }

  /** a keeps a selection of b's elements in b's order. */
  predicate IsSubsequence<T(==)>(a: seq<T>, b: seq<T>) {
    a == [] || (b != [] && ((a[0] == b[0] && IsSubsequence(a[1..], b[1..])) || IsSubsequence(a, b[1..])))
  }

  /** `s.filter(p)`. */
  function Filter<T(!new)>(s: seq<T>, p: T -> bool): (r: seq<T>)
    ensures |r| <= |s|
    ensures forall x :: multiset(r)[x] == if p(x) then multiset(s)[x] else 0
    ensures IsSubsequence(r, s)
  {
    if s == [] then []
    else
      assert s == [s[0]] + s[1..];
      var t := Filter(s[1..], p);
      if p(s[0]) then [s[0]] + t else t
  }

  lemma FilterMembership<T(!new)>(s: seq<T>, p: T -> bool, x: T)
    ensures x in Filter(s, p) <==> x in s && p(x)
  {
    assert x in Filter(s, p) <==> multiset(Filter(s, p))[x] > 0;
    assert x in s <==> multiset(s)[x] > 0;
  }

  /** Filtering with a test every element passes gives back the whole sequence. */
  lemma {:induction false} FilterAll<T(!new)>(s: seq<T>, p: T -> bool)
    requires forall i :: 0 <= i < |s| ==> p(s[i])
    ensures Filter(s, p) == s
  {
    if s != [] {
      FilterAll(s[1..], p);
    }
  }

  /** Filtering depends only on the test's answers for the elements present. */
  lemma {:induction false} FilterExt<T(!new)>(s: seq<T>, p: T -> bool, q: T -> bool)
    requires forall i :: 0 <= i < |s| ==> p(s[i]) == q(s[i])
    ensures Filter(s, p) == Filter(s, q)
  {
    if s != [] {
      FilterExt(s[1..], p, q);
    }
  }
}
