/**
 What the library sort does: the one sorted arrangement of the elements under a total order.
*/
module Sorting {

  ghost predicate TotalOrder<T(!new)>(le: (T, T) -> bool) {
    && (forall a, b :: le(a, b) || le(b, a))
    && (forall a, b :: le(a, b) && le(b, a) ==> a == b)
    && (forall a, b, c :: le(a, b) && le(b, c) ==> le(a, c))
  }

  predicate Sorted<T(!new)>(le: (T, T) -> bool, s: seq<T>) {
    forall i, j :: 0 <= i < j < |s| ==> le(s[i], s[j])
  }

  function Insert<T>(le: (T, T) -> bool, x: T, s: seq<T>): seq<T> {
    if s == [] || le(x, s[0]) then [x] + s else [s[0]] + Insert(le, x, s[1..])
  }

  function Sort<T>(le: (T, T) -> bool, s: seq<T>): seq<T> {
    if s == [] then [] else Insert(le, s[0], Sort(le, s[1..]))
  }

  lemma {:induction false} InsertSame<T>(le: (T, T) -> bool, x: T, s: seq<T>)
    ensures multiset(Insert(le, x, s)) == multiset(s) + multiset{x}
  {
    if s == [] || le(x, s[0]) {
    } else {
      InsertSame(le, x, s[1..]);
      assert s == [s[0]] + s[1..];
    }
  }

  /** What is at most the inserted element and all others is at most all of the result. */
  lemma {:induction false} InsertAbove<T(!new)>(le: (T, T) -> bool, x: T, s: seq<T>, low: T)
    requires le(low, x) && forall i :: 0 <= i < |s| ==> le(low, s[i])
    ensures forall i :: 0 <= i < |Insert(le, x, s)| ==> le(low, Insert(le, x, s)[i])
  {
    if s == [] || le(x, s[0]) {
    } else {
      InsertAbove(le, x, s[1..], low);
    }
  }

  lemma {:induction false} InsertSorts<T(!new)>(le: (T, T) -> bool, x: T, s: seq<T>)
    requires TotalOrder(le) && Sorted(le, s)
    ensures Sorted(le, Insert(le, x, s))
  {
    if s == [] || le(x, s[0]) {
    } else {
      InsertSorts(le, x, s[1..]);
      InsertAbove(le, x, s[1..], s[0]);
    }
  }

  /** Sorting yields the same elements in order. */
  lemma {:induction false} SortSorts<T(!new)>(le: (T, T) -> bool, s: seq<T>)
    requires TotalOrder(le)
    ensures Sorted(le, Sort(le, s)) && multiset(Sort(le, s)) == multiset(s)
  {
    if s == [] {
    } else {
      SortSorts(le, s[1..]);
      InsertSorts(le, s[0], Sort(le, s[1..]));
      InsertSame(le, s[0], Sort(le, s[1..]));
      assert s == [s[0]] + s[1..];
    }
  }

  lemma SameSize<T>(a: seq<T>, b: seq<T>)
    requires multiset(a) == multiset(b)
    ensures |a| == |b| && forall x :: x in a <==> x in b
  {
    assert |multiset(a)| == |a| && |multiset(b)| == |b|;
    assert forall x :: x in a <==> x in multiset(a);
    assert forall x :: x in b <==> x in multiset(b);
  }

  lemma FirstSame<T(!new)>(le: (T, T) -> bool, a: seq<T>, b: seq<T>)
    requires TotalOrder(le) && Sorted(le, a) && Sorted(le, b) && a != [] && b != []
    requires forall x :: x in a <==> x in b
    ensures a[0] == b[0]
  {
    assert a[0] in b && b[0] in a;
    var i :| 0 <= i < |b| && b[i] == a[0];
    var j :| 0 <= j < |a| && a[j] == b[0];
    assert le(b[0], b[i]) && le(a[0], a[j]);
  }

  lemma DropFirst<T>(a: seq<T>)
    requires a != []
    ensures multiset(a[1..]) == multiset(a) - multiset{a[0]}
  {
    assert a == [a[0]] + a[1..];
  }

  /** There is only one sorted arrangement. */
  lemma {:induction false} SortedUnique<T(!new)>(le: (T, T) -> bool, a: seq<T>, b: seq<T>)
    requires TotalOrder(le) && Sorted(le, a) && Sorted(le, b) && multiset(a) == multiset(b)
    ensures a == b
  {
    SameSize(a, b);
    if a == [] {
    } else {
      FirstSame(le, a, b);
      DropFirst(a);
      DropFirst(b);
      SortedUnique(le, a[1..], b[1..]);
      assert a == [a[0]] + a[1..] && b == [b[0]] + b[1..];
    }
  }

  /** Anything sorted with the same elements is what sorting yields. */
  lemma SortIs<T(!new)>(le: (T, T) -> bool, s: seq<T>, r: seq<T>)
    requires TotalOrder(le) && Sorted(le, r) && multiset(r) == multiset(s)
    ensures Sort(le, s) == r
  {
    SortSorts(le, s);
    SortedUnique(le, Sort(le, s), r);
  }

  ghost predicate AllLe<T(!new)>(le: (T, T) -> bool, a: seq<T>, b: seq<T>) {
    forall x, y :: x in a && y in b ==> le(x, y)
  }

  /** Sorting two stretches of which one is below the other. */
  lemma SortConcat<T(!new)>(le: (T, T) -> bool, a: seq<T>, b: seq<T>)
    requires TotalOrder(le) && AllLe(le, a, b)
    ensures Sort(le, a + b) == Sort(le, a) + Sort(le, b) && |Sort(le, a)| == |a| && |Sort(le, b)| == |b|
  {
    var x, y := Sort(le, a), Sort(le, b);
    SortSorts(le, a);
    SortSorts(le, b);
    SameSize(x, a);
    SameSize(y, b);
    forall i, j | 0 <= i < j < |x + y| ensures le((x + y)[i], (x + y)[j]) {
      if i < |x| <= j {
        assert x[i] in a && y[j - |x|] in b;
      }
    }
    SortIs(le, a + b, x + y);
  }

  // ---------- integers ----------

  predicate Le(a: int, b: int) { a <= b }

  predicate Ascending(s: seq<int>) { Sorted(Le, s) }

  /** The element at m is in its sorted position once nothing before is greater and nothing behind smaller. */
  lemma InPosition(s: seq<int>, m: nat)
    requires m < |s| && (forall i :: 0 <= i < m ==> s[i] <= s[m]) && (forall i :: m < i < |s| ==> s[m] <= s[i])
    ensures |Sort(Le, s)| == |s| && Sort(Le, s)[m] == s[m]
  {
    var a, b := s[..m], s[m + 1..];
    assert s == a + ([s[m]] + b);
    assert forall x, y :: x in a && y in [s[m]] + b ==> Le(x, y) by {
      forall x, y | x in a && y in [s[m]] + b ensures Le(x, y) {
        var i :| 0 <= i < |a| && a[i] == x;
        var j :| 0 <= j < |[s[m]] + b| && ([s[m]] + b)[j] == y;
        assert x == s[i] && y == s[m + j];
      }
    }
    SortConcat(Le, a, [s[m]] + b);
    SortConcat(Le, [s[m]], b);
    assert Sort(Le, [s[m]]) == [s[m]];
  }
}
