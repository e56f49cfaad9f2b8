/**
 Quickselect with a random pivot: hole partition in place, and the k-th largest element.
*/
module Quickselect {
  import opened Sorting

  /** Elements lo to hi only: the same ones, and the rest untouched. */
  twostate predicate Rearranged(a: array<int>, lo: int, hi: int)
    requires 0 <= lo <= hi < a.Length
    reads a
  {
    && multiset(a[..]) == multiset(old(a[..]))
    && a[..lo] == old(a[..lo]) && a[hi + 1..] == old(a[hi + 1..])
  }

  /** Moving an element into the hole moves the hole. */
  lemma MoveHole(s: seq<int>, hole: nat, from: nat, pivot: int)
    requires hole < |s| && from < |s|
    ensures multiset(s[hole := s[from]][from := pivot]) == multiset(s[hole := pivot])
  {
    var t := s[hole := pivot];
    if hole != from {
      assert s[hole := s[from]][from := pivot] == t[hole := t[from]][from := t[hole]];
    }
  }

  /** Scanning from the right stops at right: everything passed is at least the pivot. */
  predicate Down(s: seq<int>, left: int, right0: int, right: int, pivot: int) {
    && 0 <= left <= right <= right0 < |s| && (left < right ==> s[right] < pivot)
    && forall i :: right < i <= right0 ==> s[i] >= pivot
  }

  /** Scanning from the left stops at left: everything passed is below the pivot. */
  predicate Raised(s: seq<int>, left0: int, left: int, right: int, pivot: int) {
    && 0 <= left0 <= left <= right < |s| && (left < right ==> s[left] >= pivot)
    && forall i :: left0 <= i < left ==> s[i] < pivot
  }

  method ScanDown(a: array<int>, left: int, right0: int, pivot: int) returns (right: int)
    requires 0 <= left <= right0 < a.Length
    ensures Down(a[..], left, right0, right, pivot)
  {
    right := right0;
    while left < right && a[right] >= pivot
      invariant left <= right <= right0
      invariant forall i :: right < i <= right0 ==> a[i] >= pivot
    {
      right := right - 1;
    }
  }

  method ScanUp(a: array<int>, left0: int, right: int, pivot: int) returns (left: int)
    requires 0 <= left0 <= right < a.Length
    ensures Raised(a[..], left0, left, right, pivot)
  {
    left := left0;
    while left < right && a[left] < pivot
      invariant left0 <= left <= right
      invariant forall i :: left0 <= i < left ==> a[i] < pivot
    {
      left := left + 1;
    }
  }

  /** What lies left of left is smaller than the pivot, what lies right of right is not. */
  predicate Sides(s: seq<int>, lo: int, left: int, right: int, hi: int, pivot: int) {
    && 0 <= lo <= left <= right <= hi < |s|
    && (forall i :: lo <= i < left ==> s[i] < pivot)
    && (forall i :: right < i <= hi ==> s[i] >= pivot)
  }

  lemma PassSides(s: seq<int>, lo: int, left0: int, right0: int, hi: int, pivot: int, left: int, right: int)
    requires Sides(s, lo, left0, right0, hi, pivot) && left0 < right0 && Down(s, left0, right0, right, pivot)
    requires Raised(s[left0 := s[right]], left0, left, right, pivot)
    ensures var t := s[left0 := s[right]];
            Sides(t[right := t[left]], lo, left, right, hi, pivot) && right - left < right0 - left0
  {
  }

  /** One pass of the loop: the hole at left moves to the right end of the middle and back. */
  method Pass(a: array<int>, ghost lo: int, left0: int, right0: int, ghost hi: int, pivot: int)
    returns (left: int, right: int)
    requires Sides(a[..], lo, left0, right0, hi, pivot) && left0 < right0
    modifies a
    ensures Sides(a[..], lo, left, right, hi, pivot) && right - left < right0 - left0
    ensures multiset(a[..][left := pivot]) == multiset(old(a[..])[left0 := pivot])
    ensures a[..lo] == old(a[..lo]) && a[hi + 1..] == old(a[hi + 1..])
  {
    ghost var s := a[..];
    right := ScanDown(a, left0, right0, pivot);
    a[left0] := a[right];
    ghost var t := a[..];
    assert t == s[left0 := s[right]];
    left := ScanUp(a, left0, right, pivot);
    a[right] := a[left];
    assert a[..] == t[right := t[left]];
    PassSides(s, lo, left0, right0, hi, pivot, left, right);
    MoveHole(s, left0, right, pivot);
    MoveHole(t, right, left, pivot);
    hide Sides, Down, Raised;
  }

  /**
   Splitting a[lo..hi] at a pivot chosen at random among all but the last element: smaller
   elements before it, the others behind.
  */
  method Partition(a: array<int>, lo: int, hi: int) returns (p: int)
    requires 0 <= lo < hi < a.Length
    modifies a
    ensures lo <= p <= hi && Rearranged(a, lo, hi)
    ensures forall i :: lo <= i < p ==> a[i] < a[p]
    ensures forall i :: p < i <= hi ==> a[i] >= a[p]
  {
    var left, right := lo, hi;
    var chosen: int :| left <= chosen < right;
    ghost var s0 := a[..];
    a[chosen], a[left] := a[left], a[chosen];
    var pivot := a[left];
    assert a[..] == s0[chosen := s0[lo]][lo := s0[chosen]];
    MoveHole(s0, chosen, lo, pivot);
    assert a[..][left := pivot] == a[..] && s0[chosen := pivot] == s0;
    while left < right
      invariant Sides(a[..], lo, left, right, hi, pivot)
      invariant multiset(a[..][left := pivot]) == multiset(s0)
      invariant a[..lo] == s0[..lo] && a[hi + 1..] == s0[hi + 1..]
      decreases right - left
    {
      left, right := Pass(a, lo, left, right, hi, pivot);
    }
    ghost var s := a[..];
    a[left] := pivot;
    p := left;
    assert a[..] == s[left := pivot];
    assert Sides(a[..], lo, left, right, hi, pivot);
  }

  /** The elements before lo, those from lo to hi, and those behind hi are in order, stretch by stretch. */
  predicate Stretches(s: seq<int>, lo: int, hi: int) {
    && 0 <= lo <= hi < |s|
    && (forall i, j :: 0 <= i < lo <= j < |s| ==> s[i] <= s[j])
    && (forall i, j :: 0 <= i <= hi < j < |s| ==> s[i] <= s[j])
  }

  /** The k-th largest element: what sorting would put at position n - k, whatever pivots are drawn. */
  method Select(a: array<int>, k: int) returns (x: int)
    requires 1 <= k <= a.Length
    modifies a
    ensures multiset(a[..]) == multiset(old(a[..]))
    ensures |Sort(Le, old(a[..]))| == a.Length && x == Sort(Le, old(a[..]))[a.Length - k]
  {
    hide Sort;
    var res, l, r := a.Length - k, 0, a.Length - 1;
    while l < r
      invariant 0 <= l <= res <= r < a.Length
      invariant multiset(a[..]) == multiset(old(a[..])) && Stretches(a[..], l, r)
      decreases r - l
    {
      ghost var s := a[..];
      var mid := Partition(a, l, r);
      Renewed(s, a[..], l, r);
      if mid == res {
        Settled(a[..], old(a[..]), mid);
        return a[mid];
      } else if mid < res {
        l := mid + 1;
      } else {
        r := mid - 1;
      }
    }
    Settled(a[..], old(a[..]), l);
    return a[l];
  }

  /** An element with nothing greater before it and nothing smaller behind it is where sorting puts it. */
  lemma Settled(s: seq<int>, s0: seq<int>, m: nat)
    requires m < |s| && multiset(s) == multiset(s0)
    requires (forall i :: 0 <= i < m ==> s[i] <= s[m]) && (forall i :: m < i < |s| ==> s[m] <= s[i])
    ensures |Sort(Le, s0)| == |s| && Sort(Le, s0)[m] == s[m]
  {
    InPosition(s, m);
    SortSorts(Le, s);
    SortIs(Le, s0, Sort(Le, s));
  }

  lemma MiddlePart(s: seq<int>, l: int, r: int)
    requires 0 <= l <= r < |s|
    ensures multiset(s[l..r + 1]) == multiset(s) - multiset(s[..l]) - multiset(s[r + 1..])
  {
    assert s == s[..l] + s[l..r + 1] + s[r + 1..];
  }

  lemma MiddleSame(s: seq<int>, t: seq<int>, l: int, r: int)
    requires 0 <= l <= r < |s| == |t| && multiset(t) == multiset(s)
    requires t[..l] == s[..l] && t[r + 1..] == s[r + 1..]
    ensures multiset(t[l..r + 1]) == multiset(s[l..r + 1])
  {
    MiddlePart(s, l, r);
    MiddlePart(t, l, r);
  }

  /** Rearranging the middle stretch leaves the three in order. */
  lemma Renewed(s: seq<int>, t: seq<int>, l: int, r: int)
    requires Stretches(s, l, r) && |t| == |s| && multiset(t) == multiset(s)
    requires t[..l] == s[..l] && t[r + 1..] == s[r + 1..]
    ensures Stretches(t, l, r)
  {
    MiddleSame(s, t, l, r);
    SameSize(t[l..r + 1], s[l..r + 1]);
    forall i | 0 <= i < |s|
      ensures exists j :: 0 <= j < |s| && s[j] == t[i] && (l <= i <= r <==> l <= j <= r)
                          && (i < l ==> j == i) && (i > r ==> j == i)
    {
      if l <= i <= r {
        assert t[i] == t[l..r + 1][i - l];
        assert t[i] in s[l..r + 1];
        var j :| 0 <= j < r + 1 - l && s[l..r + 1][j] == t[i];
        assert s[l + j] == t[i];
      } else if i < l {
        assert t[..l][i] == s[..l][i];
      } else {
        assert t[r + 1..][i - r - 1] == s[r + 1..][i - r - 1];
      }
    }
  }
}
