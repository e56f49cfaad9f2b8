/**
 The median of two sorted vectors by searching for the cut of the shorter one.
*/
module Median {
  import opened Sorting

  const INT_MIN: int := -0x8000_0000
  const INT_MAX: int := 0x7fff_ffff

  type Int32 = x: int | INT_MIN <= x <= INT_MAX

  /** A 32-bit sum as two's complement hardware leaves it. */
  function Wrap(x: int): (r: Int32)
    ensures (r - x) % 0x1_0000_0000 == 0
  {
    (x + 0x8000_0000) % 0x1_0000_0000 - 0x8000_0000
  }

  /** The middle element of a sorted sequence, or the mean of the middle two. */
  function MedianOf(s: seq<int>): real
    requires s != []
  {
    if |s| % 2 == 1 then s[|s| / 2] as real else (s[|s| / 2 - 1] + s[|s| / 2]) as real / 2.0
  }

  /** All the elements of both, sorted. */
  function Merged(a: seq<int>, b: seq<int>): seq<int> { Sort(Le, a + b) }

  /** Half of all the elements, rounded up. */
  function Half(a: seq<int>, b: seq<int>): nat { (|a| + |b| + 1) / 2 }

  /** Cutting a after i elements leaves an element on the right of a smaller than one on the left of b. */
  predicate TooShort(a: seq<int>, b: seq<int>, i: int) {
    0 <= i < |a| && 0 < Half(a, b) - i <= |b| && b[Half(a, b) - i - 1] > a[i]
  }

  /** And the other way round. */
  predicate TooLong(a: seq<int>, b: seq<int>, i: int) {
    0 < i <= |a| && 0 <= Half(a, b) - i < |b| && a[i - 1] > b[Half(a, b) - i]
  }

  /** Everything left of the cut is at most everything right of it. */
  lemma CutSplits(a: seq<int>, b: seq<int>, i: nat, j: nat)
    requires Ascending(a) && Ascending(b) && i <= |a| && j <= |b| && i + j == Half(a, b)
    requires !TooShort(a, b, i) && !TooLong(a, b, i)
    ensures AllLe(Le, a[..i] + b[..j], a[i..] + b[j..])
  {
    forall x, y | x in a[..i] + b[..j] && y in a[i..] + b[j..] ensures Le(x, y) {
      if x in a[..i] {
        var p :| 0 <= p < i && a[p] == x;
        assert x <= a[i - 1];
        if y in a[i..] {
          var q :| i <= q < |a| && a[q] == y;
          assert Le(a[p], a[q]);
        } else {
          var q :| j <= q < |b| && b[q] == y;
          assert b[j] <= y;
        }
      } else {
        var p :| 0 <= p < j && b[p] == x;
        assert x <= b[j - 1];
        if y in a[i..] {
          var q :| i <= q < |a| && a[q] == y;
          assert a[i] <= y;
        } else {
          var q :| j <= q < |b| && b[q] == y;
          assert Le(b[p], b[q]);
        }
      }
    }
  }

  /** A member that nothing exceeds is the last of the sorted elements. */
  lemma GreatestLast(s: seq<int>, x: int)
    requires x in s && AllLe(Le, s, [x])
    ensures |Sort(Le, s)| == |s| && Sort(Le, s)[|s| - 1] == x
  {
    var r := Sort(Le, s);
    SortSorts(Le, s);
    SameSize(r, s);
    assert x in r && r[|r| - 1] in r && x in [x];
    var i :| 0 <= i < |r| && r[i] == x;
    assert Le(r[|r| - 1], x) && (i < |r| - 1 ==> Le(r[i], r[|r| - 1]));
  }

  /** One that exceeds nothing is the first. */
  lemma LeastFirst(s: seq<int>, x: int)
    requires x in s && AllLe(Le, [x], s)
    ensures |Sort(Le, s)| == |s| && Sort(Le, s)[0] == x
  {
    var r := Sort(Le, s);
    SortSorts(Le, s);
    SameSize(r, s);
    assert x in r && r[0] in r && x in [x];
    var i :| 0 <= i < |r| && r[i] == x;
    assert Le(x, r[0]) && (0 < i ==> Le(r[0], r[i]));
  }

  /** The sorted whole is the sorted left part and then the sorted right part. */
  lemma CutSorts(a: seq<int>, b: seq<int>, i: nat, j: nat)
    requires Ascending(a) && Ascending(b) && i <= |a| && j <= |b| && i + j == Half(a, b)
    requires !TooShort(a, b, i) && !TooLong(a, b, i)
    ensures Sort(Le, a + b) == Sort(Le, a[..i] + b[..j]) + Sort(Le, a[i..] + b[j..])
  {
    var l, r := a[..i] + b[..j], a[i..] + b[j..];
    CutSplits(a, b, i, j);
    assert multiset(l + r) == multiset(a + b) by {
      assert a == a[..i] + a[i..] && b == b[..j] + b[j..];
    }
    SortConcat(Le, l, r);
    SortSorts(Le, l + r);
    SortIs(Le, a + b, Sort(Le, l + r));
  }

  function Max(x: int, y: int): int { if x < y then y else x }

  function Min(x: int, y: int): int { if y < x then y else x }

  /** The greatest element left of the cut. */
  function MaxLeft(a: seq<int>, b: seq<int>, i: nat, j: nat): int
    requires i <= |a| && j <= |b| && i + j > 0
  {
    if i == 0 then b[j - 1] else if j == 0 then a[i - 1] else Max(a[i - 1], b[j - 1])
  }

  /** The smallest element right of it. */
  function MinRight(a: seq<int>, b: seq<int>, i: nat, j: nat): int
    requires i <= |a| && j <= |b| && i + j < |a| + |b|
  {
    if i == |a| then b[j] else if j == |b| then a[i] else Min(a[i], b[j])
  }

  lemma Leftmost(a: seq<int>, b: seq<int>, i: nat, j: nat)
    requires Ascending(a) && Ascending(b) && i <= |a| && j <= |b| && i + j > 0
    ensures var x := MaxLeft(a, b, i, j); x in a[..i] + b[..j] && AllLe(Le, a[..i] + b[..j], [x])
  {
    var l := a[..i] + b[..j];
    assert i > 0 ==> l[i - 1] == a[i - 1];
    assert j > 0 ==> l[i + j - 1] == b[j - 1];
    forall y | y in l ensures (i > 0 && y <= a[i - 1]) || (j > 0 && y <= b[j - 1]) {
      var p :| 0 <= p < |l| && l[p] == y;
      assert if p < i then y == a[p] && (p < i - 1 ==> Le(a[p], a[i - 1]))
             else y == b[p - i] && (p < i + j - 1 ==> Le(b[p - i], b[j - 1]));
    }
  }

  lemma Rightmost(a: seq<int>, b: seq<int>, i: nat, j: nat)
    requires Ascending(a) && Ascending(b) && i <= |a| && j <= |b| && i + j < |a| + |b|
    ensures var y := MinRight(a, b, i, j); y in a[i..] + b[j..] && AllLe(Le, [y], a[i..] + b[j..])
  {
    var r, n := a[i..] + b[j..], |a| - i;
    assert n > 0 ==> r[0] == a[i];
    assert j < |b| ==> r[n] == b[j];
    forall y | y in r ensures (n > 0 && a[i] <= y) || (j < |b| && b[j] <= y) {
      var p :| 0 <= p < |r| && r[p] == y;
      assert if p < n then y == a[i + p] && (0 < p ==> Le(a[i], a[i + p]))
             else y == b[j + p - n] && (n < p ==> Le(b[j], b[j + p - n]));
    }
  }

  /** The two sides of the cut hold the middle of the sorted whole. */
  lemma CutMiddle(a: seq<int>, b: seq<int>, i: nat, j: nat)
    requires Ascending(a) && Ascending(b) && i <= |a| && j <= |b| && i + j == Half(a, b) > 0
    requires !TooShort(a, b, i) && !TooLong(a, b, i)
    ensures var s := Merged(a, b);
            && |s| == |a| + |b| && s[Half(a, b) - 1] == MaxLeft(a, b, i, j)
            && (Half(a, b) < |s| ==> s[Half(a, b)] == MinRight(a, b, i, j))
  {
    CutSorts(a, b, i, j);
    Leftmost(a, b, i, j);
    GreatestLast(a[..i] + b[..j], MaxLeft(a, b, i, j));
    if i + j < |a| + |b| {
      Rightmost(a, b, i, j);
      LeastFirst(a[i..] + b[j..], MinRight(a, b, i, j));
    } else {
      assert a[i..] + b[j..] == [];
    }
  }

  /** The middle elements, or the middle one twice. */
  function Middle(s: seq<int>): (int, int)
    requires s != []
  {
    (s[(|s| + 1) / 2 - 1], s[|s| / 2])
  }

  lemma MiddleMedian(s: seq<int>)
    requires s != []
    ensures MedianOf(s) == (Middle(s).0 + Middle(s).1) as real / 2.0
  {
  }

  /** Halving is exact, so half the 32-bit sum is the median if and only if the sum of the middle two fits. */
  lemma MedianIff(s: seq<int>)
    requires s != [] && |s| % 2 == 0
    ensures Wrap(Middle(s).0 + Middle(s).1) as real / 2.0 == MedianOf(s) <==>
            INT_MIN <= Middle(s).0 + Middle(s).1 <= INT_MAX
  {
    MiddleMedian(s);
  }

  /** Two vectors that each hold the greatest 32-bit number: half their sum comes out as -1. */
  lemma SumOverflows()
    ensures var s := Merged([INT_MAX], [INT_MAX]);
            && |s| == 2 && MedianOf(s) == INT_MAX as real
            && Wrap(Middle(s).0 + Middle(s).1) as real / 2.0 == -1.0
  {
    SortIs(Le, [INT_MAX] + [INT_MAX], [INT_MAX, INT_MAX]);
  }

  /** What the cut's neighbours make of the median. */
  lemma CutMedian(a: seq<int>, b: seq<int>, i: nat, j: nat)
    requires Ascending(a) && Ascending(b) && i <= |a| && j <= |b| && i + j == Half(a, b) > 0
    requires !TooShort(a, b, i) && !TooLong(a, b, i)
    ensures var s := Merged(a, b);
            && |s| == |a| + |b|
            && if |s| % 2 == 1 then MedianOf(s) == MaxLeft(a, b, i, j) as real
               else i + j < |a| + |b| && Middle(s) == (MaxLeft(a, b, i, j), MinRight(a, b, i, j))
  {
    hide Merged, Ascending;
    CutMiddle(a, b, i, j);
  }

  /**
   The middle element, or half the 32-bit sum of the middle two: the median if and only if the
   number of elements is odd or that sum does not overflow.
  */
  method FindMedian(num1: seq<Int32>, num2: seq<Int32>) returns (r: real)
    requires Ascending(num1) && Ascending(num2)
    requires 0 < |num1| + |num2| < INT_MAX
    ensures |Merged(num1, num2)| == |num1| + |num2|
    ensures var s := Merged(num1, num2);
            && (r == if |s| % 2 == 1 then MedianOf(s) else Wrap(Middle(s).0 + Middle(s).1) as real / 2.0)
            && (r == MedianOf(s) <==> |s| % 2 == 1 || INT_MIN <= Middle(s).0 + Middle(s).1 <= INT_MAX)
    decreases |num1|
  {
    hide Merged, Sorted, Wrap, Middle, MedianOf;
    var m, n := |num1|, |num2|;
    if m > n {
      Swap(num1, num2);
      r := FindMedian(num2, num1);
      return;
    }
    var l, h := 0, m;
    while l <= h
      invariant 0 <= l <= h + 1 <= m + 1
      invariant l > 0 ==> TooShort(num1, num2, l - 1)
      invariant h < m ==> TooLong(num1, num2, h + 1)
      decreases h - l
    {
      var i := l + (h - l) / 2;
      var j := (m + n + 1) / 2 - i;
      if j != 0 && i != m && num2[j - 1] > num1[i] {
        l := i + 1;
      } else if i != 0 && j != n && num1[i - 1] > num2[j] {
        h := i - 1;
      } else {
        CutMedian(num1, num2, i, j);
        var maxLeft: Int32 := 0;
        if i == 0 {
          maxLeft := num2[j - 1];
        } else if j == 0 {
          maxLeft := num1[i - 1];
        } else {
          maxLeft := Max(num1[i - 1], num2[j - 1]);
        }
        if (m + n) % 2 != 0 {
          return maxLeft as real;
        }
        var minRight: Int32 := 0;
        if i == m {
          minRight := num2[j];
        } else if j == n {
          minRight := num1[i];
        } else {
          minRight := Min(num1[i], num2[j]);
        }
        MedianIff(Merged(num1, num2));
        return Wrap(minRight + maxLeft) as real / 2.0;
      }
    }
    assert false;
    return 0.0;
  }

  /** Any ascending arrangement of the elements is the merged one. */
  lemma MergedIs(a: seq<int>, b: seq<int>, s: seq<int>)
    requires multiset(s) == multiset(a) + multiset(b) && Ascending(s)
    ensures s == Merged(a, b) && |s| == |a| + |b|
  {
    assert multiset(a + b) == multiset(a) + multiset(b);
    SortIs(Le, a + b, s);
    SameSize(s, a + b);
  }

  /** And its median the middle one, or halfway between the middle two. */
  lemma MedianOfAll(a: seq<int>, b: seq<int>, s: seq<int>)
    requires multiset(s) == multiset(a) + multiset(b) && s != []
    requires forall i, j :: 0 <= i < j < |s| ==> s[i] <= s[j]
    ensures Merged(a, b) == s && |s| == |a| + |b|
    ensures |s| % 2 == 1 ==> MedianOf(Merged(a, b)) == s[|s| / 2] as real
    ensures |s| % 2 == 0 ==> 2.0 * MedianOf(Merged(a, b)) == (s[|s| / 2 - 1] + s[|s| / 2]) as real
    ensures |s| % 2 == 0 ==> Middle(Merged(a, b)) == (s[|s| / 2 - 1], s[|s| / 2])
  {
    MergedIs(a, b, s);
    hide Merged;
  }

  lemma Swap(a: seq<int>, b: seq<int>)
    ensures Merged(a, b) == Merged(b, a)
  {
    SortSorts(Le, a + b);
    SortIs(Le, b + a, Sort(Le, a + b));
  }
}
