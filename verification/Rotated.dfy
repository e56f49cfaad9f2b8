/**
 Searching a sorted vector that was rotated and may hold equal elements.
*/
module Rotated {
  import opened Sorting

  /**
   p is where the smallest element starts: the vector ascends up to p and from p on, and the
   second part is below the first.
  */
  predicate Pivot(s: seq<int>, p: int) {
    && 0 <= p < |s|
    && (forall i, j :: 0 <= i < j < p ==> s[i] <= s[j])
    && (forall i, j :: p <= i < j < |s| ==> s[i] <= s[j])
    && (forall i, j :: 0 <= i < p <= j < |s| ==> s[j] <= s[i])
  }

  /** Taking the first k elements of a sorted vector to its end. */
  function Rotate(s: seq<int>, k: nat): seq<int>
    requires k <= |s|
  {
    s[k..] + s[..k]
  }

  lemma PivotRotated(s: seq<int>, p: int)
    requires Pivot(s, p)
    ensures Ascending(s[p..] + s[..p]) && Rotate(s[p..] + s[..p], |s| - p) == s
  {
    var t := s[p..] + s[..p];
    assert forall i :: 0 <= i < |t| ==> t[i] == if i < |s| - p then s[p + i] else s[i - (|s| - p)];
  }

  lemma RotatedPivot(t: seq<int>, k: nat)
    requires t != [] && k <= |t| && Ascending(t)
    ensures Pivot(Rotate(t, k), if k == |t| then 0 else |t| - k) || Pivot(Rotate(t, k), 0)
  {
    var s := Rotate(t, k);
    assert forall i :: 0 <= i < |s| ==> s[i] == if i < |t| - k then t[k + i] else t[i - (|t| - k)];
    assert forall i, j :: 0 <= i < j < |t| ==> Le(t[i], t[j]);
  }

  /** The vectors with such a p are the rotations of the sorted ones. */
  lemma RotationsHavePivots(s: seq<int>)
    requires s != []
    ensures (exists p :: Pivot(s, p)) <==> exists t: seq<int>, k: nat :: k <= |t| && Ascending(t) && Rotate(t, k) == s
  {
    if p :| Pivot(s, p) { PivotRotated(s, p); }
    if t: seq<int>, k: nat :| k <= |t| && Ascending(t) && Rotate(t, k) == s { RotatedPivot(t, k); }
  }

  /** The minimum of a rotated vector. */
  method Minimum(nums: seq<int>, ghost p: int) returns (res: int)
    requires Pivot(nums, p)
    ensures res in nums && forall x :: x in nums ==> res <= x
  {
    var l, r := 0, |nums| - 1;
    res := nums[0];
    while l < r
      invariant 0 <= l <= r < |nums|
      invariant res in nums && nums[p] <= res <= nums[l]
      invariant l <= p <= r || res == nums[p]
      invariant l < p <= r ==> nums[r] <= res
      decreases r - l
    {
      var mid := l + (r - l + 1) / 2;
      if nums[mid] < nums[r] {
        if nums[mid] > res {
          r := mid - 1;
        } else {
          res := nums[mid];
          r := mid - 1;
        }
      } else if nums[mid] > nums[r] {
        assert l < p <= r && nums[r] <= res;
        if nums[mid] >= res && res < nums[r] {
          assert false; // the early return is never taken
        } else {
          res := nums[mid];
          l := mid;
        }
      } else {
        if nums[r] <= res {
          res := nums[r];
        }
        r := r - 1;
      }
    }
  }

  /** Whether a rotated vector holds the target. */
  method Contains(nums: seq<int>, target: int, ghost p: int) returns (found: bool)
    requires Pivot(nums, p)
    ensures found <==> target in nums
  {
    var l, r := 0, |nums| - 1;
    ghost var at: int := if target in nums then IndexOf(nums, target) else -1;
    while l < r
      invariant 0 <= l <= r < |nums|
      invariant target in nums ==> l <= at <= r && nums[at] == target
      decreases r - l
    {
      var mid := l + (r - l + 1) / 2;
      if nums[mid] == nums[r] {
        if nums[r] == target {
          return true;
        }
        r := r - 1;
      } else if nums[mid] < nums[r] {
        if nums[mid] <= target && target <= nums[r] {
          if target in nums && at < mid {
            at := if nums[at] == nums[mid] then mid else r;
          }
          l := mid;
        } else {
          r := mid - 1;
        }
      } else {
        if nums[l] <= target && target < nums[mid] {
          if target in nums && at >= mid {
            at := l;
          }
          r := mid - 1;
        } else {
          if target in nums && at < mid {
            at := mid;
          }
          l := mid;
        }
      }
    }
    return nums[r] == target;
  }

  ghost function IndexOf(s: seq<int>, x: int): (i: nat)
    requires x in s
    ensures i < |s| && s[i] == x
  {
    if s[0] == x then 0 else 1 + IndexOf(s[1..], x)
  }
}
