/**
 The fewest points that hit every interval: one pass over the sorted intervals.
*/
module Stabbing {
  import opened Sorting

  type Interval = (int, int)

  predicate ByStart(a: Interval, b: Interval) { a.0 < b.0 || (a.0 == b.0 && a.1 <= b.1) }

  predicate Hits(x: int, p: Interval) { p.0 <= x <= p.1 }

  predicate Hit(pts: set<int>, p: Interval) { exists x :: x in pts && Hits(x, p) }

  predicate Stabs(pts: set<int>, s: seq<Interval>) {
    forall i :: 0 <= i < |s| ==> Hit(pts, s[i])
  }

  /** Intervals from left to right, no two of which share a point. */
  predicate Apart(w: seq<Interval>) {
    && (forall i :: 0 <= i < |w| ==> w[i].0 <= w[i].1)
    && (forall i, j :: 0 <= i < j < |w| ==> w[i].1 < w[j].0)
  }

  /** Each of them takes a point of its own. */
  lemma {:induction false} OnePointEach(pts: set<int>, w: seq<Interval>)
    requires Apart(w) && Stabs(pts, w)
    ensures |pts| >= |w|
    decreases |w|
  {
    if w != [] {
      var n := |w| - 1;
      var x :| x in pts && Hits(x, w[n]);
      forall i | 0 <= i < n ensures Hit(pts - {x}, w[..n][i]) {
        var y :| y in pts && Hits(y, w[i]);
      }
      OnePointEach(pts - {x}, w[..n]);
    }
  }

  /**
   What the pass knows after some of the sorted intervals: points pts and any point from lo to
   hi together hit them all, and the members of w lie apart, the last of them ending at hi.
  */
  ghost predicate Passed(s: seq<Interval>, lo: int, hi: int, pts: set<int>, w: seq<Interval>) {
    && s != [] && lo <= hi && lo == s[|s| - 1].0
    && |w| == |pts| + 1
    && (forall x :: x in pts ==> x < lo)
    && (forall i :: 0 <= i < |s| ==> (s[i].0 <= lo && hi <= s[i].1) || Hit(pts, s[i]))
    && Apart(w) && (forall i :: 0 <= i < |w| ==> w[i] in s) && w[|w| - 1].1 == hi
    && (|w| > 1 ==> w[|w| - 2].1 < lo)
  }

  lemma FirstInterval(p: Interval)
    requires p.0 <= p.1
    ensures Passed([p], p.0, p.1, {}, [p])
  {
  }

  /** An interval behind everything so far: the last point is settled. */
  lemma NewGroup(s: seq<Interval>, lo: int, hi: int, pts: set<int>, w: seq<Interval>, p: Interval)
    requires Passed(s, lo, hi, pts, w) && hi < p.0 <= p.1
    ensures Passed(s + [p], p.0, p.1, pts + {hi}, w + [p])
  {
    var t, v := s + [p], w + [p];
    assert v[|v| - 2] == w[|w| - 1];
    forall i | 0 <= i < |v| ensures v[i] in t { if i == |w| { assert t[|s|] == p; } else { assert w[i] in s; } }
    forall i | 0 <= i < |t| ensures (t[i].0 <= p.0 && p.1 <= t[i].1) || Hit(pts + {hi}, t[i]) {
      if i < |s| {
        assert t[i] == s[i];
        if s[i].0 <= lo && hi <= s[i].1 { assert hi in pts + {hi} && Hits(hi, t[i]); }
      }
    }
    assert forall i :: 0 <= i < |w| ==> v[i] == w[i] && w[i].1 <= hi;
  }

  /** An interval that overlaps the group narrows it. */
  lemma SameGroup(s: seq<Interval>, lo: int, hi: int, pts: set<int>, w: seq<Interval>, p: Interval)
    requires Passed(s, lo, hi, pts, w) && lo <= p.0 <= hi && p.0 <= p.1
    ensures Passed(s + [p], p.0, if p.1 < hi then p.1 else hi, pts, if p.1 < hi then w[|w| - 1 := p] else w)
  {
    var t, v := s + [p], if p.1 < hi then w[|w| - 1 := p] else w;
    forall i | 0 <= i < |v| ensures v[i] in t { if v[i] == p { assert t[|s|] == p; } else { assert w[i] in s; } }
    forall i | 0 <= i < |t| && !(t[i].0 <= p.0 && (if p.1 < hi then p.1 else hi) <= t[i].1) ensures Hit(pts, t[i]) {
      assert i < |s| && t[i] == s[i];
    }
  }

  lemma Enough(s: seq<Interval>, lo: int, hi: int, pts: set<int>, w: seq<Interval>)
    requires Passed(s, lo, hi, pts, w)
    ensures Stabs(pts + {hi}, s) && |pts + {hi}| == |w|
  {
    forall i | 0 <= i < |s| ensures Hit(pts + {hi}, s[i]) {
      if s[i].0 <= lo && hi <= s[i].1 { assert hi in pts + {hi} && Hits(hi, s[i]); }
    }
  }

  lemma SameElements(pts: set<int>, a: seq<Interval>, b: seq<Interval>)
    requires Stabs(pts, a) && forall i :: 0 <= i < |b| ==> b[i] in a
    ensures Stabs(pts, b)
  {
    forall i | 0 <= i < |b| ensures Hit(pts, b[i]) {
      assert b[i] in a;
      var j :| 0 <= j < |a| && a[j] == b[i];
      assert Hit(pts, a[j]);
    }
  }

  /** The pass over the sorted intervals. */
  method Sweep(s: seq<Interval>) returns (res: nat, ghost pts: set<int>, ghost w: seq<Interval>)
    requires s != [] && Sorted(ByStart, s) && forall i :: 0 <= i < |s| ==> s[i].0 <= s[i].1
    ensures Stabs(pts, s) && |pts| == res
    ensures Apart(w) && |w| == res && forall i :: 0 <= i < |w| ==> w[i] in s
  {
    res := 1;
    var tmp := s[0];
    pts, w := {}, [s[0]];
    assert s[..1] == [s[0]];
    FirstInterval(s[0]);
    for i := 1 to |s|
      invariant Passed(s[..i], tmp.0, tmp.1, pts, w) && res == |w|
    {
      var item := s[i];
      assert s[..i + 1] == s[..i] + [item] && ByStart(s[i - 1], item);
      if tmp.1 < item.0 {
        NewGroup(s[..i], tmp.0, tmp.1, pts, w, item);
        pts, w := pts + {tmp.1}, w + [item];
        res := res + 1;
        tmp := item;
      } else {
        SameGroup(s[..i], tmp.0, tmp.1, pts, w, item);
        w := if item.1 < tmp.1 then w[|w| - 1 := item] else w;
        tmp := (if item.0 < tmp.0 then tmp.0 else item.0, if item.1 < tmp.1 then item.1 else tmp.1);
      }
    }
    assert s[..|s|] == s;
    Enough(s, tmp.0, tmp.1, pts, w);
    pts := pts + {tmp.1};
  }

  /** Every interval has a point of the set between its ends, the ends included. */
  lemma StabsMeans(pts: set<int>, s: seq<Interval>)
    ensures Stabs(pts, s) <==> forall p :: p in s ==> exists x :: x in pts && p.0 <= x <= p.1
  {
    forall p: Interval ensures Hit(pts, p) <==> exists x :: x in pts && p.0 <= x <= p.1 {
      if x :| x in pts && p.0 <= x <= p.1 { assert Hits(x, p); }
    }
    assert Stabs(pts, s) <==> forall p :: p in s ==> Hit(pts, p);
  }

  /** So many points hit all intervals, and no fewer do. */
  method FewestPoints(point: seq<Interval>) returns (res: nat)
    requires forall i :: 0 <= i < |point| ==> point[i].0 <= point[i].1
    ensures exists pts :: Stabs(pts, point) && |pts| == res
    ensures forall pts :: Stabs(pts, point) ==> |pts| >= res
  {
    if point == [] {
      assert Stabs({}, point);
      return 0;
    }
    var s := Sort(ByStart, point);
    SortSorts(ByStart, point);
    SameSize(s, point);
    forall i | 0 <= i < |s| ensures s[i].0 <= s[i].1 { assert s[i] in s; }
    ghost var pts, w;
    res, pts, w := Sweep(s);
    forall i | 0 <= i < |point| ensures point[i] in s { assert point[i] in point; }
    SameElements(pts, s, point);
    forall q | Stabs(q, point) ensures |q| >= res {
      forall i | 0 <= i < |w| ensures w[i] in point { assert w[i] in s; }
      SameElements(q, point, w);
      OnePointEach(q, w);
    }
  }
}
