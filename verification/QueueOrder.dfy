/**
 Rebuilding a queue from heights and counts: everybody knows how many people of at least
 their height stand in front of them.
*/
module QueueOrder {
  import opened Sorting

  type Person = (int, int)

  /** Tall people first, of equal height those with fewer in front. */
  predicate TallFirst(a: Person, b: Person) { a.0 > b.0 || (a.0 == b.0 && a.1 <= b.1) }

  /** How many people of at least height h there are. */
  function Tall(q: seq<Person>, h: int): nat {
    if q == [] then 0 else Tall(q[..|q| - 1], h) + if q[|q| - 1].0 >= h then 1 else 0
  }

  /** The positions of these people. */
  function Taller(q: seq<Person>, h: int): set<int> { set i | 0 <= i < |q| && q[i].0 >= h }

  lemma {:induction false} TallCounts(q: seq<Person>, h: int)
    ensures Tall(q, h) == |Taller(q, h)|
  {
    if q != [] {
      var n := |q| - 1;
      TallCounts(q[..n], h);
      assert Taller(q, h) == Taller(q[..n], h) + if q[n].0 >= h then {n} else {};
    }
  }

  /** Everybody's count is right. */
  predicate Queue(q: seq<Person>) {
    forall i :: 0 <= i < |q| ==> q[i].1 == Tall(q[..i], q[i].0)
  }

  predicate Distinct(s: seq<Person>) { forall i, j :: 0 <= i < j < |s| ==> s[i] != s[j] }

  /** Nobody has more people in front than precede them in the order of the insertions. */
  predicate Fits(s: seq<Person>) { forall i :: 0 <= i < |s| ==> 0 <= s[i].1 <= i }

  function InsertAt(q: seq<Person>, x: Person): seq<Person>
    requires 0 <= x.1 <= |q|
  {
    q[..x.1] + [x] + q[x.1..]
  }

  /** One after the other, each at the index their count names. */
  function Rebuild(s: seq<Person>): (q: seq<Person>)
    requires Fits(s)
    ensures |q| == |s|
  {
    if s == [] then [] else InsertAt(Rebuild(s[..|s| - 1]), s[|s| - 1])
  }

  lemma {:induction false} TallSum(a: seq<Person>, b: seq<Person>, h: int)
    ensures Tall(a + b, h) == Tall(a, h) + Tall(b, h)
    decreases |b|
  {
    if b == [] {
      assert a + b == a;
    } else {
      var n := |b| - 1;
      assert (a + b)[..|a + b| - 1] == a + b[..n];
      TallSum(a, b[..n], h);
    }
  }

  lemma {:induction false} AllTall(q: seq<Person>, h: int)
    requires forall i :: 0 <= i < |q| ==> q[i].0 >= h
    ensures Tall(q, h) == |q|
  {
    if q != [] { AllTall(q[..|q| - 1], h); }
  }

  lemma RebuildSame(s: seq<Person>)
    requires Fits(s)
    ensures multiset(Rebuild(s)) == multiset(s)
  {
    if s != [] {
      var r, x := s[..|s| - 1], s[|s| - 1];
      RebuildSame(r);
      var q := Rebuild(r);
      assert q == q[..x.1] + q[x.1..] && s == r + [x];
    }
  }

  /** In front of an insertion nothing changes, and one more stands in front of those behind. */
  lemma InsertCounts(q: seq<Person>, x: Person, i: int, h: int)
    requires 0 <= x.1 <= |q| && 0 <= i <= |q|
    ensures i <= x.1 ==> Tall(InsertAt(q, x)[..i], h) == Tall(q[..i], h)
    ensures i >= x.1 ==> Tall(InsertAt(q, x)[..i + 1], h) == Tall(q[..i], h) + if x.0 >= h then 1 else 0
  {
    var k, r := x.1, InsertAt(q, x);
    if i <= k { assert r[..i] == q[..i]; }
    if i >= k {
      assert r[..i + 1] == q[..k] + ([x] + q[k..i]) && q[..i] == q[..k] + q[k..i];
      TallSum(q[..k], [x] + q[k..i], h);
      TallSum([x], q[k..i], h);
      TallSum(q[..k], q[k..i], h);
      assert [x][..0] == [];
    }
  }

  /**
   Inserting the shortest so far, behind those of the same height, makes its count right and leaves
   the others right.
  */
  lemma InsertQueue(q: seq<Person>, x: Person)
    requires Queue(q) && 0 <= x.1 <= |q|
    requires forall i :: 0 <= i < |q| ==> q[i].0 > x.0 || (q[i].0 == x.0 && q[i].1 < x.1)
    ensures Queue(InsertAt(q, x))
  {
    var r := InsertAt(q, x);
    forall i | 0 <= i < |r| ensures r[i].1 == Tall(r[..i], r[i].0) {
      if i <= x.1 {
        InsertCounts(q, x, i, r[i].0);
        if i == x.1 { AllTall(q[..i], x.0); }
      } else {
        InsertCounts(q, x, i - 1, r[i].0);
        assert r[i] == q[i - 1];
        if r[i].0 == x.0 { AllTall(q[..i - 1], x.0); }
      }
    }
  }

  lemma LastIsShortest(s: seq<Person>, q: seq<Person>)
    requires s != [] && Sorted(TallFirst, s) && multiset(q) == multiset(s[..|s| - 1])
    ensures forall i :: 0 <= i < |q| ==> TallFirst(q[i], s[|s| - 1])
    ensures Distinct(s) ==> forall i :: 0 <= i < |q| ==> q[i] != s[|s| - 1]
  {
    var r := s[..|s| - 1];
    SameSize(q, r);
    forall i | 0 <= i < |q| ensures TallFirst(q[i], s[|s| - 1]) && (Distinct(s) ==> q[i] != s[|s| - 1]) {
      assert q[i] in q;
      var j :| 0 <= j < |r| && r[j] == q[i];
      assert r[j] == s[j];
    }
  }

  /** People who differ pairwise are put in a queue in which every count is right. */
  lemma {:induction false} RebuildQueue(s: seq<Person>)
    requires Sorted(TallFirst, s) && Fits(s) && Distinct(s)
    ensures Queue(Rebuild(s))
  {
    if s != [] {
      var r := s[..|s| - 1];
      RebuildQueue(r);
      RebuildSame(r);
      LastIsShortest(s, Rebuild(r));
      InsertQueue(Rebuild(r), s[|s| - 1]);
    }
  }

  /** Taking out the shortest, of those the one with the most people in front, leaves the other counts right. */
  lemma RemoveQueue(q: seq<Person>, k: int)
    requires Queue(q) && 0 <= k < |q| && forall i :: 0 <= i < |q| ==> TallFirst(q[i], q[k])
    ensures q[k].1 == k && Queue(q[..k] + q[k + 1..]) && InsertAt(q[..k] + q[k + 1..], q[k]) == q
    ensures forall i :: 0 <= i < |q| && i != k ==> q[i] != q[k]
  {
    var x, r := q[k], q[..k] + q[k + 1..];
    AllTall(q[..k], x.0);
    assert InsertAt(r, x) == q;
    forall i | 0 <= i < |q| && i != k ensures q[i] != x { AllTall(q[..i], x.0); }
    forall i | 0 <= i < |r| ensures r[i].1 == Tall(r[..i], r[i].0) {
      InsertCounts(r, x, i, r[i].0);
      if i >= k {
        assert r[i] == q[i + 1];
        if r[i].0 == x.0 { AllTall(q[..i + 1], x.0); }
      }
    }
  }

  /**
   If the people can stand in a queue with right counts at all, they differ, they fit, and the queue
   is the rebuilt one.
  */
  lemma {:induction false} OnlyQueue(q: seq<Person>, s: seq<Person>)
    requires Queue(q) && Sorted(TallFirst, s) && multiset(q) == multiset(s)
    ensures Fits(s) && Distinct(s) && Rebuild(s) == q
    decreases |s|
  {
    SameSize(q, s);
    if s != [] {
      var n := |s| - 1;
      var k := Shortest(q, s);
      var r := q[..k] + q[k + 1..];
      assert Sorted(TallFirst, s[..n]);
      RemoveQueue(q, k);
      RestSame(q, s, k);
      OnlyQueue(r, s[..n]);
      DistinctMore(s);
      OneMore(s, q, r, k);
    }
  }

  lemma OneMore(s: seq<Person>, q: seq<Person>, r: seq<Person>, k: int)
    requires s != [] && |q| == |s| && 0 <= k < |q| && q[k] == s[|s| - 1] && q[k].1 == k
    requires Fits(s[..|s| - 1]) && Rebuild(s[..|s| - 1]) == r && InsertAt(r, q[k]) == q
    ensures Fits(s) && Rebuild(s) == q
  {
    assert s == s[..|s| - 1] + [s[|s| - 1]];
  }

  lemma Without(q: seq<Person>, k: int)
    requires 0 <= k < |q|
    ensures multiset(q[..k] + q[k + 1..]) == multiset(q) - multiset{q[k]}
  {
    assert q == q[..k] + [q[k]] + q[k + 1..];
  }

  lemma RestSame(q: seq<Person>, s: seq<Person>, k: int)
    requires s != [] && multiset(q) == multiset(s) && 0 <= k < |q| && q[k] == s[|s| - 1]
    requires forall i :: 0 <= i < |q| && i != k ==> q[i] != q[k]
    ensures multiset(q[..k] + q[k + 1..]) == multiset(s[..|s| - 1])
    ensures forall i :: 0 <= i < |s| - 1 ==> s[i] != s[|s| - 1]
  {
    var n := |s| - 1;
    Without(q, k);
    Without(s, n);
    assert s[..n] + s[n + 1..] == s[..n];
    Absent(q, k, s[..n]);
  }

  lemma Absent(q: seq<Person>, k: int, s: seq<Person>)
    requires 0 <= k < |q| && multiset(q[..k] + q[k + 1..]) == multiset(s)
    requires forall i :: 0 <= i < |q| && i != k ==> q[i] != q[k]
    ensures forall i :: 0 <= i < |s| ==> s[i] != q[k]
  {
    var r := q[..k] + q[k + 1..];
    SameSize(r, s);
    forall i | 0 <= i < |s| ensures s[i] != q[k] {
      assert s[i] in s;
      var j :| 0 <= j < |r| && r[j] == s[i];
      assert r[j] == if j < k then q[j] else q[j + 1];
    }
  }

  lemma DistinctMore(s: seq<Person>)
    requires s != [] && forall i :: 0 <= i < |s| - 1 ==> s[i] != s[|s| - 1]
    ensures Distinct(s[..|s| - 1]) ==> Distinct(s)
  {
    assert forall i :: 0 <= i < |s| - 1 ==> s[..|s| - 1][i] == s[i];
  }

  lemma {:induction false} DistinctOnce(s: seq<Person>)
    ensures Distinct(s) <==> forall p :: multiset(s)[p] <= 1
  {
    if s != [] {
      var n := |s| - 1;
      DistinctOnce(s[..n]);
      assert s == s[..n] + [s[n]];
      assert multiset(s) == multiset(s[..n]) + multiset{s[n]};
      if s[n] in s[..n] {
        var i :| 0 <= i < n && s[..n][i] == s[n];
        assert s[i] == s[n] && multiset(s[..n])[s[n]] >= 1;
        assert multiset(s)[s[n]] >= 2;
      } else {
        assert forall i :: 0 <= i < n ==> s[i] == s[..n][i] && s[..n][i] in s[..n];
        DistinctMore(s);
        assert multiset(s[..n])[s[n]] == 0;
        if Distinct(s) { assert Distinct(s[..n]); }
        assert forall p :: p != s[n] ==> multiset(s)[p] == multiset(s[..n])[p];
      }
    }
  }

  /** Sorting does not make people differ. */
  lemma SortDistinct(people: seq<Person>)
    ensures Distinct(Sort(TallFirst, people)) <==> Distinct(people)
  {
    SortSorts(TallFirst, people);
    DistinctOnce(people);
    DistinctOnce(Sort(TallFirst, people));
  }

  lemma Shortest(q: seq<Person>, s: seq<Person>) returns (k: int)
    requires s != [] && Sorted(TallFirst, s) && multiset(q) == multiset(s)
    ensures 0 <= k < |q| && q[k] == s[|s| - 1] && forall i :: 0 <= i < |q| ==> TallFirst(q[i], q[k])
  {
    SameSize(q, s);
    assert s[|s| - 1] in s;
    k :| 0 <= k < |q| && q[k] == s[|s| - 1];
    forall i | 0 <= i < |q| ensures TallFirst(q[i], q[k]) {
      assert q[i] in q;
      var j :| 0 <= j < |s| && s[j] == q[i];
    }
  }

  /** The people fit and differ exactly when some queue has them all with right counts. */
  lemma Rebuildable(people: seq<Person>)
    ensures (exists q :: Queue(q) && multiset(q) == multiset(people))
            <==> Fits(Sort(TallFirst, people)) && Distinct(people)
  {
    var s := Sort(TallFirst, people);
    SortSorts(TallFirst, people);
    SortDistinct(people);
    if Fits(s) && Distinct(s) {
      RebuildQueue(s);
      RebuildSame(s);
    }
    if q :| Queue(q) && multiset(q) == multiset(people) { OnlyQueue(q, s); }
  }

  /**
   The people in a new order. If any order has every count right, this one has, and it is the
   only one; that is so if and only if no two people are the same.
  */
  method Reconstruct(people: seq<Person>) returns (res: seq<Person>)
    requires Fits(Sort(TallFirst, people))
    ensures multiset(res) == multiset(people)
    ensures Queue(res) <==> Distinct(people)
    ensures forall q :: Queue(q) && multiset(q) == multiset(people) ==> q == res
  {
    var s := Sort(TallFirst, people);
    res := [];
    for i := 0 to |s|
      invariant Fits(s[..i]) && res == Rebuild(s[..i])
    {
      assert s[..i + 1][..i] == s[..i];
      res := InsertAt(res, s[i]);
    }
    assert s[..|s|] == s;
    RebuiltOnly(people);
  }

  lemma RebuiltOnly(people: seq<Person>)
    requires Fits(Sort(TallFirst, people))
    ensures var res := Rebuild(Sort(TallFirst, people));
            && multiset(res) == multiset(people) && (Queue(res) <==> Distinct(people))
            && forall q :: Queue(q) && multiset(q) == multiset(people) ==> q == res
  {
    var s := Sort(TallFirst, people);
    SortSorts(TallFirst, people);
    SortDistinct(people);
    RebuildSame(s);
    if Distinct(s) { RebuildQueue(s); }
    if Queue(Rebuild(s)) { OnlyQueue(Rebuild(s), s); }
    forall q | Queue(q) && multiset(q) == multiset(people) ensures q == Rebuild(s) { OnlyQueue(q, s); }
  }

  /** Two people who both have nobody in front: they fit, and one of the counts comes out wrong. */
  lemma EqualPeople()
    ensures var s := Sort(TallFirst, [(1, 0), (1, 0)]); Fits(s) && !Queue(Rebuild(s))
  {
    var s: seq<Person> := [(1, 0), (1, 0)];
    SortIs(TallFirst, s, s);
    assert s[0] == s[1] && !Distinct(s);
    hide Sort, Rebuild, Tall;
    RebuiltOnly(s);
  }
}
