/**
 The pointer structure of the index file: one free list and 137 chains threaded
 through the records. Ghost sequences name the members of every list in order,
 and every record has one owner: the list it is on, or a handle that has taken
 it off one list and not yet put it on another.
*/
module DbIndex {
  import opened DbFormat
  import opened DbDisk

  datatype Owner = On(list: nat) | Held(handle: nat)

  /** lists[0] is the free list, lists[1 + h] the chain of hash value h; at finds a live key. */
  datatype Index = Index(lists: seq<seq<nat>>, owner: map<nat, Owner>, at: map<string, nat>)

  const LISTS: nat := NHASH + 1

  function ListOf(key: string): (l: nat)
    ensures 0 < l < LISTS
  {
    1 + Hash(key)
  }

  predicate IsBlank(s: string) {
    forall i :: 0 <= i < |s| ==> s[i] == SPACE
  }

  // ---------- links of one list ----------

  /** The cell that points to the k-th member of list l: the head, or the member before. */
  function CellOf(l: nat, p: seq<nat>, k: nat): nat
    requires k <= |p|
  {
    if k == 0 then PTR_SZ * l else p[k - 1]
  }

  /** What that cell has to hold: the member's offset, or 0 behind the last member. */
  function ValOf(p: seq<nat>, k: nat): nat
    requires k <= |p|
  {
    if k < |p| then p[k] else 0
  }

  ghost predicate LinkAt(d: Disk, l: nat, p: seq<nat>, k: nat)
    requires k <= |p|
  {
    IsCell(d, CellOf(l, p, k)) && PtrAt(d, CellOf(l, p, k)) == ValOf(p, k)
  }

  ghost predicate Linked(d: Disk, l: nat, p: seq<nat>) {
    forall k :: 0 <= k <= |p| ==> LinkAt(d, l, p, k)
  }

  /** Every link is right except the one at position x. */
  ghost predicate LinkedExcept(d: Disk, l: nat, p: seq<nat>, x: nat) {
    forall k :: 0 <= k <= |p| && k != x ==> LinkAt(d, l, p, k)
  }

  // ---------- the invariant ----------

  ghost predicate NoDup(p: seq<nat>) {
    forall i, j :: 0 <= i < j < |p| ==> p[i] != p[j]
  }

  ghost predicate Members(recs: map<nat, Rec>, g: Index, l: nat)
    requires l < |g.lists|
  {
    && (forall k :: 0 <= k < |g.lists[l]| ==>
         g.lists[l][k] in recs && g.lists[l][k] in g.owner && g.owner[g.lists[l][k]] == On(l))
    && NoDup(g.lists[l])
  }

  ghost predicate RecOK(d: Disk, g: Index, o: nat)
    requires o in d.recs && |g.lists| == LISTS
  {
    var r := d.recs[o];
    && HEADER <= o
    && r.datoff in d.ext && |d.ext[r.datoff]| + 1 == r.datlen
    && o in g.owner
    && (g.owner[o].On? ==>
         var l := g.owner[o].list;
         && l < LISTS && o in g.lists[l]
         && (if l == 0 then IsBlank(r.key) else l == ListOf(r.key) && r.key in g.at && g.at[r.key] == o))
  }

  ghost predicate KeyOK(d: Disk, g: Index, key: string)
    requires key in g.at
  {
    var o := g.at[key];
    o in d.recs && d.recs[o].key == key && o in g.owner && g.owner[o] == On(ListOf(key))
  }

  ghost predicate AllMembers(recs: map<nat, Rec>, g: Index) {
    |g.lists| == LISTS && forall l :: 0 <= l < LISTS ==> Members(recs, g, l)
  }

  ghost predicate AllRecs(d: Disk, g: Index) {
    && |g.lists| == LISTS
    && (forall o :: o in d.recs ==> RecOK(d, g, o))
    && (forall o :: o in g.owner ==> o in d.recs)
  }

  ghost predicate AllKeys(d: Disk, g: Index) {
    forall key :: key in g.at ==> KeyOK(d, g, key)
  }

  ghost predicate AllLinks(d: Disk, lists: seq<seq<nat>>, stale: set<nat>) {
    |lists| == LISTS && forall l :: 0 <= l < LISTS && l !in stale ==> Linked(d, l, lists[l])
  }

  ghost predicate DataDistinct(recs: map<nat, Rec>) {
    forall o, o' :: o in recs && o' in recs && o != o' ==> recs[o].datoff != recs[o'].datoff
  }

  /**
   Every record is on exactly one list or held by a handle, live keys are unique and
   on the chain of their hash, data runs of distinct records are distinct, and every
   list outside the stale ones is linked from its head to a final 0.
  */
  ghost predicate WF(d: Disk, g: Index, stale: set<nat>) {
    && |d.heads| == LISTS
    && AllMembers(d.recs, g)
    && AllLinks(d, g.lists, stale)
    && AllRecs(d, g)
    && AllKeys(d, g)
    && DataDistinct(d.recs)
  }

  // ---------- list edits ----------

  function Without(p: seq<nat>, k: nat): seq<nat>
    requires k < |p|
  {
    p[..k] + p[k + 1..]
  }

  /** The k-th record of list l taken off the list by handle h. */
  function Take(g: Index, l: nat, k: nat, h: nat): Index
    requires l < |g.lists| && k < |g.lists[l]|
  {
    g.(lists := g.lists[l := Without(g.lists[l], k)], owner := g.owner[g.lists[l][k] := Held(h)])
  }

  /** Record o put in front of list l. */
  function Put(g: Index, l: nat, o: nat): Index
    requires l < |g.lists|
  {
    g.(lists := g.lists[l := [o] + g.lists[l]], owner := g.owner[o := On(l)])
  }

  /** Position of a record on a list. */
  ghost function PosOf(p: seq<nat>, o: nat): (k: nat)
    requires o in p
    ensures k < |p| && p[k] == o
  {
    var k :| 0 <= k < |p| && p[k] == o;
    k
  }

  // ---------- what walks over a list find out ----------

  ghost predicate HasKey(d: Disk, o: nat, key: string) {
    o in d.recs && d.recs[o].key == key
  }

  /** A live key is on its chain, and a key that no member of its chain has is not live. */
  lemma LiveOnChain(d: Disk, g: Index, stale: set<nat>, key: string)
    requires WF(d, g, stale)
    ensures key in g.at <==> exists k :: 0 <= k < |g.lists[ListOf(key)]| && HasKey(d, g.lists[ListOf(key)][k], key)
    ensures forall k :: 0 <= k < |g.lists[ListOf(key)]| && HasKey(d, g.lists[ListOf(key)][k], key) ==>
              key in g.at && g.at[key] == g.lists[ListOf(key)][k]
  {
    var p := g.lists[ListOf(key)];
    assert Members(d.recs, g, ListOf(key));
    if key in g.at {
      assert KeyOK(d, g, key);
      assert RecOK(d, g, g.at[key]);
      var k := PosOf(p, g.at[key]);
      assert HasKey(d, p[k], key);
    }
    forall k | 0 <= k < |p| && HasKey(d, p[k], key)
      ensures key in g.at && g.at[key] == p[k]
    {
      assert RecOK(d, g, p[k]);
    }
  }

  /** Two cells of the lists are the same only when they are the same link. */
  lemma CellsDistinct(d: Disk, g: Index, stale: set<nat>, l: nat, k: nat, l': nat, k': nat)
    requires WF(d, g, stale) && l < LISTS && l' < LISTS
    requires k <= |g.lists[l]| && k' <= |g.lists[l']|
    requires CellOf(l, g.lists[l], k) == CellOf(l', g.lists[l'], k')
    ensures l == l' && k == k'
  {
    assert Members(d.recs, g, l) && Members(d.recs, g, l');
    assert k > 0 ==> RecOK(d, g, g.lists[l][k - 1]);
    assert k' > 0 ==> RecOK(d, g, g.lists[l'][k' - 1]);
  }

  /** Every cell the lists use is a cell of the index file. */
  lemma CellInFile(d: Disk, g: Index, stale: set<nat>, l: nat, k: nat)
    requires WF(d, g, stale) && l < LISTS && k <= |g.lists[l]|
    ensures IsCell(d, CellOf(l, g.lists[l], k))
    ensures k == 0 ==> CellOf(l, g.lists[l], k) !in d.recs
  {
    assert Members(d.recs, g, l);
    if k == 0 {
      assert PTR_SZ * l / PTR_SZ == l;
      forall o | o in d.recs ensures o != PTR_SZ * l {
        assert RecOK(d, g, o);
      }
    }
  }

  // ---------- steps ----------

  /** Pointer writes leave every part of a record but its pointer alone. */
  lemma SetPtrKeeps(d: Disk, g: Index, stale: set<nat>, cell: nat, p: nat)
    requires WF(d, g, stale) && IsCell(d, cell)
    ensures var d' := SetPtr(d, cell, p);
            && d'.recs.Keys == d.recs.Keys && |d'.heads| == LISTS && d'.ext == d.ext
            && (forall o :: o in d.recs ==> d'.recs[o] == d.recs[o].(next := d'.recs[o].next))
            && (forall c: nat :: IsCell(d, c) ==> IsCell(d', c) && PtrAt(d', c) == if c == cell then p else PtrAt(d, c))
  {
    var d' := SetPtr(d, cell, p);
    assert d'.recs.Keys == d.recs.Keys;
    forall c: nat | IsCell(d, c)
      ensures IsCell(d', c) && PtrAt(d', c) == if c == cell then p else PtrAt(d, c)
    {
      if c !in d.recs && cell !in d.recs && c / PTR_SZ == cell / PTR_SZ {
        assert c == cell;
      }
    }
  }

  /** The parts of the invariant that do not speak about pointers survive pointer writes. */
  lemma PointersAside(d: Disk, g: Index, stale: set<nat>, cell: nat, p: nat)
    requires WF(d, g, stale) && IsCell(d, cell)
    ensures var d' := SetPtr(d, cell, p);
            AllMembers(d'.recs, g) && AllRecs(d', g) && AllKeys(d', g) && DataDistinct(d'.recs)
  {
    var d' := SetPtr(d, cell, p);
    SetPtrKeeps(d, g, stale, cell, p);
    forall l | 0 <= l < LISTS ensures Members(d'.recs, g, l) {
      assert Members(d.recs, g, l);
    }
    forall o | o in d'.recs ensures RecOK(d', g, o) {
      assert RecOK(d, g, o);
    }
    forall key | key in g.at ensures KeyOK(d', g, key) {
      assert KeyOK(d, g, key);
    }
  }

  /** Writing a cell of one list leaves the links of all other lists alone. */
  lemma OtherListsKept(d: Disk, g: Index, stale: set<nat>, l: nat, k: nat, v: nat)
    requires WF(d, g, stale) && l < LISTS && k <= |g.lists[l]|
    ensures IsCell(d, CellOf(l, g.lists[l], k))
    ensures forall i :: 0 <= i < LISTS && i != l && i !in stale ==>
              Linked(SetPtr(d, CellOf(l, g.lists[l], k), v), i, g.lists[i])
  {
    var cell := CellOf(l, g.lists[l], k);
    CellInFile(d, g, stale, l, k);
    SetPtrKeeps(d, g, stale, cell, v);
    forall i | 0 <= i < LISTS && i != l && i !in stale ensures Linked(SetPtr(d, cell, v), i, g.lists[i]) {
      forall j | 0 <= j <= |g.lists[i]| ensures LinkAt(SetPtr(d, cell, v), i, g.lists[i], j) {
        assert LinkAt(d, i, g.lists[i], j);
        if CellOf(i, g.lists[i], j) == cell { CellsDistinct(d, g, stale, i, j, l, k); }
      }
    }
  }

  /** Membership after a record was taken off a list. */
  lemma TakeMembers(recs: map<nat, Rec>, g: Index, l: nat, k: nat, h: nat)
    requires AllMembers(recs, g) && l < LISTS && k < |g.lists[l]|
    ensures var g' := Take(g, l, k, h); var o := g.lists[l][k];
            && AllMembers(recs, g')
            && (forall i, x :: 0 <= i < LISTS && x in g.lists[i] && x != o ==> x in g'.lists[i])
  {
    var g', p, o := Take(g, l, k, h), g.lists[l], g.lists[l][k];
    var q := g'.lists[l];
    assert Members(recs, g, l);
    assert forall j :: 0 <= j < |q| ==> q[j] == if j < k then p[j] else p[j + 1];
    forall i | 0 <= i < LISTS ensures Members(recs, g', i) {
      assert Members(recs, g, i);
    }
    forall i, x | 0 <= i < LISTS && x in g.lists[i] && x != o ensures x in g'.lists[i] {
      if i == l {
        var j := PosOf(p, x);
        assert x == if j < k then q[j] else q[j - 1];
      }
    }
  }

  /** The records after one was taken off a list; a live one loses its key. */
  lemma TakeRecs(d: Disk, g: Index, l: nat, k: nat, h: nat)
    requires AllMembers(d.recs, g) && AllRecs(d, g) && AllKeys(d, g) && l < LISTS && k < |g.lists[l]|
    ensures var o := g.lists[l][k];
            && o in d.recs
            && var gone := if l == 0 then {} else {d.recs[o].key};
               var g' := Take(g, l, k, h).(at := g.at - gone);
               AllMembers(d.recs, g') && AllRecs(d, g') && AllKeys(d, g')
  {
    var o := g.lists[l][k];
    assert Members(d.recs, g, l) && RecOK(d, g, o);
    var gone := if l == 0 then {} else {d.recs[o].key};
    var g' := Take(g, l, k, h).(at := g.at - gone);
    TakeMembers(d.recs, g, l, k, h);
    forall i | 0 <= i < LISTS ensures Members(d.recs, g', i) {
      assert Members(d.recs, Take(g, l, k, h), i);
    }
    forall x | x in d.recs ensures RecOK(d, g', x) {
      assert RecOK(d, g, x);
    }
    forall key | key in g'.at ensures KeyOK(d, g', key) {
      assert KeyOK(d, g, key);
    }
  }

  /** The links of a list whose k-th cell was made to point past its member. */
  lemma SkipLinks(d: Disk, d': Disk, l: nat, p: seq<nat>, k: nat)
    requires k < |p| && Linked(d, l, p) && p[k] in d.recs
    requires forall i :: 0 <= i <= |p| && i != k ==> CellOf(l, p, i) != CellOf(l, p, k)
    requires forall c: nat :: IsCell(d, c) ==>
             IsCell(d', c) && PtrAt(d', c) == if c == CellOf(l, p, k) then d.recs[p[k]].next else PtrAt(d, c)
    ensures Linked(d', l, Without(p, k))
  {
    var q := Without(p, k);
    assert LinkAt(d, l, p, k) && LinkAt(d, l, p, k + 1);
    forall j | 0 <= j <= |q| ensures LinkAt(d', l, q, j) {
      assert LinkAt(d, l, p, if j <= k then j else j + 1);
    }
  }

  /** The links of the free list after its k-th member was unlinked. */
  lemma UnlinkLinks(d: Disk, g: Index, stale: set<nat>, l: nat, k: nat)
    requires WF(d, g, stale) && l < LISTS && l !in stale && k < |g.lists[l]|
    ensures var p := g.lists[l]; var cell := CellOf(l, p, k);
            && IsCell(d, cell) && p[k] in d.recs
            && Linked(SetPtr(d, cell, d.recs[p[k]].next), l, Without(p, k))
  {
    var p := g.lists[l];
    var cell := CellOf(l, p, k);
    CellInFile(d, g, stale, l, k);
    assert Members(d.recs, g, l);
    var v := d.recs[p[k]].next;
    SetPtrKeeps(d, g, stale, cell, v);
    forall i | 0 <= i <= |p| && i != k ensures CellOf(l, p, i) != cell {
      if CellOf(l, p, i) == cell { CellsDistinct(d, g, stale, l, i, l, k); }
    }
    SkipLinks(d, SetPtr(d, cell, v), l, p, k);
  }

  /**
   Taking a record off the free list by letting the cell before it point past it.
   The record is then held by h.
  */
  lemma TakeFree(d: Disk, g: Index, stale: set<nat>, k: nat, h: nat)
    requires WF(d, g, stale) && 0 !in stale && k < |g.lists[0]|
    ensures var p := g.lists[0]; var cell := CellOf(0, p, k);
            && IsCell(d, cell) && p[k] in d.recs
            && WF(SetPtr(d, cell, d.recs[p[k]].next), Take(g, 0, k, h), stale)
  {
    var p := g.lists[0];
    UnlinkLinks(d, g, stale, 0, k);
    var cell, v := CellOf(0, p, k), d.recs[p[k]].next;
    OtherListsKept(d, g, stale, 0, k, v);
    PointersAside(d, g, stale, cell, v);
    var d' := SetPtr(d, cell, v);
    TakeRecs(d', g, 0, k, h);
    assert g.at - {} == g.at;
  }

  /** The links of a list with a new first member. */
  lemma FirstLinked(d: Disk, g: Index, stale: set<nat>, l: nat, o: nat)
    requires WF(d, g, stale) && l < LISTS && l !in stale && IsCell(d, PTR_SZ * l)
    requires o in d.recs && d.recs[o].next == d.heads[l]
    ensures Linked(SetPtr(d, PTR_SZ * l, o), l, [o] + g.lists[l])
  {
    var p, cell := g.lists[l], PTR_SZ * l;
    var d', q := SetPtr(d, cell, o), [o] + p;
    SetPtrKeeps(d, g, stale, cell, o);
    CellInFile(d, g, stale, l, 0);
    assert cell / PTR_SZ == l;
    forall j | 0 <= j <= |q| ensures LinkAt(d', l, q, j) {
      if j > 0 {
        assert LinkAt(d, l, p, j - 1);
        if j > 1 && CellOf(l, p, j - 1) == cell { CellsDistinct(d, g, stale, l, j - 1, l, 0); }
      }
    }
  }

  /** Members, records and keys after a held record joined a list. */
  lemma PutRecs(d: Disk, g: Index, l: nat, o: nat)
    requires AllMembers(d.recs, g) && AllRecs(d, g) && AllKeys(d, g) && l < LISTS
    requires o in d.recs && g.owner[o].Held?
    requires if l == 0 then IsBlank(d.recs[o].key) else l == ListOf(d.recs[o].key) && d.recs[o].key !in g.at
    ensures var g' := PutAt(d, g, l, o); AllMembers(d.recs, g') && AllRecs(d, g') && AllKeys(d, g')
  {
    var g' := PutAt(d, g, l, o);
    forall i | 0 <= i < LISTS ensures Members(d.recs, g', i) {
      assert Members(d.recs, g, i);
    }
    forall x | x in d.recs ensures RecOK(d, g', x) {
      assert RecOK(d, g, x);
    }
    forall y | y in g'.at ensures KeyOK(d, g', y) {
      assert y in g.at ==> KeyOK(d, g, y);
    }
  }

  /** A record put in front of a list, live under its key if the list is a chain. */
  ghost function PutAt(d: Disk, g: Index, l: nat, o: nat): Index
    requires l < |g.lists| && o in d.recs
  {
    if l == 0 then Put(g, 0, o) else Put(g, l, o).(at := g.at[d.recs[o].key := o])
  }

  /**
   Putting a held record in front of a list: its own pointer already names the old
   first member, and the head is made to name the record.
  */
  lemma PutFirst(d: Disk, g: Index, stale: set<nat>, l: nat, o: nat)
    requires WF(d, g, stale) && l < LISTS && l !in stale
    requires o in d.recs && g.owner[o].Held? && d.recs[o].next == d.heads[l]
    requires if l == 0 then IsBlank(d.recs[o].key) else l == ListOf(d.recs[o].key) && d.recs[o].key !in g.at
    ensures IsCell(d, PTR_SZ * l) && WF(SetPtr(d, PTR_SZ * l, o), PutAt(d, g, l, o), stale)
  {
    OtherListsKept(d, g, stale, l, 0, o);
    FirstLinked(d, g, stale, l, o);
    SetPtrKeeps(d, g, stale, PTR_SZ * l, o);
    PointersAside(d, g, stale, PTR_SZ * l, o);
    PutRecs(SetPtr(d, PTR_SZ * l, o), g, l, o);
  }

  /** The links after the record at position k of list l was overwritten, pointer and all. */
  lemma DetachLinks(d: Disk, g: Index, stale: set<nat>, l: nat, k: nat, r: Rec)
    requires WF(d, g, stale) && l < LISTS && l !in stale && k < |g.lists[l]|
    ensures var d' := SetRec(d, g.lists[l][k], r); var q := Without(g.lists[l], k);
            && (forall i :: 0 <= i < LISTS && i != l && i !in stale ==> Linked(d', i, g.lists[i]))
            && LinkedExcept(d', l, q, k)
            && IsCell(d', CellOf(l, q, k))
  {
    var p, o := g.lists[l], g.lists[l][k];
    var d', q := SetRec(d, o, r), Without(p, k);
    forall i | 0 <= i < LISTS && i != l && i !in stale ensures Linked(d', i, g.lists[i]) {
      forall j | 0 <= j <= |g.lists[i]| ensures LinkAt(d', i, g.lists[i], j) {
        assert LinkAt(d, i, g.lists[i], j);
        if CellOf(i, g.lists[i], j) == o { CellsDistinct(d, g, stale, i, j, l, k + 1); }
      }
    }
    forall j | 0 <= j <= |q| && j != k ensures LinkAt(d', l, q, j) {
      var i := if j < k then j else j + 1;
      assert LinkAt(d, l, p, i);
      if CellOf(l, p, i) == o { CellsDistinct(d, g, stale, l, i, l, k + 1); }
    }
    CellInFile(d, g, stale, l, k);
  }

  /** Rewriting a record that no list names. */
  lemma RewriteRecs(d: Disk, g: Index, o: nat, r: Rec)
    requires AllMembers(d.recs, g) && AllRecs(d, g) && AllKeys(d, g) && DataDistinct(d.recs)
    requires o in d.recs && g.owner[o].Held? && r.datoff == d.recs[o].datoff && r.datlen == d.recs[o].datlen
    ensures var d' := SetRec(d, o, r);
            AllMembers(d'.recs, g) && AllRecs(d', g) && AllKeys(d', g) && DataDistinct(d'.recs)
  {
    var d' := SetRec(d, o, r);
    forall i | 0 <= i < LISTS ensures Members(d'.recs, g, i) {
      assert Members(d.recs, g, i);
    }
    forall x | x in d'.recs ensures RecOK(d', g, x) {
      assert RecOK(d, g, x);
    }
    forall y | y in g.at ensures KeyOK(d', g, y) {
      assert KeyOK(d, g, y);
    }
  }

  /**
   Blanking a live record while its chain still points to it. The chain is stale
   from then on: the link at the record's old place is wrong, all others are right.
  */
  lemma Detach(d: Disk, g: Index, stale: set<nat>, l: nat, k: nat, r: Rec, h: nat)
    requires WF(d, g, stale) && 0 < l < LISTS && l !in stale && k < |g.lists[l]|
    requires var o := g.lists[l][k]; o in d.recs && r.datoff == d.recs[o].datoff && r.datlen == d.recs[o].datlen
    ensures var o := g.lists[l][k]; var d' := SetRec(d, o, r);
            var g' := Take(g, l, k, h).(at := g.at - {d.recs[o].key});
            && WF(d', g', stale + {l})
            && LinkedExcept(d', l, g'.lists[l], k)
            && IsCell(d', CellOf(l, g'.lists[l], k))
  {
    var o := g.lists[l][k];
    var g' := Take(g, l, k, h).(at := g.at - {d.recs[o].key});
    TakeRecs(d, g, l, k, h);
    DetachLinks(d, g, stale, l, k, r);
    RewriteRecs(d, g', o, r);
  }

  /** Mending the one wrong link of a stale list. */
  lemma Relink(d: Disk, g: Index, stale: set<nat>, l: nat, k: nat)
    requires WF(d, g, stale) && l < LISTS && k <= |g.lists[l]| && LinkedExcept(d, l, g.lists[l], k)
    ensures var cell := CellOf(l, g.lists[l], k);
            IsCell(d, cell) && WF(SetPtr(d, cell, ValOf(g.lists[l], k)), g, stale - {l})
  {
    var p := g.lists[l];
    var cell, v := CellOf(l, p, k), ValOf(p, k);
    CellInFile(d, g, stale, l, k);
    var d' := SetPtr(d, cell, v);
    SetPtrKeeps(d, g, stale, cell, v);
    forall i | 0 <= i < LISTS && i !in stale - {l} ensures Linked(d', i, g.lists[i]) {
      forall j | 0 <= j <= |g.lists[i]| ensures LinkAt(d', i, g.lists[i], j) {
        if CellOf(i, g.lists[i], j) == cell { CellsDistinct(d, g, stale, i, j, l, k); }
        assert i != l || j != k ==> LinkAt(d, i, g.lists[i], j);
      }
    }
    PointersAside(d, g, stale, cell, v);
  }

  /** Pushing a record on the free list does not disturb the one open link of a stale chain. */
  lemma OpenLinkKept(d: Disk, g: Index, stale: set<nat>, l: nat, k: nat, o: nat)
    requires WF(d, g, stale) && 0 < l < LISTS && k <= |g.lists[l]| && LinkedExcept(d, l, g.lists[l], k)
    ensures IsCell(d, FREE_OFF) && LinkedExcept(SetPtr(d, FREE_OFF, o), l, g.lists[l], k)
  {
    CellInFile(d, g, stale, 0, 0);
    SetPtrKeeps(d, g, stale, FREE_OFF, o);
    forall j | 0 <= j <= |g.lists[l]| && j != k ensures LinkAt(SetPtr(d, FREE_OFF, o), l, g.lists[l], j) {
      assert LinkAt(d, l, g.lists[l], j);
      if CellOf(l, g.lists[l], j) == FREE_OFF { CellsDistinct(d, g, stale, l, j, 0, 0); }
    }
  }

  /** Writing a held record anew, or adding a record nobody points to, leaves the structure intact. */
  lemma WriteHeld(d: Disk, g: Index, stale: set<nat>, o: nat, r: Rec, h: nat)
    requires WF(d, g, stale) && HEADER <= o
    requires o in d.recs ==> g.owner[o] == Held(h)
    requires r.datoff in d.ext && |d.ext[r.datoff]| + 1 == r.datlen
    requires forall x :: x in d.recs && x != o ==> d.recs[x].datoff != r.datoff
    ensures WF(SetRec(d, o, r), g.(owner := g.owner[o := Held(h)]), stale)
  {
    var d', g' := SetRec(d, o, r), g.(owner := g.owner[o := Held(h)]);
    HeldLinks(d, g, stale, o, r);
    forall i | 0 <= i < LISTS ensures Members(d'.recs, g', i) {
      assert Members(d.recs, g, i);
    }
    forall x | x in d'.recs ensures RecOK(d', g', x) {
      assert x in d.recs ==> RecOK(d, g, x);
    }
    forall key | key in g'.at ensures KeyOK(d', g', key) {
      assert KeyOK(d, g, key);
    }
  }

  lemma HeldLinks(d: Disk, g: Index, stale: set<nat>, o: nat, r: Rec)
    requires WF(d, g, stale) && HEADER <= o
    requires o in d.recs ==> g.owner[o].Held?
    ensures AllLinks(SetRec(d, o, r), g.lists, stale)
  {
    var d' := SetRec(d, o, r);
    forall i | 0 <= i < LISTS && i !in stale ensures Linked(d', i, g.lists[i]) {
      assert Members(d.recs, g, i);
      forall j | 0 <= j <= |g.lists[i]| ensures LinkAt(d', i, g.lists[i], j) {
        assert LinkAt(d, i, g.lists[i], j);
      }
    }
  }

  /** Writing data of the same length, or new data, leaves the structure intact. */
  lemma WriteData(d: Disk, g: Index, stale: set<nat>, e: nat, val: string)
    requires WF(d, g, stale) && (e in d.ext ==> |val| == |d.ext[e]|)
    ensures WF(SetExt(d, e, val), g, stale)
  {
    var d' := SetExt(d, e, val);
    forall i | 0 <= i < LISTS && i !in stale ensures Linked(d', i, g.lists[i]) {
      forall j | 0 <= j <= |g.lists[i]| ensures LinkAt(d', i, g.lists[i], j) {
        assert LinkAt(d, i, g.lists[i], j);
      }
    }
    forall x | x in d'.recs ensures RecOK(d', g, x) {
      assert RecOK(d, g, x);
    }
    forall key | key in g.at ensures KeyOK(d', g, key) {
      assert KeyOK(d, g, key);
    }
  }

  function NoIndex(): Index { Index(seq(LISTS, _ => []), map[], map[]) }

  lemma EmptyWF()
    ensures WF(EmptyDisk(), NoIndex(), {})
  {
  }
}
