/**
 The writes each operation makes, taken together: what they do to the lists and to
 the string map the files stand for. In between, one record is on no list.
*/
module DbSteps {
  import opened DbFormat
  import opened DbDisk
  import opened DbIndex

  /** m is the map the live records and their data spell out. */
  ghost predicate Reads(d: Disk, g: Index, m: map<string, string>) {
    && m.Keys == g.at.Keys
    && forall key :: key in g.at ==> HasValue(d, g.at[key], m[key])
  }

  ghost predicate HasValue(d: Disk, o: nat, val: string) {
    o in d.recs && d.recs[o].datoff in d.ext && d.ext[d.recs[o].datoff] == val
  }

  /** No record is at hand, that is, taken off one list and not yet on another. */
  ghost predicate Placed(g: Index) {
    forall o :: o in g.owner ==> g.owner[o] != Held(0)
  }

  /** Every record is on a list. */
  ghost predicate Whole(g: Index) {
    forall o :: o in g.owner ==> g.owner[o].On?
  }

  /** The key's chain has a record whose key holds a separator. */
  ghost predicate Jammed(m: map<string, string>, key: string) {
    exists x :: x in m && SEP in x && ListOf(x) == ListOf(key)
  }

  /** Such a record is the first of its chain: from then on nothing is put in front of it. */
  ghost predicate Fronts(g: Index, m: map<string, string>) {
    && |g.lists| == LISTS
    && forall x :: x in m && SEP in x ==>
         x in g.at && g.lists[ListOf(x)] != [] && g.lists[ListOf(x)][0] == g.at[x]
  }

  /** A free record whose key and data are as long as wanted. */
  ghost predicate Fitting(d: Disk, o: nat, keylen: nat, datlen: nat) {
    o in d.recs && |d.recs[o].key| == keylen && d.recs[o].datlen == datlen
  }

  ghost predicate FreeSlot(d: Disk, g: Index, keylen: nat, datlen: nat)
    requires |g.lists| == LISTS
  {
    exists k :: 0 <= k < |g.lists[0]| && Fitting(d, g.lists[0][k], keylen, datlen)
  }

  /** Any free record of these lengths will do. */
  lemma SlotsFit(d: Disk, g: Index, keylen: nat, datlen: nat)
    requires |g.lists| == LISTS
    ensures FreeSlot(d, g, keylen, datlen) <==>
              exists o :: o in g.lists[0] && o in d.recs && |d.recs[o].key| == keylen && d.recs[o].datlen == datlen
  {
    forall o | o in g.lists[0] && Fitting(d, o, keylen, datlen) ensures FreeSlot(d, g, keylen, datlen) {
      var k :| 0 <= k < |g.lists[0]| && g.lists[0][k] == o;
      assert Fitting(d, g.lists[0][k], keylen, datlen);
    }
  }

  /** Record o, and no other, is at hand. */
  ghost predicate Loose(g: Index, o: nat) {
    && o in g.owner && g.owner[o] == Held(0)
    && forall x :: x in g.owner && x != o ==> g.owner[x] != Held(0)
  }

  // ---------- lemmas about the map ----------

  /** A key is in the map exactly when the walk along its chain meets it. */
  lemma KeyKnown(d: Disk, g: Index, m: map<string, string>, key: string, k: nat)
    requires WF(d, g, {}) && Reads(d, g, m)
    requires k <= |g.lists[ListOf(key)]|
    requires forall j :: 0 <= j < k ==> !HasKey(d, g.lists[ListOf(key)][j], key)
    requires k < |g.lists[ListOf(key)]| ==> HasKey(d, g.lists[ListOf(key)][k], key)
    ensures key in m <==> k < |g.lists[ListOf(key)]|
    ensures k < |g.lists[ListOf(key)]| ==> key in g.at && g.at[key] == g.lists[ListOf(key)][k]
  {
    LiveOnChain(d, g, {}, key);
  }

  lemma ListCount(d: Disk, g: Index)
    requires WF(d, g, {})
    ensures |g.lists| == LISTS
  {
  }

  /** The k-th link of a list, and the member it leads to. */
  lemma LinkOf(d: Disk, g: Index, l: nat, k: nat)
    requires WF(d, g, {}) && l < LISTS && |g.lists| == LISTS && k <= |g.lists[l]|
    ensures var p := g.lists[l];
            && IsCell(d, CellOf(l, p, k)) && PtrAt(d, CellOf(l, p, k)) == ValOf(p, k)
            && (k < |p| ==> p[k] in d.recs && p[k] != 0 && ValOf(p, k) == p[k])
  {
    assert LinkAt(d, l, g.lists[l], k);
    assert Members(d.recs, g, l);
    assert k < |g.lists[l]| ==> RecOK(d, g, g.lists[l][k]);
  }

  lemma HeadCell(d: Disk, g: Index, l: nat)
    requires WF(d, g, {}) && l < LISTS
    ensures |d.heads| == LISTS && |g.lists| == LISTS
    ensures IsCell(d, PTR_SZ * l) && PtrAt(d, PTR_SZ * l) == d.heads[l]
  {
    CellInFile(d, g, {}, l, 0);
    assert PTR_SZ * l / PTR_SZ == l;
  }

  lemma KnownLength(d: Disk, g: Index, m: map<string, string>, key: string)
    requires WF(d, g, {}) && Reads(d, g, m) && key in m && key in g.at && g.at[key] in d.recs
    ensures d.recs[g.at[key]].datlen == |m[key]| + 1
  {
    assert HasValue(d, g.at[key], m[key]);
    assert RecOK(d, g, g.at[key]);
  }

  /** Structure and links are as they were; a datum nobody reads, or of the same key, changed. */
  lemma ReadsAfter(d: Disk, g: Index, m: map<string, string>, d': Disk, g': Index, m': map<string, string>)
    requires Reads(d, g, m) && m'.Keys == g'.at.Keys
    requires forall key :: key in g'.at ==>
               || HasValue(d', g'.at[key], m'[key])
               || (key in g.at && g.at[key] == g'.at[key] && m[key] == m'[key] && SameDatum(d, d', g.at[key]))
    ensures Reads(d', g', m')
  {
    forall key | key in g'.at ensures HasValue(d', g'.at[key], m'[key]) {
      if !HasValue(d', g'.at[key], m'[key]) {
        assert HasValue(d, g.at[key], m[key]);
      }
    }
  }

  /** Pointers do not matter to the map. */
  lemma PointerReads(d: Disk, g: Index, m: map<string, string>, cell: nat, v: nat)
    requires Reads(d, g, m) && IsCell(d, cell)
    ensures Reads(SetPtr(d, cell, v), g, m)
  {
    forall key | key in g.at ensures HasValue(SetPtr(d, cell, v), g.at[key], m[key]) {
      assert HasValue(d, g.at[key], m[key]);
    }
  }

  ghost predicate SameDatum(d: Disk, d': Disk, o: nat) {
    o in d.recs ==>
      && o in d'.recs && d'.recs[o].datoff == d.recs[o].datoff
      && (d.recs[o].datoff in d.ext ==>
           d.recs[o].datoff in d'.ext && d'.ext[d.recs[o].datoff] == d.ext[d.recs[o].datoff])
  }

  // ---------- records that stop the reader ----------

  /** A walk along the key's chain is stopped at its first record or not at all. */
  lemma FrontStops(d: Disk, g: Index, m: map<string, string>, key: string)
    requires WF(d, g, {}) && Reads(d, g, m) && Fronts(g, m)
    ensures var p := g.lists[ListOf(key)];
            && (Jammed(m, key) <==> p != [] && p[0] in d.recs && SEP in d.recs[p[0]].key)
            && forall k :: 0 < k < |p| ==> p[k] in d.recs && SEP !in d.recs[p[k]].key
  {
    var l, p := ListOf(key), g.lists[ListOf(key)];
    assert Members(d.recs, g, l);
    forall k | 0 <= k < |p| ensures p[k] in d.recs && d.recs[p[k]].key in m && ListOf(d.recs[p[k]].key) == l {
      assert RecOK(d, g, p[k]);
    }
    forall k | 0 < k < |p| ensures SEP !in d.recs[p[k]].key {
      assert RecOK(d, g, p[k]) && p[0] != p[k];
    }
    if Jammed(m, key) {
      var x :| x in m && SEP in x && ListOf(x) == l;
      assert KeyOK(d, g, x);
    }
  }

  /** Keys of free records are blank. */
  lemma FreePlain(d: Disk, g: Index, k: nat)
    requires WF(d, g, {}) && |g.lists| == LISTS && k < |g.lists[0]|
    ensures g.lists[0][k] in d.recs && SEP !in d.recs[g.lists[0][k]].key
  {
    assert Members(d.recs, g, 0);
    assert RecOK(d, g, g.lists[0][k]);
  }

  /** Chains of other keys, and what is on them, are as they were. */
  lemma FrontsAfter(g: Index, m: map<string, string>, g': Index, m': map<string, string>, key: string)
    requires Fronts(g, m) && !Jammed(m, key) && |g'.lists| == LISTS
    requires forall x :: x in m' && x != key ==> x in m
    requires forall x :: x in g.at && x != key ==> x in g'.at && g'.at[x] == g.at[x]
    requires forall l :: 0 < l < LISTS && l != ListOf(key) ==> g'.lists[l] == g.lists[l]
    requires key in m' && SEP in key ==>
               key in g'.at && g'.lists[ListOf(key)] != [] && g'.lists[ListOf(key)][0] == g'.at[key]
    ensures Fronts(g', m')
  {
    forall x | x in m' && SEP in x && x != key ensures ListOf(x) != ListOf(key) {
      assert x in m;
    }
  }

  /** Taking a free record off its list does not concern the chains. */
  lemma FrontsFree(g: Index, m: map<string, string>, g': Index)
    requires Fronts(g, m) && |g'.lists| == LISTS && g'.at == g.at
    requires forall l :: 0 < l < LISTS ==> g'.lists[l] == g.lists[l]
    ensures Fronts(g', m)
  {
  }

  lemma FrontsDeleted(d: Disk, g: Index, m: map<string, string>, key: string, k: nat)
    requires Fronts(g, m) && !Jammed(m, key) && k < |g.lists[ListOf(key)]|
    requires HasKey(d, g.lists[ListOf(key)][k], key)
    ensures Fronts(Deleted(d, g, ListOf(key), k), m - {key})
    ensures Whole(g) ==> Whole(Deleted(d, g, ListOf(key), k))
  {
    FrontsAfter(g, m, Deleted(d, g, ListOf(key), k), m - {key}, key);
  }

  lemma FrontsPut(d: Disk, g: Index, m: map<string, string>, key: string, val: string, o: nat)
    requires Fronts(g, m) && !Jammed(m, key) && HasKey(d, o, key)
    ensures Fronts(PutAt(d, g, ListOf(key), o), m[key := val])
  {
    FrontsAfter(g, m, PutAt(d, g, ListOf(key), o), m[key := val], key);
  }

  lemma StillFree(m: map<string, string>, key: string)
    requires !Jammed(m, key)
    ensures !Jammed(m - {key}, key)
  {
  }

  lemma OverwriteFronts(g: Index, m: map<string, string>, key: string, val: string)
    requires Fronts(g, m) && key in m
    ensures Fronts(g, m[key := val])
  {
  }

  /** Storing a key with a separator jams just its chain; other stores, and deletions, jam none. */
  lemma JamsOnly(m: map<string, string>, key: string, val: string, x: string)
    ensures Jammed(m[key := val], x) <==> Jammed(m, x) || (SEP in key && ListOf(key) == ListOf(x))
    ensures Jammed(m - {key}, x) ==> Jammed(m, x)
  {
    if SEP in key && ListOf(key) == ListOf(x) {
      assert key in m[key := val];
    }
    if y :| y in m && SEP in y && ListOf(y) == ListOf(x) {
      assert y in m[key := val];
    }
  }

  /** What an operation on a key does to the map. */
  ghost predicate Touched(m: map<string, string>, m': map<string, string>, key: string) {
    m' == m || (!Jammed(m, key) && m' - {key} == m - {key})
  }

  /** One operation leaves all keys of a jammed chain as they are. */
  lemma JammedStays(m: map<string, string>, m': map<string, string>, x: string, key: string)
    requires Touched(m, m', x) && Jammed(m, key)
    ensures Jammed(m', key)
    ensures forall y :: ListOf(y) == ListOf(key) ==> (y in m' <==> y in m) && (y in m ==> m'[y] == m[y])
  {
    if m' != m {
      assert ListOf(x) != ListOf(key) by {
        var z :| z in m && SEP in z && ListOf(z) == ListOf(key);
      }
      forall y | y != x ensures (y in m' <==> y in m) && (y in m ==> m'[y] == m[y]) {
        assert y in m' <==> y in m' - {x};
        assert y in m <==> y in m - {x};
        assert y in m - {x} ==> (m' - {x})[y] == (m - {x})[y];
      }
      var z :| z in m && SEP in z && ListOf(z) == ListOf(key);
      assert z in m';
    }
  }

  /**
   Once a key with a separator is stored, its chain stays as it is for ever, whatever is
   stored and deleted: its keys can be neither read, nor changed, nor removed.
  */
  lemma {:induction false} JammedForever(ms: seq<map<string, string>>, keys: seq<string>, key: string, n: nat)
    requires |ms| == |keys| + 1 && n <= |keys|
    requires forall i :: 0 <= i < |keys| ==> Touched(ms[i], ms[i + 1], keys[i])
    requires Jammed(ms[0], key)
    ensures Jammed(ms[n], key)
    ensures forall y :: ListOf(y) == ListOf(key) ==>
              (y in ms[n] <==> y in ms[0]) && (y in ms[0] ==> ms[n][y] == ms[0][y])
  {
    if n > 0 {
      hide Jammed, Touched;
      JammedForever(ms, keys, key, n - 1);
      JammedStays(ms[n - 1], ms[n], keys[n - 1], key);
    }
  }

  // ---------- deleting ----------

  /** The disk with record o's data blanked. */
  function Blanked(d: Disk, o: nat): Disk
    requires o in d.recs && d.recs[o].datlen >= 1
  {
    SetExt(d, d.recs[o].datoff, Spaces(d.recs[o].datlen - 1))
  }

  /** Then with its key blanked and its pointer naming the first free record. */
  function Erased(d: Disk, o: nat): Disk
    requires o in d.recs && d.recs[o].datlen >= 1 && d.heads != []
  {
    var r := d.recs[o];
    SetRec(Blanked(d, o), o, Rec(d.heads[0], Spaces(|r.key|), r.datoff, r.datlen))
  }

  ghost function Detached(d: Disk, g: Index, l: nat, k: nat): Index
    requires l < |g.lists| && k < |g.lists[l]| && g.lists[l][k] in d.recs
  {
    Take(g, l, k, 0).(at := g.at - {d.recs[g.lists[l][k]].key})
  }

  /** Erasing the k-th record of chain l: from then on its chain has one open link. */
  lemma EraseStep(d: Disk, g: Index, l: nat, k: nat)
    requires WF(d, g, {}) && 0 < l < LISTS && k < |g.lists[l]|
    requires g.lists[l][k] in d.recs && d.recs[g.lists[l][k]].datlen >= 1
    ensures var o := g.lists[l][k]; var g' := Detached(d, g, l, k);
            && d.recs[o].datoff in d.ext && |d.ext[d.recs[o].datoff]| + 1 == d.recs[o].datlen
            && WF(Erased(d, o), g', {l}) && LinkedExcept(Erased(d, o), l, g'.lists[l], k)
  {
    var o := g.lists[l][k];
    assert RecOK(d, g, o);
    WriteData(d, g, {}, d.recs[o].datoff, Spaces(d.recs[o].datlen - 1));
    var r := Erased(d, o).recs[o];
    Detach(Blanked(d, o), g, {}, l, k, r, 0);
    assert {} + {l} == {l};
  }

  /** Freeing it and mending the link: the chain goes on without the record. */
  lemma FreeStep(d: Disk, g: Index, l: nat, k: nat, o: nat)
    requires WF(d, g, {l}) && 0 < l < LISTS && k <= |g.lists[l]| && LinkedExcept(d, l, g.lists[l], k)
    requires o in d.recs && g.owner[o].Held? && d.recs[o].next == d.heads[0] && IsBlank(d.recs[o].key)
    ensures IsCell(d, FREE_OFF)
    ensures var d' := SetPtr(d, FREE_OFF, o); var g' := Put(g, 0, o); var cell := CellOf(l, g.lists[l], k);
            IsCell(d', cell) && WF(SetPtr(d', cell, ValOf(g.lists[l], k)), g', {})
  {
    OpenLinkKept(d, g, {l}, l, k, o);
    PutFirst(d, g, {l}, 0, o);
    var d', g' := SetPtr(d, FREE_OFF, o), Put(g, 0, o);
    Relink(d', g', {l}, l, k);
    assert {l} - {l} == {};
  }

  /** The lists once the record is on the free list. */
  ghost function Deleted(d: Disk, g: Index, l: nat, k: nat): Index
    requires l < |g.lists| && k < |g.lists[l]| && g.lists[l][k] in d.recs
  {
    Put(Detached(d, g, l, k), 0, g.lists[l][k])
  }

  /** The four writes of a delete, and what they come to. */
  lemma DeleteSteps(d: Disk, g: Index, m: map<string, string>, l: nat, k: nat, o: nat)
    requires WF(d, g, {}) && Placed(g) && Reads(d, g, m) && 0 < l < LISTS && |g.lists| == LISTS
    requires k < |g.lists[l]| && g.lists[l][k] == o && o in d.recs && d.recs[o].datlen >= 1
    ensures d.heads != [] && d.recs[o].datoff in d.ext && |d.ext[d.recs[o].datoff]| + 1 == d.recs[o].datlen
    ensures IsCell(Blanked(d, o), FREE_OFF) && PtrAt(Blanked(d, o), FREE_OFF) == d.heads[0]
    ensures IsCell(Erased(d, o), FREE_OFF)
    ensures var d3, cell := SetPtr(Erased(d, o), FREE_OFF, o), CellOf(l, g.lists[l], k);
            && IsCell(d3, cell)
            && var d4 := SetPtr(d3, cell, d.recs[o].next);
               && WF(d4, Deleted(d, g, l, k), {})
               && Reads(d4, Deleted(d, g, l, k), m - {d.recs[o].key})
    ensures Placed(Deleted(d, g, l, k))
  {
    hide AllMembers, AllLinks, AllRecs, AllKeys, DataDistinct, Reads, LinkedExcept, Placed;
    var r, p := d.recs[o], g.lists[l];
    var d2, g2 := Erased(d, o), Detached(d, g, l, k);
    EraseStep(d, g, l, k);
    CellInFile(d, g, {}, 0, 0);
    assert CellOf(l, g2.lists[l], k) == CellOf(l, p, k);
    LinkOf(d, g, l, k + 1);
    assert ValOf(g2.lists[l], k) == r.next;
    FreeStep(d2, g2, l, k, o);
    DeleteReads(d, g, m, l, k);
    PointerReads(d2, g2, m - {r.key}, FREE_OFF, o);
    PointerReads(SetPtr(d2, FREE_OFF, o), g2, m - {r.key}, CellOf(l, p, k), r.next);
    SameAt(SetPtr(SetPtr(d2, FREE_OFF, o), CellOf(l, p, k), r.next), g2, Put(g2, 0, o), m - {r.key});
    PlacedAgain(g, g2, o);
  }

  /** The deleted record is the first free one, with key and data as long as before. */
  lemma FreedRecord(d: Disk, g: Index, l: nat, k: nat, o: nat)
    requires |g.lists| == LISTS && 0 < l < LISTS && k < |g.lists[l]| && g.lists[l][k] == o
    requires o in d.recs && d.recs[o].datlen >= 1 && d.heads != [] && IsCell(Erased(d, o), FREE_OFF)
    requires IsCell(SetPtr(Erased(d, o), FREE_OFF, o), CellOf(l, g.lists[l], k))
    ensures Deleted(d, g, l, k).lists[0] == [o] + g.lists[0] && |Deleted(d, g, l, k).lists| == LISTS
    ensures var d' := SetPtr(SetPtr(Erased(d, o), FREE_OFF, o), CellOf(l, g.lists[l], k), d.recs[o].next);
            o in d'.recs && |d'.recs[o].key| == |d.recs[o].key| && d'.recs[o].datlen == d.recs[o].datlen
  {
  }

  lemma SameAt(d: Disk, g: Index, g': Index, m: map<string, string>)
    requires Reads(d, g, m) && g'.at == g.at
    ensures Reads(d, g', m)
  {
  }

  lemma PlacedAgain(g: Index, g': Index, o: nat)
    requires Placed(g) && |g'.lists| > 0 && g'.owner == g.owner[o := Held(0)]
    ensures Placed(Put(g', 0, o))
  {
  }

  lemma DeleteReads(d: Disk, g: Index, m: map<string, string>, l: nat, k: nat)
    requires WF(d, g, {}) && Reads(d, g, m) && 0 < l < LISTS && k < |g.lists[l]|
    requires g.lists[l][k] in d.recs && d.recs[g.lists[l][k]].datlen >= 1
    ensures var o := g.lists[l][k]; Reads(Erased(d, o), Detached(d, g, l, k), m - {d.recs[o].key})
  {
    var o := g.lists[l][k];
    var d2, g2, m2 := Erased(d, o), Detached(d, g, l, k), m - {d.recs[o].key};
    assert RecOK(d, g, o);
    forall key | key in g2.at ensures SameDatum(d, d2, g.at[key]) {
      assert KeyOK(d, g, key) && g.at[key] != o;
    }
    ReadsAfter(d, g, m, d2, g2, m2);
  }

  // ---------- storing ----------

  /** Data written where no live record keeps its own. */
  lemma DataStep(d: Disk, g: Index, m: map<string, string>, e: nat, val: string)
    requires WF(d, g, {}) && Reads(d, g, m)
    requires e in d.ext ==> |val| == |d.ext[e]| && exists o :: Loose(g, o) && o in d.recs && d.recs[o].datoff == e
    ensures WF(SetExt(d, e, val), g, {}) && Reads(SetExt(d, e, val), g, m)
  {
    WriteData(d, g, {}, e, val);
    forall key | key in g.at ensures SameDatum(d, SetExt(d, e, val), g.at[key]) {
      assert KeyOK(d, g, key) && RecOK(d, g, g.at[key]);
    }
    ReadsAfter(d, g, m, SetExt(d, e, val), g, m);
  }

  /** A record written that no list names, over the loose one or at the end. */
  lemma RecStep(d: Disk, g: Index, m: map<string, string>, o: nat, r: Rec, h: nat)
    requires WF(d, g, {}) && Reads(d, g, m) && HEADER <= o
    requires (h == 0 && Loose(g, o)) || (Placed(g) && o !in d.recs)
    requires r.datoff in d.ext && |d.ext[r.datoff]| + 1 == r.datlen
    requires forall x :: x in d.recs && x != o ==> d.recs[x].datoff != r.datoff
    ensures var d' := SetRec(d, o, r); var g' := g.(owner := g.owner[o := Held(h)]);
            && WF(d', g', {}) && Reads(d', g', m)
            && if h == 0 then Loose(g', o) else Placed(g')
  {
    hide AllMembers, AllLinks, AllRecs, DataDistinct, Reads;
    var d', g' := SetRec(d, o, r), g.(owner := g.owner[o := Held(h)]);
    WriteHeld(d, g, {}, o, r, h);
    forall key | key in g.at ensures SameDatum(d, d', g.at[key]) {
      assert KeyOK(d, g, key);
    }
    assert m.Keys == g.at.Keys by { KeysRead(d, g, m); }
    ReadsAfter(d, g, m, d', g', m);
  }

  lemma KeysRead(d: Disk, g: Index, m: map<string, string>)
    requires Reads(d, g, m)
    ensures m.Keys == g.at.Keys
  {
  }

  /** The loose record becomes the first of its key's chain: the key is stored. */
  lemma LinkStep(d: Disk, g: Index, m: map<string, string>, key: string, val: string, o: nat)
    requires WF(d, g, {}) && Reads(d, g, m) && Loose(g, o) && key !in m
    requires o in d.recs && d.recs[o].key == key && HasValue(d, o, val)
    requires |d.heads| == LISTS && d.recs[o].next == d.heads[ListOf(key)]
    ensures var cell := PTR_SZ * ListOf(key);
            && IsCell(d, cell) && |g.lists| == LISTS
            && var d' := SetPtr(d, cell, o); var g' := PutAt(d, g, ListOf(key), o);
               WF(d', g', {}) && Placed(g') && Reads(d', g', m[key := val])
  {
    var l := ListOf(key);
    ListCount(d, g);
    assert key !in g.at;
    hide AllMembers, AllLinks, AllRecs, AllKeys, DataDistinct, Reads, HasValue, SetPtr;
    PutFirst(d, g, {}, l, o);
    PointerReads(d, g, m, PTR_SZ * l, o);
    PointerValue(d, o, val, PTR_SZ * l, o);
    PutReads(SetPtr(d, PTR_SZ * l, o), g, m, PutAt(d, g, l, o), key, val, o);
  }

  lemma PointerValue(d: Disk, o: nat, val: string, cell: nat, p: nat)
    requires HasValue(d, o, val) && IsCell(d, cell)
    ensures HasValue(SetPtr(d, cell, p), o, val)
  {
  }

  /** One key more, and its record. */
  lemma PutReads(d: Disk, g: Index, m: map<string, string>, g': Index, key: string, val: string, o: nat)
    requires Reads(d, g, m) && g'.at == g.at[key := o] && HasValue(d, o, val)
    ensures Reads(d, g', m[key := val])
  {
  }

  /** Data of a live record overwritten in place. */
  lemma OverwriteStep(d: Disk, g: Index, m: map<string, string>, key: string, val: string)
    requires WF(d, g, {}) && Reads(d, g, m) && key in g.at && g.at[key] in d.recs
    requires d.recs[g.at[key]].datlen == |val| + 1
    ensures var e := d.recs[g.at[key]].datoff;
            && e in d.ext && |d.ext[e]| == |val|
            && WF(SetExt(d, e, val), g, {}) && Reads(SetExt(d, e, val), g, m[key := val])
  {
    var o := g.at[key];
    var e := d.recs[o].datoff;
    assert RecOK(d, g, o);
    WriteData(d, g, {}, e, val);
    forall y | y in g.at && y != key ensures SameDatum(d, SetExt(d, e, val), g.at[y]) {
      assert KeyOK(d, g, y) && KeyOK(d, g, key) && RecOK(d, g, g.at[y]);
    }
    ReadsAfter(d, g, m, SetExt(d, e, val), g, m[key := val]);
  }

  /** Unlinking a free record that fits. */
  lemma UnlinkStep(d: Disk, g: Index, m: map<string, string>, k: nat)
    requires WF(d, g, {}) && Placed(g) && Reads(d, g, m) && |g.lists| == LISTS && k < |g.lists[0]|
    ensures var p := g.lists[0]; var cell := CellOf(0, p, k); var o := p[k];
            && IsCell(d, cell) && o in d.recs && HEADER <= o
            && var d' := SetPtr(d, cell, d.recs[o].next); var g' := Take(g, 0, k, 0);
               && WF(d', g', {}) && Loose(g', o) && Reads(d', g', m)
               && o in d'.recs && d'.recs[o] == d.recs[o]
               && |d.heads| == |d'.heads| == LISTS
               && forall l :: 0 < l < LISTS ==> d'.heads[l] == d.heads[l]
  {
    var p := g.lists[0];
    var cell, o := CellOf(0, p, k), p[k];
    assert Members(d.recs, g, 0);
    assert RecOK(d, g, o);
    CellInFile(d, g, {}, 0, k);
    UnlinkSame(d, p, k, d.recs[o].next);
    TakeFree(d, g, {}, k, 0);
    hide AllMembers, AllLinks, AllRecs, AllKeys, DataDistinct, Reads, SetPtr;
    PointerReads(d, g, m, cell, d.recs[o].next);
    SameAt(SetPtr(d, cell, d.recs[o].next), g, Take(g, 0, k, 0), m);
  }

  /** The pointer past a free record is no chain head, and not the record's own. */
  lemma UnlinkSame(d: Disk, p: seq<nat>, k: nat, v: nat)
    requires k < |p| && NoDup(p) && IsCell(d, CellOf(0, p, k)) && p[k] in d.recs && |d.heads| == LISTS
    requires if k == 0 then FREE_OFF !in d.recs else p[k - 1] in d.recs
    ensures var d' := SetPtr(d, CellOf(0, p, k), v);
            && p[k] in d'.recs && d'.recs[p[k]] == d.recs[p[k]] && |d'.heads| == LISTS
            && forall l :: 0 < l < LISTS ==> d'.heads[l] == d.heads[l]
  {
  }

  /** What the structure says about the record at hand. */
  lemma RecordFacts(d: Disk, g: Index, o: nat)
    requires WF(d, g, {}) && o in d.recs
    ensures HEADER <= o && d.recs[o].datoff in d.ext && |d.ext[d.recs[o].datoff]| + 1 == d.recs[o].datlen
    ensures forall x :: x in d.recs && x != o ==> d.recs[x].datoff != d.recs[o].datoff
    ensures o in g.owner
  {
    assert RecOK(d, g, o);
  }

  /** Data nobody has yet is data of no record. */
  lemma FreshDatum(d: Disk, g: Index, e: nat)
    requires WF(d, g, {}) && e !in d.ext
    ensures forall x :: x in d.recs ==> d.recs[x].datoff != e
  {
    forall x | x in d.recs ensures d.recs[x].datoff != e {
      assert RecOK(d, g, x);
    }
  }

  // ---------- the whole store of a new record ----------

  /** Key and data that the writer accepts, given where the data goes. */
  predicate Sizable(key: string, datoff: nat, data: string) {
    && IDXLEN_MIN <= |Body(Rec(0, key, datoff, |data| + 1))| <= IDXLEN_MAX
    && 1 <= |data| + 1 <= DATALEN_MAX
  }

  /** Bytes of the record, whatever its pointer. */
  function Length(key: string, datoff: nat, data: string): nat {
    Size(Rec(0, key, datoff, |data| + 1))
  }

  /** The limits on a record's line, and the bytes of the record, told from the texts it is made of. */
  lemma LineLength(key: string, datoff: nat, data: string)
    ensures var line := |key| + |Digits(datoff)| + |Digits(|data| + 1)| + 3;
            && (Sizable(key, datoff, data) <==> 6 <= line <= 1024 && |data| <= 1023)
            && Length(key, datoff, data) == 11 + line
  {
  }

  lemma SizableFits(key: string, datoff: nat, data: string, next: nat)
    requires next <= PTR_MAX
    ensures var r := Rec(next, key, datoff, |data| + 1);
            (Fits(r) <==> Sizable(key, datoff, data)) && Size(r) == Length(key, datoff, data)
  {
  }

  /** The disk with a record's data and the record itself written. */
  function Written(d: Disk, o: nat, r: Rec, val: string): Disk { SetRec(SetExt(d, r.datoff, val), o, r) }

  /** The lists once the chain head names the record. */
  ghost function Stored(d: Disk, g: Index, o: nat, r: Rec, val: string): Index
    requires |g.lists| == LISTS
  {
    PutAt(Written(d, o, r, val), g.(owner := g.owner[o := Held(0)]), ListOf(r.key), o)
  }

  /** Writing data, then its record, then the chain head, for a record not yet on a list. */
  lemma StoreSteps(d: Disk, g: Index, m: map<string, string>, o: nat, r: Rec, val: string)
    requires WF(d, g, {}) && Reads(d, g, m) && HEADER <= o && |d.heads| == LISTS && |g.lists| == LISTS
    requires r.key !in m && r.datlen == |val| + 1 && r.next == d.heads[ListOf(r.key)]
    requires Fronts(g, m) && !Jammed(m, r.key)
    requires || (Placed(g) && o !in d.recs && r.datoff !in d.ext)
             || (Loose(g, o) && o in d.recs && d.recs[o].datoff == r.datoff && d.recs[o].datlen == r.datlen)
    ensures var d2, g2, cell := Written(d, o, r, val), Stored(d, g, o, r, val), PTR_SZ * ListOf(r.key);
            && IsCell(d2, cell) && WF(SetPtr(d2, cell, o), g2, {}) && Placed(g2)
            && Reads(SetPtr(d2, cell, o), g2, m[r.key := val]) && Fronts(g2, m[r.key := val])
            && g2.owner == g.owner[o := On(ListOf(r.key))]
  {
    hide AllMembers, AllLinks, AllRecs, AllKeys, DataDistinct, Reads, Placed, Fronts, Jammed;
    if r.datoff in d.ext {
      RecordFacts(d, g, o);
    } else {
      FreshDatum(d, g, r.datoff);
    }
    DataStep(d, g, m, r.datoff, val);
    var d1 := SetExt(d, r.datoff, val);
    RecStep(d1, g, m, o, r, 0);
    var d2, g2 := SetRec(d1, o, r), g.(owner := g.owner[o := Held(0)]);
    assert HasValue(d2, o, val);
    LinkStep(d2, g2, m, r.key, val, o);
    FrontsFree(g, m, g2);
    FrontsPut(d2, g2, m, r.key, val, o);
  }

  /** The record that an append leaves at the end of a file grown too long: no list names it. */
  ghost function Strand(g: Index, o: nat): Index { g.(owner := g.owner[o := Held(1)]) }

  /** Writing data and record of an append, and not the chain head. */
  lemma StrandSteps(d: Disk, g: Index, m: map<string, string>, o: nat, r: Rec, val: string)
    requires WF(d, g, {}) && Placed(g) && Reads(d, g, m) && Fronts(g, m) && HEADER <= o && o !in d.recs
    requires r.datoff !in d.ext && r.datlen == |val| + 1
    ensures var d2, g2 := Written(d, o, r, val), Strand(g, o);
            WF(d2, g2, {}) && Placed(g2) && Reads(d2, g2, m) && Fronts(g2, m)
    ensures !Whole(Strand(g, o))
  {
    hide AllMembers, AllLinks, AllRecs, AllKeys, DataDistinct, Reads, Placed;
    FreshDatum(d, g, r.datoff);
    DataStep(d, g, m, r.datoff, val);
    RecStep(SetExt(d, r.datoff, val), g, m, o, r, 1);
    assert Strand(g, o).owner[o] == Held(1);
  }

  /** A record put on its list leaves off lists only what was off them before. */
  lemma WholeAgain(g: Index, o: nat, l: nat, g': Index)
    requires g'.owner == g.owner[o := On(l)]
    ensures Whole(g) ==> Whole(g')
  {
  }
}
