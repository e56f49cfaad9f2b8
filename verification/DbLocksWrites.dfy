/**
 The moves that write: each is one of the steps of DbIndex, made under the locks that
 keep it out of every other handle's sight.
*/
module DbLocksWrites {
  import opened DbFormat
  import opened DbDisk
  import opened DbIndex
  import opened DbSteps
  import opened DbLocks
  import opened DbLocksInv
  import opened DbLocksProof
  import Db

  // ---------- what stays for the others ----------

  /** A record the handle may change: its private one, or a member of a list it has locked. */
  ghost predicate Mine(mem: Mem, h: nat, hd: Hd, o: nat) {
    || IsHeld(mem, h, o)
    || (o in mem.disk.recs && o in mem.ix.owner && mem.ix.owner[o].On? && !Foreign(hd, mem.ix.owner[o].list))
  }

  lemma MineApart(mem: Mem, h: nat, hd: Hd, o: nat)
    requires WF(mem.disk, mem.ix, mem.stale.Keys) && Mine(mem, h, hd, o)
    ensures forall l :: 0 <= l < LISTS && Foreign(hd, l) ==> o !in List(mem, l)
  {
    forall l | 0 <= l < LISTS && Foreign(hd, l) ensures o !in List(mem, l) {
      assert Members(mem.disk.recs, mem.ix, l);
    }
  }

  lemma MemberMine(mem: Mem, h: nat, hd: Hd, l: nat, k: nat)
    requires WF(mem.disk, mem.ix, mem.stale.Keys) && l < LISTS && !Foreign(hd, l) && k < |List(mem, l)|
    ensures Mine(mem, h, hd, List(mem, l)[k])
  {
    assert Members(mem.disk.recs, mem.ix, l);
  }

  /** Records outside touched are as before, and those in it are the handle's. */
  ghost predicate RecsKept(a: Mem, b: Mem, h: nat, hd: Hd, touched: set<nat>) {
    && (forall o :: o in a.disk.recs && o !in touched ==> SameRec(a.disk, b.disk, o))
    && (forall o :: o in touched ==> Mine(a, h, hd, o))
    && (forall e :: !OwnsData(hd, e) ==> DataKept(a, b, e))
  }

  ghost predicate ListsKept(a: Mem, b: Mem, h: nat, hd: Hd) {
    && (forall l :: 0 <= l < LISTS && Foreign(hd, l) ==>
         && List(b, l) == List(a, l) && HeadOf(b, l) == HeadOf(a, l)
         && (l in b.stale <==> l in a.stale) && (l in a.stale && l in b.stale ==> b.stale[l] == a.stale[l]))
    && (forall o :: o in a.ix.owner && a.ix.owner[o].Held? && a.ix.owner[o] != Held(h) ==>
         o in b.ix.owner && b.ix.owner[o] == a.ix.owner[o])
  }

  /** Keys other than the handle's own are as before. */
  ghost predicate KeysKept(a: Mem, b: Mem, hd: Hd) {
    forall key :: key != hd.op.key ==> KeyKept(a, b, key)
  }

  lemma WriteFrame(a: Mem, b: Mem, h: nat, hd: Hd, touched: set<nat>)
    requires WF(a.disk, a.ix, a.stale.Keys) && RecsKept(a, b, h, hd, touched) && ListsKept(a, b, h, hd)
    requires KeysKept(a, b, hd) && !Foreign(hd, ListOf(hd.op.key)) && a.log <= b.log
    requires (b.datEnd == a.datEnd || HasDat(hd.pc)) && (b.idxEnd == a.idxEnd || HasApp(hd.pc))
    ensures Frame(a, b, h, hd)
  {
    forall l | 0 <= l < LISTS && Foreign(hd, l) ensures ListKept(a, b, l) {
      forall o | o in List(a, l) ensures SameRec(a.disk, b.disk, o) {
        if o in touched { MineApart(a, h, hd, o); }
      }
    }
  }

  /** The map agrees again if it does for the handle's key and nothing else changed. */
  lemma WriteAgrees(a: Mem, b: Mem, hd: Hd)
    requires Agree(a) && KeysKept(a, b, hd)
    requires forall key :: key != hd.op.key && key in a.ix.at ==> SameDatum(a.disk, b.disk, a.ix.at[key])
    requires hd.op.key !in b.pend ==> KeyAgrees(b, hd.op.key)
    ensures Agree(b)
  {
    forall key | key !in b.pend ensures KeyAgrees(b, key) {
      if key != hd.op.key {
        assert KeyKept(a, b, key);
        assert KeyAgrees(a, key);
      }
    }
  }

  lemma SharedWF(mem: Mem)
    requires Shared(mem)
    ensures WF(mem.disk, mem.ix, mem.stale.Keys)
  {
  }

  lemma PtrSame(d: Disk, cell: nat, p: nat)
    requires IsCell(d, cell)
    ensures forall o :: SameDatum(d, SetPtr(d, cell, p), o)
    ensures forall o :: o in d.recs && o != cell ==> SameRec(d, SetPtr(d, cell, p), o)
    ensures forall e :: Unread(d, e) ==> Unread(SetPtr(d, cell, p), e)
    ensures SetPtr(d, cell, p).recs.Keys == d.recs.Keys && SetPtr(d, cell, p).ext == d.ext
  {
  }

  /** Data written over the data of record o: other records' data is elsewhere. */
  lemma DatumSame(d: Disk, o: nat, val: string)
    requires DataDistinct(d.recs) && o in d.recs
    ensures forall x :: x != o ==> SameDatum(d, SetExt(d, d.recs[o].datoff, val), x)
    ensures forall x :: x in d.recs && x != o ==> SameRec(d, SetExt(d, d.recs[o].datoff, val), x)
    ensures forall e :: Unread(d, e) ==> e != d.recs[o].datoff && Unread(SetExt(d, d.recs[o].datoff, val), e)
  {
  }

  lemma EndsKept(a: Mem, b: Mem)
    requires Ends(a) && b.disk.recs.Keys == a.disk.recs.Keys && b.disk.ext.Keys == a.disk.ext.Keys
    requires a.idxEnd == b.idxEnd && a.datEnd == b.datEnd
    ensures Ends(b)
  {
  }

  lemma DataKnown(mem: Mem, o: nat)
    requires WF(mem.disk, mem.ix, mem.stale.Keys) && o in mem.disk.recs
    ensures var r := mem.disk.recs[o];
            r.datoff in mem.disk.ext && |mem.disk.ext[r.datoff]| + 1 == r.datlen && HEADER <= o && o in mem.ix.owner
  {
    assert RecOK(mem.disk, mem.ix, o);
  }

  // ---------- deleting ----------

  /** The map, after an operation took effect on the handle's key. */
  lemma TookKeys(a: Mem, h: nat, hd: Hd, res: Res)
    ensures var b := Took(a, h, hd.op, res);
            forall key :: key != hd.op.key ==>
               (key in b.m <==> key in a.m) && (key in a.m && key in b.m ==> b.m[key] == a.m[key])
  {
  }

  /** Blanking the data: from here on the key is gone, or already has its new value. */
  lemma BlankShared(mem: Mem, h: nat, hd: Hd)
    requires Shared(mem) && DeleteLocal(mem, h, hd) && OwnChain(mem, h, hd) && hd.pc.D0?
    ensures hd.pc.datlen >= 1 && Shared(DataBlanked(mem, h, hd.op, hd.pc.datoff, hd.pc.datlen)) && hd.op.key in mem.m
  {
    hide AllMembers, AllLinks, AllRecs, AllKeys;
    var op, o := hd.op, hd.pc.o;
    WalkHits(mem, op.key, hd.pc.k);
    var b := DataBlanked(mem, h, op, hd.pc.datoff, hd.pc.datlen);
    WriteData(mem.disk, mem.ix, mem.stale.Keys, hd.pc.datoff, Spaces(hd.pc.datlen - 1));
    TookLogged(mem, h, op, Code(0));
    DatumSame(mem.disk, o, Spaces(hd.pc.datlen - 1));
    EndsKept(mem, b);
    TookKeys(mem, h, hd, Code(0));
    OthersAt(mem, op.key);
    WriteAgrees(mem, b, hd);
  }

  lemma OthersAt(mem: Mem, key: string)
    requires WF(mem.disk, mem.ix, mem.stale.Keys) && key in mem.ix.at
    ensures forall x :: x in mem.ix.at && x != key ==> mem.ix.at[x] != mem.ix.at[key]
  {
    assert KeyOK(mem.disk, mem.ix, key);
    forall x | x in mem.ix.at && x != key ensures mem.ix.at[x] != mem.ix.at[key] {
      assert KeyOK(mem.disk, mem.ix, x);
    }
  }

  lemma BlankFrame(mem: Mem, h: nat, hd: Hd)
    requires Shared(mem) && DeleteLocal(mem, h, hd) && hd.pc.D0? && hd.pc.datlen >= 1
    ensures var b := DataBlanked(mem, h, hd.op, hd.pc.datoff, hd.pc.datlen);
            Frame(mem, b, h, hd) && OthersCharged(mem, b, h)
  {
    hide Agree, LogOK, AllMembers, AllLinks, AllRecs, AllKeys, Frame;
    MemberMine(mem, h, hd, ListOf(hd.op.key), hd.pc.k);
    DatumSame(mem.disk, hd.pc.o, Spaces(hd.pc.datlen - 1));
    TookKeys(mem, h, hd, Code(0));
    WriteFrame(mem, DataBlanked(mem, h, hd.op, hd.pc.datoff, hd.pc.datlen), h, hd, {hd.pc.o});
  }

  lemma BlankGood(mem: Mem, h: nat, hd: Hd)
    requires Shared(mem) && Local(mem, h, hd) && Charged(mem, h, hd) && hd.pc.D0?
    ensures Good(mem, h, hd, Mem1(mem, h, hd), Hd1(mem, h, hd))
  {
    hide SearchMove, HitMove, FreeMove, WriteMove, Shared, Frame, OthersCharged, SearchLocal, FreeLocal, AppendLocal;
    BlankShared(mem, h, hd);
    BlankFrame(mem, h, hd);
    Elsewhere(Mem1(mem, h, hd), h, Hd1(mem, h, hd));
  }

  ghost function BlankRec(pc: Pc, op: Op): Rec
    requires pc.D2?
  {
    Rec(pc.free, Spaces(|op.key|), pc.datoff, pc.datlen)
  }

  /** The record after its key was blanked and its pointer set to the first free record. */
  lemma EraseShared(mem: Mem, h: nat, hd: Hd)
    requires Shared(mem) && DeleteLocal(mem, h, hd) && OwnChain(mem, h, hd) && hd.pc.D2?
    ensures var l := ListOf(hd.op.key);
            && l < |mem.ix.lists| && hd.pc.k < |mem.ix.lists[l]|
            && var b := RecordErased(mem, h, hd.op, hd.pc.k, hd.pc.o, BlankRec(hd.pc, hd.op));
               Shared(b) && Open(b, l, hd.pc.k, hd.pc.ptroff, hd.pc.next)
  {
    hide AllMembers, AllLinks, AllRecs, AllKeys, DataDistinct, LinkedExcept, Legal, Replay;
    var op, o, l := hd.op, hd.pc.o, ListOf(hd.op.key);
    ListLink(mem, l, hd.pc.k);
    var b := RecordErased(mem, h, op, hd.pc.k, o, BlankRec(hd.pc, op));
    DataKnown(mem, o);
    Detach(mem.disk, mem.ix, mem.stale.Keys, l, hd.pc.k, BlankRec(hd.pc, op), h);
    assert b.stale.Keys == mem.stale.Keys + {l};
    EndsKept(mem, b);
    WalkHits(mem, op.key, hd.pc.k);
    OthersAt(mem, op.key);
    WriteAgrees(mem, b, hd);
  }

  lemma EraseFrame(mem: Mem, h: nat, hd: Hd)
    requires Shared(mem) && DeleteLocal(mem, h, hd) && hd.pc.D2?
    requires var l := ListOf(hd.op.key); l < |mem.ix.lists| && hd.pc.k < |mem.ix.lists[l]|
    ensures var b := RecordErased(mem, h, hd.op, hd.pc.k, hd.pc.o, BlankRec(hd.pc, hd.op));
            Frame(mem, b, h, hd) && OthersCharged(mem, b, h)
  {
    hide Agree, LogOK, AllMembers, AllLinks, AllRecs, AllKeys, Frame, DataDistinct, RecsKept, ListsKept, KeysKept;
    var b := RecordErased(mem, h, hd.op, hd.pc.k, hd.pc.o, BlankRec(hd.pc, hd.op));
    EraseRecs(mem, h, hd);
    EraseLists(mem, h, hd);
    EraseKeys(mem, h, hd);
    EraseCharged(mem, h, hd);
    WriteFrame(mem, b, h, hd, {hd.pc.o});
  }

  lemma EraseRecs(mem: Mem, h: nat, hd: Hd)
    requires Shared(mem) && DeleteLocal(mem, h, hd) && hd.pc.D2?
    requires var l := ListOf(hd.op.key); l < |mem.ix.lists| && hd.pc.k < |mem.ix.lists[l]|
    ensures RecsKept(mem, RecordErased(mem, h, hd.op, hd.pc.k, hd.pc.o, BlankRec(hd.pc, hd.op)), h, hd, {hd.pc.o})
  {
    hide Agree, LogOK, AllMembers, AllLinks, AllRecs, AllKeys, DataDistinct;
    MemberMine(mem, h, hd, ListOf(hd.op.key), hd.pc.k);
  }

  /** One list given up to the handle, and one of its records. */
  lemma ListsAfter(a: Mem, b: Mem, h: nat, hd: Hd, l: nat, o: nat)
    requires l < |a.ix.lists| == |b.ix.lists| && !Foreign(hd, l) && b.disk.heads == a.disk.heads
    requires forall i :: 0 <= i < |a.ix.lists| && i != l ==> b.ix.lists[i] == a.ix.lists[i]
    requires b.stale == a.stale[l := h]
    requires o in a.ix.owner && a.ix.owner[o].On? && b.ix.owner == a.ix.owner[o := Held(h)]
    ensures ListsKept(a, b, h, hd)
  {
  }

  lemma MemberOwner(mem: Mem, l: nat, k: nat)
    requires WF(mem.disk, mem.ix, mem.stale.Keys) && l < LISTS && k < |List(mem, l)|
    ensures |mem.ix.lists| == LISTS && List(mem, l)[k] in mem.ix.owner && mem.ix.owner[List(mem, l)[k]] == On(l)
  {
    assert Members(mem.disk.recs, mem.ix, l);
  }

  lemma EraseLists(mem: Mem, h: nat, hd: Hd)
    requires Shared(mem) && DeleteLocal(mem, h, hd) && hd.pc.D2?
    requires var l := ListOf(hd.op.key); l < |mem.ix.lists| && hd.pc.k < |mem.ix.lists[l]|
    ensures ListsKept(mem, RecordErased(mem, h, hd.op, hd.pc.k, hd.pc.o, BlankRec(hd.pc, hd.op)), h, hd)
  {
    hide Agree, LogOK, Ends, AllMembers, AllLinks, AllRecs, AllKeys, DataDistinct, Logged, BlankRec;
    var l := ListOf(hd.op.key);
    MemberOwner(mem, l, hd.pc.k);
    var b := RecordErased(mem, h, hd.op, hd.pc.k, hd.pc.o, BlankRec(hd.pc, hd.op));
    assert b.ix.owner == mem.ix.owner[mem.ix.lists[l][hd.pc.k] := Held(h)] && b.disk.heads == mem.disk.heads;
    assert !Foreign(hd, l);
    hide Shared, DeleteLocal, Foreign, ListsKept, Without;
    ListsAfter(mem, b, h, hd, l, mem.ix.lists[l][hd.pc.k]);
  }

  lemma EraseKeys(mem: Mem, h: nat, hd: Hd)
    requires Shared(mem) && DeleteLocal(mem, h, hd) && hd.pc.D2?
    requires var l := ListOf(hd.op.key); l < |mem.ix.lists| && hd.pc.k < |mem.ix.lists[l]|
    ensures KeysKept(mem, RecordErased(mem, h, hd.op, hd.pc.k, hd.pc.o, BlankRec(hd.pc, hd.op)), hd)
  {
    hide Agree, LogOK, AllMembers, AllLinks, AllRecs, AllKeys, DataDistinct;
  }

  lemma EraseCharged(mem: Mem, h: nat, hd: Hd)
    requires Shared(mem) && DeleteLocal(mem, h, hd) && hd.pc.D2?
    requires var l := ListOf(hd.op.key); l < |mem.ix.lists| && hd.pc.k < |mem.ix.lists[l]|
    ensures OthersCharged(mem, RecordErased(mem, h, hd.op, hd.pc.k, hd.pc.o, BlankRec(hd.pc, hd.op)), h)
  {
    hide Agree, LogOK, AllMembers, AllLinks, AllRecs, AllKeys, DataDistinct;
  }

  lemma EraseGood(mem: Mem, h: nat, hd: Hd)
    requires Shared(mem) && Local(mem, h, hd) && Charged(mem, h, hd) && hd.pc.D2?
    ensures Good(mem, h, hd, Mem1(mem, h, hd), Hd1(mem, h, hd))
  {
    hide SearchMove, HitMove, FreeMove, WriteMove, Shared;
    hide Frame, OthersCharged, SearchLocal, FreeLocal, AppendLocal, Open;
    EraseShared(mem, h, hd);
    EraseFrame(mem, h, hd);
    Elsewhere(Mem1(mem, h, hd), h, Hd1(mem, h, hd));
  }

  /** The record becomes the first free one; its old chain is still open. */
  lemma FreeShared(mem: Mem, h: nat, hd: Hd)
    requires Shared(mem) && DeleteLocal(mem, h, hd) && OwnChain(mem, h, hd) && hd.pc.D3?
    ensures IsCell(mem.disk, FREE_OFF) && |mem.ix.lists| > 0
    ensures var b := RecordFreed(mem, hd.pc.o);
            Shared(b) && Open(b, ListOf(hd.op.key), hd.pc.k, hd.pc.ptroff, hd.pc.next)
  {
    hide AllMembers, AllLinks, AllRecs, AllKeys, DataDistinct;
    var o, l := hd.pc.o, ListOf(hd.op.key);
    FreeHead(mem);
    NoStaleFree(mem);
    var b := RecordFreed(mem, o);
    PutFirst(mem.disk, mem.ix, mem.stale.Keys, 0, o);
    OpenLinkKept(mem.disk, mem.ix, mem.stale.Keys, l, hd.pc.k, o);
    PtrSame(mem.disk, FREE_OFF, o);
    EndsKept(mem, b);
    assert KeyKept(mem, b, hd.op.key);
    WriteAgrees(mem, b, hd);
  }

  lemma FreeRecsKept(mem: Mem, h: nat, hd: Hd)
    requires Shared(mem) && DeleteLocal(mem, h, hd) && hd.pc.D3? && IsCell(mem.disk, FREE_OFF) && |mem.ix.lists| > 0
    ensures RecsKept(mem, RecordFreed(mem, hd.pc.o), h, hd, {})
  {
    hide Agree, LogOK, AllMembers, AllLinks, AllRecs, AllKeys, DataDistinct, LinkedExcept, Logged;
    CellInFile(mem.disk, mem.ix, mem.stale.Keys, 0, 0);
    PtrSame(mem.disk, FREE_OFF, hd.pc.o);
  }

  lemma FreeLists(mem: Mem, h: nat, hd: Hd)
    requires Shared(mem) && DeleteLocal(mem, h, hd) && hd.pc.D3? && IsCell(mem.disk, FREE_OFF) && |mem.ix.lists| > 0
    ensures var b := RecordFreed(mem, hd.pc.o);
            ListsKept(mem, b, h, hd) && KeysKept(mem, b, hd) && OthersCharged(mem, b, h)
  {
    hide Agree, LogOK, AllMembers, AllLinks, AllRecs, AllKeys, DataDistinct, LinkedExcept, Logged;
    CellInFile(mem.disk, mem.ix, mem.stale.Keys, 0, 0);
    PtrSame(mem.disk, FREE_OFF, hd.pc.o);
  }

  lemma FreeFrame(mem: Mem, h: nat, hd: Hd)
    requires Shared(mem) && DeleteLocal(mem, h, hd) && hd.pc.D3? && IsCell(mem.disk, FREE_OFF) && |mem.ix.lists| > 0
    ensures Frame(mem, RecordFreed(mem, hd.pc.o), h, hd) && OthersCharged(mem, RecordFreed(mem, hd.pc.o), h)
  {
    hide Agree, LogOK, AllMembers, AllLinks, AllRecs, AllKeys;
    hide DataDistinct, RecsKept, ListsKept, KeysKept, Frame, OthersCharged;
    FreeRecsKept(mem, h, hd);
    FreeLists(mem, h, hd);
    WriteFrame(mem, RecordFreed(mem, hd.pc.o), h, hd, {});
  }

  lemma FreeGood(mem: Mem, h: nat, hd: Hd)
    requires Shared(mem) && Local(mem, h, hd) && Charged(mem, h, hd) && hd.pc.D3?
    ensures Good(mem, h, hd, Mem1(mem, h, hd), Hd1(mem, h, hd))
  {
    hide SearchMove, HitMove, FreeMove, WriteMove, Shared;
    hide Frame, OthersCharged, SearchLocal, FreeLocal, AppendLocal, Open;
    FreeShared(mem, h, hd);
    FreeFrame(mem, h, hd);
    Elsewhere(Mem1(mem, h, hd), h, Hd1(mem, h, hd));
  }

  /** The chain is closed behind the record. */
  lemma CloseShared(mem: Mem, h: nat, hd: Hd)
    requires Shared(mem) && DeleteLocal(mem, h, hd) && OwnChain(mem, h, hd) && hd.pc.D4?
    ensures IsCell(mem.disk, hd.pc.ptroff) && Shared(ChainClosed(mem, hd.op, hd.pc.ptroff, hd.pc.next))
  {
    hide AllMembers, AllLinks, AllRecs, AllKeys, LinkAt, DataDistinct;
    var l := ListOf(hd.op.key);
    NoStaleFree(mem);
    Relink(mem.disk, mem.ix, mem.stale.Keys, l, hd.pc.k);
    var b := ChainClosed(mem, hd.op, hd.pc.ptroff, hd.pc.next);
    assert b.stale.Keys == mem.stale.Keys - {l};
    PtrSame(mem.disk, hd.pc.ptroff, hd.pc.next);
    EndsKept(mem, b);
    CloseAgrees(mem, b, hd);
  }

  lemma CloseAgrees(mem: Mem, b: Mem, hd: Hd)
    requires Agree(mem) && b.m == mem.m && b.pend == mem.pend && b.ix == mem.ix
    requires forall o :: SameDatum(mem.disk, b.disk, o)
    ensures Agree(b)
  {
    forall key | key !in b.pend ensures KeyAgrees(b, key) {
      assert KeyAgrees(mem, key);
      assert key in b.ix.at ==> SameDatum(mem.disk, b.disk, b.ix.at[key]);
    }
  }

  /** The cell before position k of a list is the head, or a member of that list. */
  lemma CellMine(mem: Mem, h: nat, hd: Hd, l: nat, k: nat)
    requires WF(mem.disk, mem.ix, mem.stale.Keys) && l < LISTS && !Foreign(hd, l) && k <= |List(mem, l)|
    ensures var cell := CellOf(l, List(mem, l), k);
            && IsCell(mem.disk, cell)
            && (if k == 0 then cell !in mem.disk.recs && cell / PTR_SZ == l else Mine(mem, h, hd, cell))
  {
    CellInFile(mem.disk, mem.ix, mem.stale.Keys, l, k);
    if k > 0 {
      MemberMine(mem, h, hd, l, k - 1);
    } else {
      assert PTR_SZ * l / PTR_SZ == l;
    }
  }

  lemma CloseFrame(mem: Mem, h: nat, hd: Hd)
    requires Shared(mem) && DeleteLocal(mem, h, hd) && hd.pc.D4? && IsCell(mem.disk, hd.pc.ptroff)
    ensures var b := ChainClosed(mem, hd.op, hd.pc.ptroff, hd.pc.next); Frame(mem, b, h, hd) && OthersCharged(mem, b, h)
  {
    hide Agree, LogOK, AllMembers, AllLinks, AllRecs, AllKeys, Frame, LinkedExcept, DataDistinct;
    CellMine(mem, h, hd, ListOf(hd.op.key), hd.pc.k);
    PtrSame(mem.disk, hd.pc.ptroff, hd.pc.next);
    WriteFrame(mem, ChainClosed(mem, hd.op, hd.pc.ptroff, hd.pc.next), h, hd,
      if hd.pc.k == 0 then {} else {hd.pc.ptroff});
  }

  lemma CloseGood(mem: Mem, h: nat, hd: Hd)
    requires Shared(mem) && Local(mem, h, hd) && Charged(mem, h, hd) && hd.pc.D4?
    ensures Good(mem, h, hd, Mem1(mem, h, hd), Hd1(mem, h, hd))
  {
    hide SearchMove, HitMove, FreeMove, WriteMove, Shared;
    hide Frame, OthersCharged, SearchLocal, FreeLocal, AppendLocal, Open;
    CloseShared(mem, h, hd);
    CloseFrame(mem, h, hd);
    Elsewhere(Mem1(mem, h, hd), h, Hd1(mem, h, hd));
  }

  // ---------- storing ----------

  /** Same length: the new data goes over the old. */
  lemma OverwriteShared(mem: Mem, h: nat, hd: Hd)
    requires Shared(mem) && SearchLocal(mem, h, hd) && OwnChain(mem, h, hd) && hd.pc.Hit? && hd.op.Store?
    requires Db.ValidFlag(hd.op.flag) && hd.op.flag != Db.DB_INSERT && |hd.op.data| + 1 == hd.pc.datlen
    ensures Shared(Overwritten(mem, h, hd.op, hd.pc.datoff))
  {
    hide AllMembers, AllLinks, AllRecs, AllKeys;
    var op, o := hd.op, hd.pc.o;
    WalkHits(mem, op.key, hd.pc.k);
    var b := Overwritten(mem, h, op, hd.pc.datoff);
    WriteData(mem.disk, mem.ix, mem.stale.Keys, hd.pc.datoff, op.data);
    TookLogged(mem, h, op, Code(0));
    DatumSame(mem.disk, o, op.data);
    EndsKept(mem, b);
    TookKeys(mem, h, hd, Code(0));
    OthersAt(mem, op.key);
    WriteAgrees(mem, b, hd);
  }

  lemma OverwriteFrame(mem: Mem, h: nat, hd: Hd)
    requires Shared(mem) && SearchLocal(mem, h, hd) && hd.pc.Hit? && hd.op.Store?
    ensures var b := Overwritten(mem, h, hd.op, hd.pc.datoff); Frame(mem, b, h, hd) && OthersCharged(mem, b, h)
  {
    hide Agree, LogOK, AllMembers, AllLinks, AllRecs, AllKeys, Frame;
    MemberMine(mem, h, hd, ListOf(hd.op.key), hd.pc.k);
    DatumSame(mem.disk, hd.pc.o, hd.op.data);
    TookKeys(mem, h, hd, Code(0));
    WriteFrame(mem, Overwritten(mem, h, hd.op, hd.pc.datoff), h, hd, {hd.pc.o});
  }

  lemma OverwriteGood(mem: Mem, h: nat, hd: Hd)
    requires Shared(mem) && Local(mem, h, hd) && Charged(mem, h, hd) && hd.pc.Hit? && hd.op.Store?
    requires hd.op.flag != Db.DB_INSERT && |hd.op.data| + 1 == hd.pc.datlen
    ensures Good(mem, h, hd, Mem1(mem, h, hd), Hd1(mem, h, hd))
  {
    hide SearchMove, DeleteMove, FreeMove, WriteMove, Shared, Frame, OthersCharged, DeleteLocal, FreeLocal, AppendLocal;
    OverwriteShared(mem, h, hd);
    OverwriteFrame(mem, h, hd);
    Elsewhere(Mem1(mem, h, hd), h, Hd1(mem, h, hd));
  }

  /** A fitting free record leaves the free list. */
  lemma TakeShared(mem: Mem, h: nat, hd: Hd)
    requires Shared(mem) && FreeLocal(mem, h, hd) && hd.pc.FTake?
    ensures IsCell(mem.disk, hd.pc.save) && |mem.ix.lists| == LISTS && hd.pc.k < |mem.ix.lists[0]|
    ensures var b := FreeTaken(mem, h, hd.pc.k, hd.pc.save, hd.pc.fnext);
            Shared(b) && IsHeld(b, h, hd.pc.o) && hd.pc.o in mem.disk.recs &&
              b.disk.recs[hd.pc.o] == mem.disk.recs[hd.pc.o]
            && HeadOf(b, ListOf(hd.op.key)) == HeadOf(mem, ListOf(hd.op.key))
  {
    hide AllMembers, AllLinks, AllRecs, AllKeys, DataDistinct;
    NoStaleFree(mem);
    TakeFree(mem.disk, mem.ix, mem.stale.Keys, hd.pc.k, h);
    var b := FreeTaken(mem, h, hd.pc.k, hd.pc.save, hd.pc.fnext);
    PtrSame(mem.disk, hd.pc.save, hd.pc.fnext);
    EndsKept(mem, b);
    TakeAgrees(mem, b);
    CellApart(mem, hd.pc.k);
    CellMine(mem, h, hd, 0, hd.pc.k);
  }

  /** A member of the free list is not the cell that points to it. */
  lemma CellApart(mem: Mem, k: nat)
    requires WF(mem.disk, mem.ix, mem.stale.Keys) && k < |List(mem, 0)|
    ensures List(mem, 0)[k] != CellOf(0, List(mem, 0), k)
  {
    assert Members(mem.disk.recs, mem.ix, 0);
    assert RecOK(mem.disk, mem.ix, List(mem, 0)[k]);
  }

  lemma TakeAgrees(mem: Mem, b: Mem)
    requires Agree(mem) && b.m == mem.m && b.pend == mem.pend && b.ix.at == mem.ix.at
    requires forall o :: SameDatum(mem.disk, b.disk, o)
    ensures Agree(b)
  {
    forall key | key !in b.pend ensures KeyAgrees(b, key) {
      assert KeyAgrees(mem, key);
      assert key in b.ix.at ==> SameDatum(mem.disk, b.disk, b.ix.at[key]);
    }
  }

  lemma TakeFrame(mem: Mem, h: nat, hd: Hd)
    requires Shared(mem) && FreeLocal(mem, h, hd) && hd.pc.FTake?
    requires IsCell(mem.disk, hd.pc.save) && |mem.ix.lists| == LISTS && hd.pc.k < |mem.ix.lists[0]|
    ensures var b := FreeTaken(mem, h, hd.pc.k, hd.pc.save, hd.pc.fnext);
            Frame(mem, b, h, hd) && OthersCharged(mem, b, h)
  {
    hide Agree, LogOK, AllMembers, AllLinks, AllRecs, AllKeys, Frame, DataDistinct, RecsKept, ListsKept, KeysKept;
    TakeRecsKept(mem, h, hd);
    TakeLists(mem, h, hd);
    TakeKeys(mem, h, hd);
    WriteFrame(mem, FreeTaken(mem, h, hd.pc.k, hd.pc.save, hd.pc.fnext), h, hd,
      if hd.pc.k == 0 then {} else {hd.pc.save});
  }

  lemma TakeRecsKept(mem: Mem, h: nat, hd: Hd)
    requires Shared(mem) && FreeLocal(mem, h, hd) && hd.pc.FTake?
    requires IsCell(mem.disk, hd.pc.save) && |mem.ix.lists| == LISTS && hd.pc.k < |mem.ix.lists[0]|
    ensures RecsKept(mem, FreeTaken(mem, h, hd.pc.k, hd.pc.save, hd.pc.fnext), h, hd,
            if hd.pc.k == 0 then {} else {hd.pc.save})
  {
    hide Agree, LogOK, AllMembers, AllLinks, AllRecs, AllKeys, DataDistinct;
    CellMine(mem, h, hd, 0, hd.pc.k);
    PtrSame(mem.disk, hd.pc.save, hd.pc.fnext);
  }

  lemma TakeLists(mem: Mem, h: nat, hd: Hd)
    requires Shared(mem) && FreeLocal(mem, h, hd) && hd.pc.FTake?
    requires IsCell(mem.disk, hd.pc.save) && |mem.ix.lists| == LISTS && hd.pc.k < |mem.ix.lists[0]|
    ensures ListsKept(mem, FreeTaken(mem, h, hd.pc.k, hd.pc.save, hd.pc.fnext), h, hd)
  {
    hide Agree, LogOK, AllMembers, AllLinks, AllRecs, AllKeys, DataDistinct;
    CellMine(mem, h, hd, 0, hd.pc.k);
    MemberMine(mem, h, hd, 0, hd.pc.k);
    PtrSame(mem.disk, hd.pc.save, hd.pc.fnext);
  }

  lemma TakeKeys(mem: Mem, h: nat, hd: Hd)
    requires Shared(mem) && FreeLocal(mem, h, hd) && hd.pc.FTake?
    requires IsCell(mem.disk, hd.pc.save) && |mem.ix.lists| == LISTS && hd.pc.k < |mem.ix.lists[0]|
    ensures var b := FreeTaken(mem, h, hd.pc.k, hd.pc.save, hd.pc.fnext);
            KeysKept(mem, b, hd) && OthersCharged(mem, b, h)
  {
    hide Agree, LogOK, AllMembers, AllLinks, AllRecs, AllKeys, DataDistinct;
    PtrSame(mem.disk, hd.pc.save, hd.pc.fnext);
  }

  lemma TakeGood(mem: Mem, h: nat, hd: Hd)
    requires Shared(mem) && Local(mem, h, hd) && Charged(mem, h, hd) && hd.pc.FTake?
    ensures Good(mem, h, hd, Mem1(mem, h, hd), Hd1(mem, h, hd))
  {
    hide SearchMove, HitMove, DeleteMove, WriteMove, Shared;
    hide Frame, OthersCharged, SearchLocal, DeleteLocal, AppendLocal;
    TakeShared(mem, h, hd);
    TakeFrame(mem, h, hd);
    Elsewhere(Mem1(mem, h, hd), h, Hd1(mem, h, hd));
  }

  /** Data written over the private record's. */
  lemma RedataShared(mem: Mem, h: nat, hd: Hd)
    requires Shared(mem) && FreeLocal(mem, h, hd) && hd.pc.RDat?
    ensures hd.op.Store? && Shared(mem.(disk := SetExt(mem.disk, hd.pc.datoff, hd.op.data)))
  {
    hide AllMembers, AllLinks, AllRecs, AllKeys;
    var b := mem.(disk := SetExt(mem.disk, hd.pc.datoff, hd.op.data));
    var o := hd.pc.o;
    DataKnown(mem, o);
    WriteData(mem.disk, mem.ix, mem.stale.Keys, hd.pc.datoff, hd.op.data);
    DatumSame(mem.disk, o, hd.op.data);
    EndsKept(mem, b);
    HeldDead(mem, h, o);
    PrivateAgrees(mem, b, o);
  }

  lemma RedataFrame(mem: Mem, h: nat, hd: Hd)
    requires Shared(mem) && FreeLocal(mem, h, hd) && hd.pc.RDat? && hd.op.Store?
    ensures var b := mem.(disk := SetExt(mem.disk, hd.pc.datoff, hd.op.data));
            Frame(mem, b, h, hd) && OthersCharged(mem, b, h)
  {
    hide AllMembers, AllLinks, AllRecs, AllKeys, Agree, LogOK, Frame;
    DataKnown(mem, hd.pc.o);
    DatumSame(mem.disk, hd.pc.o, hd.op.data);
    WriteFrame(mem, mem.(disk := SetExt(mem.disk, hd.pc.datoff, hd.op.data)), h, hd, {hd.pc.o});
  }

  /** A private record is no live key's. */
  lemma HeldDead(mem: Mem, h: nat, o: nat)
    requires WF(mem.disk, mem.ix, mem.stale.Keys) && IsHeld(mem, h, o)
    ensures forall key :: key in mem.ix.at ==> mem.ix.at[key] != o
  {
    forall key | key in mem.ix.at ensures mem.ix.at[key] != o {
      assert KeyOK(mem.disk, mem.ix, key);
    }
  }

  lemma PrivateAgrees(mem: Mem, b: Mem, o: nat)
    requires Agree(mem) && b.m == mem.m && b.pend == mem.pend && b.ix.at == mem.ix.at
    requires forall x :: x != o ==> SameDatum(mem.disk, b.disk, x)
    requires forall key :: key in mem.ix.at ==> mem.ix.at[key] != o
    ensures Agree(b)
  {
    forall key | key !in b.pend ensures KeyAgrees(b, key) {
      assert KeyAgrees(mem, key);
      assert key in b.ix.at ==> SameDatum(mem.disk, b.disk, b.ix.at[key]);
    }
  }

  lemma RedataGood(mem: Mem, h: nat, hd: Hd)
    requires Shared(mem) && Local(mem, h, hd) && Charged(mem, h, hd) && hd.pc.RDat?
    ensures Good(mem, h, hd, Mem1(mem, h, hd), Hd1(mem, h, hd))
  {
    hide SearchMove, HitMove, DeleteMove, FreeMove, Shared, Frame, OthersCharged, SearchLocal, DeleteLocal, AppendLocal;
    RedataShared(mem, h, hd);
    RedataFrame(mem, h, hd);
    Elsewhere(Mem1(mem, h, hd), h, Hd1(mem, h, hd));
  }

  /** The private record written anew. */
  lemma RerecShared(mem: Mem, h: nat, hd: Hd)
    requires Shared(mem) && FreeLocal(mem, h, hd) && hd.pc.RIdx?
    ensures hd.op.Store?
    ensures Shared(mem.(disk := SetRec(mem.disk, hd.pc.o, SlotRec(hd.pc, hd.op))))
  {
    hide AllMembers, AllLinks, AllRecs, AllKeys;
    var o, r := hd.pc.o, SlotRec(hd.pc, hd.op);
    var b := mem.(disk := SetRec(mem.disk, o, r));
    DataKnown(mem, o);
    WriteHeld(mem.disk, mem.ix, mem.stale.Keys, o, r, h);
    assert mem.ix.owner[o := Held(h)] == mem.ix.owner;
    EndsKept(mem, b);
    HeldDead(mem, h, o);
    PrivateAgrees(mem, b, o);
  }

  lemma RerecFrame(mem: Mem, h: nat, hd: Hd)
    requires Shared(mem) && FreeLocal(mem, h, hd) && hd.pc.RIdx? && hd.op.Store?
    ensures var b := mem.(disk := SetRec(mem.disk, hd.pc.o, SlotRec(hd.pc, hd.op)));
            Frame(mem, b, h, hd) && OthersCharged(mem, b, h)
  {
    hide Agree, LogOK, AllMembers, AllLinks, AllRecs, AllKeys, Frame, DataDistinct;
    WriteFrame(mem, mem.(disk := SetRec(mem.disk, hd.pc.o, SlotRec(hd.pc, hd.op))), h, hd, {hd.pc.o});
  }

  ghost function SlotRec(pc: Pc, op: Op): Rec
    requires op.Store? && pc.RIdx?
  {
    Rec(pc.next, op.key, pc.datoff, |op.data| + 1)
  }

  lemma RerecGood(mem: Mem, h: nat, hd: Hd)
    requires Shared(mem) && Local(mem, h, hd) && Charged(mem, h, hd) && hd.pc.RIdx?
    ensures Good(mem, h, hd, Mem1(mem, h, hd), Hd1(mem, h, hd))
    ensures hd.pc.o in mem.disk.recs && hd.op.Store? && Size(SlotRec(hd.pc, hd.op)) == Size(mem.disk.recs[hd.pc.o])
  {
    hide SearchMove, HitMove, DeleteMove, FreeMove, Shared, Frame, OthersCharged, SearchLocal, DeleteLocal;
    RerecShared(mem, h, hd);
    RerecFrame(mem, h, hd);
    Elsewhere(Mem1(mem, h, hd), h, Hd1(mem, h, hd));
  }

  /** Data at the end of the data file. */
  lemma AppendDataShared(mem: Mem, h: nat, hd: Hd)
    requires Shared(mem) && AppendLocal(mem, h, hd) && hd.pc.AWrite?
    ensures hd.op.Store? && hd.pc.e !in mem.disk.ext
    ensures var b := DataAppended(mem, hd.op, hd.pc.e); Shared(b) && Appended(b, hd.op, hd.pc.e)
  {
    hide AllMembers, AllLinks, AllKeys, AllRecs, DataDistinct, Replacing;
    var e, b := hd.pc.e, DataAppended(mem, hd.op, hd.pc.e);
    WriteData(mem.disk, mem.ix, mem.stale.Keys, e, hd.op.data);
    Unclaimed(mem, e);
    TakeAgrees(mem, b);
  }

  /** Data that does not exist yet is no record's. */
  lemma Unclaimed(mem: Mem, e: nat)
    requires WF(mem.disk, mem.ix, mem.stale.Keys) && e !in mem.disk.ext
    ensures Unread(mem.disk, e)
  {
    assert forall o :: o in mem.disk.recs ==> RecOK(mem.disk, mem.ix, o);
  }

  lemma AppendDataFrame(mem: Mem, h: nat, hd: Hd)
    requires hd.pc.AWrite? && hd.op.Store? && hd.pc.e !in mem.disk.ext && WF(mem.disk, mem.ix, mem.stale.Keys)
    ensures var b := DataAppended(mem, hd.op, hd.pc.e); Frame(mem, b, h, hd) && OthersCharged(mem, b, h)
  {
    hide AllMembers, AllLinks, AllKeys, AllRecs, DataDistinct, Frame;
    WriteFrame(mem, DataAppended(mem, hd.op, hd.pc.e), h, hd, {});
  }

  lemma AppendDataGood(mem: Mem, h: nat, hd: Hd)
    requires Shared(mem) && Local(mem, h, hd) && Charged(mem, h, hd) && hd.pc.AWrite?
    ensures Good(mem, h, hd, Mem1(mem, h, hd), Hd1(mem, h, hd))
  {
    hide SearchMove, HitMove, DeleteMove, FreeMove, Shared, Frame;
    hide OthersCharged, SearchLocal, DeleteLocal, FreeLocal, Appended, WF;
    AppendDataShared(mem, h, hd);
    SharedWF(mem);
    AppendDataFrame(mem, h, hd);
    Elsewhere(Mem1(mem, h, hd), h, Hd1(mem, h, hd));
  }

  ghost function LastRec(pc: Pc, op: Op): Rec
    requires op.Store? && pc.XWrite?
  {
    Rec(pc.next, op.key, pc.e, |op.data| + 1)
  }

  /** A record at the end of the index file. */
  lemma AppendRecShared(mem: Mem, h: nat, hd: Hd)
    requires Shared(mem) && AppendLocal(mem, h, hd) && hd.pc.XWrite?
    ensures hd.op.Store? && hd.pc.o !in mem.disk.recs
    ensures var b := RecordAppended(mem, h, hd.pc.o, LastRec(hd.pc, hd.op)); Shared(b) && Ready(b, h, hd.op, hd.pc.o)
  {
    hide AllMembers, AllLinks, AllRecs, AllKeys, DataDistinct, Replacing;
    var o, r := hd.pc.o, LastRec(hd.pc, hd.op);
    var b := RecordAppended(mem, h, o, r);
    NoOwner(mem, o);
    WriteHeld(mem.disk, mem.ix, mem.stale.Keys, o, r, h);
    NewAgrees(mem, b, o);
  }

  lemma AppendRecFrame(mem: Mem, h: nat, hd: Hd)
    requires hd.pc.XWrite? && hd.op.Store? && hd.pc.o !in mem.disk.recs && WF(mem.disk, mem.ix, mem.stale.Keys)
    ensures var b := RecordAppended(mem, h, hd.pc.o, LastRec(hd.pc, hd.op));
            Frame(mem, b, h, hd) && OthersCharged(mem, b, h)
  {
    var b := RecordAppended(mem, h, hd.pc.o, LastRec(hd.pc, hd.op));
    NoOwner(mem, hd.pc.o);
    AppendRecsKept(mem, h, hd);
    AppendLists(mem, h, hd);
    hide WF, RecsKept, ListsKept, KeysKept, Frame, OthersCharged;
    WriteFrame(mem, b, h, hd, {});
  }

  lemma AppendRecsKept(mem: Mem, h: nat, hd: Hd)
    requires hd.pc.XWrite? && hd.op.Store? && hd.pc.o !in mem.disk.recs
    ensures RecsKept(mem, RecordAppended(mem, h, hd.pc.o, LastRec(hd.pc, hd.op)), h, hd, {})
  {
  }

  lemma AppendLists(mem: Mem, h: nat, hd: Hd)
    requires hd.pc.XWrite? && hd.op.Store? && hd.pc.o !in mem.ix.owner
    ensures var b := RecordAppended(mem, h, hd.pc.o, LastRec(hd.pc, hd.op));
            ListsKept(mem, b, h, hd) && KeysKept(mem, b, hd) && OthersCharged(mem, b, h)
  {
  }

  lemma NoOwner(mem: Mem, o: nat)
    requires WF(mem.disk, mem.ix, mem.stale.Keys) && o !in mem.disk.recs
    ensures o !in mem.ix.owner
  {
  }

  lemma NewAgrees(mem: Mem, b: Mem, o: nat)
    requires Agree(mem) && b.m == mem.m && b.pend == mem.pend && b.ix.at == mem.ix.at && o !in mem.disk.recs
    requires forall x :: x != o ==> SameDatum(mem.disk, b.disk, x)
    ensures Agree(b)
  {
    forall key | key !in b.pend ensures KeyAgrees(b, key) {
      assert KeyAgrees(mem, key);
      assert key in b.ix.at && b.ix.at[key] != o ==> SameDatum(mem.disk, b.disk, b.ix.at[key]);
    }
  }

  lemma AppendRecGood(mem: Mem, h: nat, hd: Hd)
    requires Shared(mem) && Local(mem, h, hd) && Charged(mem, h, hd) && hd.pc.XWrite?
    ensures Good(mem, h, hd, Mem1(mem, h, hd), Hd1(mem, h, hd))
  {
    hide SearchMove, HitMove, DeleteMove, FreeMove, Shared, Frame, OthersCharged, SearchLocal, DeleteLocal, FreeLocal,
         Appended, Ready, WF;
    AppendRecShared(mem, h, hd);
    SharedWF(mem);
    AppendRecFrame(mem, h, hd);
    Elsewhere(Mem1(mem, h, hd), h, Hd1(mem, h, hd));
  }

  /** The new record becomes the first of its chain. */
  lemma LinkShared(mem: Mem, h: nat, hd: Hd)
    requires Shared(mem) && AppendLocal(mem, h, hd) && OwnChain(mem, h, hd) && hd.pc.Link?
    ensures hd.op.Store? && IsCell(mem.disk, Chain(hd.op)) && |mem.ix.lists| == LISTS && hd.pc.o in mem.disk.recs
    ensures hd.pc.rep ==> Shared(RecordLinked(mem, hd.op, hd.pc.o))
    ensures !hd.pc.rep ==> Shared(Took(RecordLinked(mem, hd.op, hd.pc.o), h, hd.op, Code(0)))
  {
    hide AllMembers, AllLinks, AllRecs, AllKeys, DataDistinct;
    var op, o, l := hd.op, hd.pc.o, ListOf(hd.op.key);
    NoStaleFree(mem);
    ChainHead(mem, l);
    PutFirst(mem.disk, mem.ix, mem.stale.Keys, l, o);
    PtrSame(mem.disk, Chain(op), o);
    var b := RecordLinked(mem, op, o);
    EndsKept(mem, b);
    if hd.pc.rep {
      LinkAgrees(mem, b, hd);
    } else {
      assert KeyAgrees(mem, op.key);
      TookLogged(mem, h, op, Code(0));
      TookKeys(mem, h, hd, Code(0));
      LinkAgrees(mem, Took(b, h, op, Code(0)), hd);
    }
  }

  lemma LinkAgrees(mem: Mem, b: Mem, hd: Hd)
    requires Agree(mem) && hd.pc.Link? && hd.op.Store? && hd.op.key !in mem.ix.at
    requires b.ix.at == mem.ix.at[hd.op.key := hd.pc.o] && b.pend == mem.pend - {hd.op.key}
    requires HasValue(mem.disk, hd.pc.o, hd.op.data) && forall o :: SameDatum(mem.disk, b.disk, o)
    requires hd.op.key in b.m && b.m[hd.op.key] == hd.op.data
    requires forall key :: key != hd.op.key ==>
               (key in b.m <==> key in mem.m) && (key in mem.m && key in b.m ==> b.m[key] == mem.m[key])
    ensures Agree(b)
  {
    assert SameDatum(mem.disk, b.disk, hd.pc.o);
    WriteAgrees(mem, b, hd);
  }

  lemma LinkFrame(mem: Mem, h: nat, hd: Hd)
    requires WF(mem.disk, mem.ix, mem.stale.Keys) && hd.pc.Link? && hd.op.Store? && IsHeld(mem, h, hd.pc.o)
    requires IsCell(mem.disk, Chain(hd.op)) && mem.disk.recs[hd.pc.o].key == hd.op.key
    ensures |mem.ix.lists| == LISTS
    ensures var b := RecordLinked(mem, hd.op, hd.pc.o); Frame(mem, b, h, hd) && OthersCharged(mem, b, h)
  {
    hide AllLinks, AllRecs, AllKeys, Frame, DataDistinct;
    CellMine(mem, h, hd, ListOf(hd.op.key), 0);
    PtrSame(mem.disk, Chain(hd.op), hd.pc.o);
    WriteFrame(mem, RecordLinked(mem, hd.op, hd.pc.o), h, hd, {});
  }

  /** Taking effect on one's own key concerns nobody else. */
  lemma TookFrame(a: Mem, b: Mem, h: nat, hd: Hd, res: Res)
    requires Frame(a, b, h, hd) && OthersCharged(a, b, h) && !Foreign(hd, ListOf(hd.op.key))
    ensures Frame(a, Took(b, h, hd.op, res), h, hd) && OthersCharged(a, Took(b, h, hd.op, res), h)
  {
    var c := Took(b, h, hd.op, res);
    TookKeys(b, h, hd, res);
    forall key | Foreign(hd, ListOf(key)) ensures KeyKept(a, c, key) {
      assert KeyKept(a, b, key);
    }
    forall l | 0 <= l < LISTS && Foreign(hd, l) ensures ListKept(a, c, l) {
      assert ListKept(a, b, l);
    }
    forall o | o in a.ix.owner && a.ix.owner[o].Held? && a.ix.owner[o] != Held(h) ensures HeldKept(a, c, o) {
      assert HeldKept(a, b, o);
    }
    forall e | !OwnsData(hd, e) ensures DataKept(a, c, e) {
      assert DataKept(a, b, e);
    }
  }

  lemma LinkGood(mem: Mem, h: nat, hd: Hd)
    requires Shared(mem) && Local(mem, h, hd) && Charged(mem, h, hd) && hd.pc.Link?
    ensures Good(mem, h, hd, Mem1(mem, h, hd), Hd1(mem, h, hd))
  {
    hide SearchMove, HitMove, DeleteMove, FreeMove, Shared, Frame, OthersCharged, SearchLocal, DeleteLocal, FreeLocal,
         WF, Storing, HasValue, Local, Charged, RecordLinked, OwnsData;
    LinkFacts(mem, h, hd);
    LinkShared(mem, h, hd);
    SharedWF(mem);
    LinkFrame(mem, h, hd);
    TookFrame(mem, RecordLinked(mem, hd.op, hd.pc.o), h, hd, Code(0));
    LinkOwn(mem, h, hd, Mem1(mem, h, hd), Hd1(mem, h, hd));
  }

  lemma LinkFacts(mem: Mem, h: nat, hd: Hd)
    requires Local(mem, h, hd) && hd.pc.Link?
    ensures AppendLocal(mem, h, hd) && OwnChain(mem, h, hd)
  {
  }

  /** The handle is done: nothing of it is open, in the making or private any more. */
  lemma LinkLocal(mem: Mem, h: nat, hd: Hd, b: Mem, hd': Hd)
    requires Local(mem, h, hd) && Charged(mem, h, hd) && hd.pc.Link? && hd.op.Store?
    requires IsCell(mem.disk, Chain(hd.op)) && |mem.ix.lists| == LISTS && hd.pc.o in mem.disk.recs
    requires hd' == hd.(pc := Done(if hd.pc.rep then hd.pc.i else |mem.log|))
    requires b == if hd.pc.rep then RecordLinked(mem, hd.op, hd.pc.o)
                  else Took(RecordLinked(mem, hd.op, hd.pc.o), h, hd.op, Code(0))
    ensures Local(b, h, hd')
  {
    hide SearchLocal, DeleteLocal, FreeLocal, Storing, HasValue, Charged, PutAt;
    Elsewhere(b, h, hd');
  }

  lemma LinkOwn(mem: Mem, h: nat, hd: Hd, b: Mem, hd': Hd)
    requires Local(mem, h, hd) && Charged(mem, h, hd) && hd.pc.Link? && hd.op.Store?
    requires IsCell(mem.disk, Chain(hd.op)) && |mem.ix.lists| == LISTS && hd.pc.o in mem.disk.recs
    requires hd' == hd.(pc := Done(if hd.pc.rep then hd.pc.i else |mem.log|))
    requires b == if hd.pc.rep then RecordLinked(mem, hd.op, hd.pc.o)
                  else Took(RecordLinked(mem, hd.op, hd.pc.o), h, hd.op, Code(0))
    ensures Local(b, h, hd') && Charged(b, h, hd') && forall e: nat :: !OwnsData(hd', e)
  {
    LinkLocal(mem, h, hd, b, hd');
    hide Local;
    assert b.ix.owner == mem.ix.owner[hd.pc.o := On(ListOf(hd.op.key))];
  }
}
