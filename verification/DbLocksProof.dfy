/**
 Every move keeps the invariant. One lemma a group of moves: reads and lock moves leave
 the shared state alone, the writes are the steps of DbIndex.
*/
module DbLocksProof {
  import opened DbFormat
  import opened DbDisk
  import opened DbIndex
  import opened DbSteps
  import opened DbLocks
  import opened DbLocksInv
  import Db

  /** Everything charged to handle h is something it is at. */
  ghost predicate Charged(mem: Mem, h: nat, hd: Hd) {
    && (forall l :: l in mem.stale && mem.stale[l] == h ==> AtStale(hd, l))
    && (forall key :: key in mem.pend && mem.pend[key] == h ==> AtPend(hd, key))
    && (forall o :: o in mem.ix.owner && mem.ix.owner[o] == Held(h) ==> Owns(hd, o))
  }

  /** Nothing new is charged to other handles. */
  ghost predicate OthersCharged(a: Mem, b: Mem, h: nat) {
    && (forall l :: l in b.stale && b.stale[l] != h ==> l in a.stale && a.stale[l] == b.stale[l])
    && (forall key :: key in b.pend && b.pend[key] != h ==> key in a.pend && a.pend[key] == b.pend[key])
    && (forall o :: o in b.ix.owner && b.ix.owner[o].Held? && b.ix.owner[o] != Held(h) ==>
         o in a.ix.owner && a.ix.owner[o] == b.ix.owner[o])
  }

  /** What the proof of a move establishes. */
  ghost predicate Good(a: Mem, h: nat, hd: Hd, b: Mem, hd': Hd) {
    && Shared(b) && Local(b, h, hd') && Frame(a, b, h, hd)
    && Charged(b, h, hd') && OthersCharged(a, b, h)
    && forall e: nat :: OwnsData(hd', e) ==> OwnsData(hd, e) || e >= a.datEnd
  }

  /** The four parts of a handle's values concern different places. */
  lemma Elsewhere(mem: Mem, h: nat, hd: Hd)
    ensures !InSearch(hd.pc) ==> SearchLocal(mem, h, hd)
    ensures !InDelete(hd.pc) ==> DeleteLocal(mem, h, hd)
    ensures !InFree(hd.pc) ==> FreeLocal(mem, h, hd)
    ensures !InAppend(hd.pc) ==> AppendLocal(mem, h, hd)
  {
  }

  // ---------- the log ----------

  lemma TookLogged(mem: Mem, h: nat, op: Op, res: Res)
    requires LogOK(mem) && res == Spec(mem.m, op).1
    ensures LogOK(Took(mem, h, op, res))
  {
    var log, log' := mem.log, mem.log + [Entry(h, op, res)];
    assert log'[..|log|] == log;
    forall i | 0 <= i < |log'| ensures log'[i].res == Spec(Replay(log'[..i]), log'[i].op).1 {
      if i < |log| {
        assert log'[..i] == log[..i];
      }
    }
  }

  /** A move that leaves files and lists alone. */
  lemma QuietFrame(a: Mem, b: Mem, h: nat, hd: Hd)
    requires a.disk == b.disk && a.ix == b.ix && a.stale == b.stale && a.pend == b.pend
    requires a.log <= b.log && a.datEnd == b.datEnd && a.idxEnd == b.idxEnd && a.m == b.m
    ensures Frame(a, b, h, hd) && OthersCharged(a, b, h)
  {
  }

  /** An operation that finds the map and the lists as they should be, and leaves them so. */
  lemma QuietShared(mem: Mem, h: nat, op: Op, res: Res)
    requires Shared(mem) && Spec(mem.m, op) == (mem.m, res)
    ensures Shared(Took(mem, h, op, res))
  {
    TookLogged(mem, h, op, res);
    forall key | key !in mem.pend ensures KeyAgrees(Took(mem, h, op, res), key) {
      assert KeyAgrees(mem, key);
    }
  }

  // ---------- walking ----------

  lemma ListLink(mem: Mem, l: nat, k: nat)
    requires Shared(mem) && l < LISTS && l !in mem.stale && k <= |List(mem, l)|
    ensures var p := List(mem, l); var cell := CellOf(l, p, k);
            && IsCell(mem.disk, cell) && PtrAt(mem.disk, cell) == ValOf(p, k)
            && (k < |p| ==> p[k] in mem.disk.recs && p[k] != 0 && mem.disk.recs[p[k]].next == ValOf(p, k + 1))
  {
    var p := List(mem, l);
    assert LinkAt(mem.disk, l, p, k);
    assert Members(mem.disk.recs, mem.ix, l);
    if k < |p| {
      assert RecOK(mem.disk, mem.ix, p[k]);
      assert LinkAt(mem.disk, l, p, k + 1);
    }
  }

  /** A walk that has passed the whole chain without meeting the key shows that it is absent. */
  lemma WalkEnds(mem: Mem, key: string, k: nat)
    requires Shared(mem) && ListOf(key) !in mem.stale && Passed(mem, key, k) && ValOf(List(mem, ListOf(key)), k) == 0
    ensures k == |List(mem, ListOf(key))| && key !in mem.ix.at
    ensures key !in mem.pend ==> key !in mem.m
  {
    ListLink(mem, ListOf(key), k);
    LiveOnChain(mem.disk, mem.ix, mem.stale.Keys, key);
    assert key !in mem.pend ==> KeyAgrees(mem, key);
  }

  /** A walk that has met the key stands at its record. */
  lemma WalkHits(mem: Mem, key: string, k: nat)
    requires Shared(mem) && k < |List(mem, ListOf(key))| && HasKey(mem.disk, List(mem, ListOf(key))[k], key)
    ensures var o := List(mem, ListOf(key))[k];
            && key in mem.ix.at && mem.ix.at[key] == o
            && mem.disk.recs[o].datoff in mem.disk.ext
            && |mem.disk.ext[mem.disk.recs[o].datoff]| + 1 == mem.disk.recs[o].datlen
            && (key !in mem.pend ==> key in mem.m && HasValue(mem.disk, o, mem.m[key]))
  {
    var o := List(mem, ListOf(key))[k];
    LiveOnChain(mem.disk, mem.ix, mem.stale.Keys, key);
    assert RecOK(mem.disk, mem.ix, o);
    assert key !in mem.pend ==> KeyAgrees(mem, key);
  }

  ghost function Mem1(mem: Mem, h: nat, hd: Hd): Mem { Next(mem, h, hd.op, hd.pc).0 }
  ghost function Hd1(mem: Mem, h: nat, hd: Hd): Hd { hd.(pc := Next(mem, h, hd.op, hd.pc).1) }

  /** What the handle is at, it is still at. */
  ghost predicate Keeps(hd: Hd, hd': Hd) {
    && hd'.op == hd.op
    && (forall l :: AtStale(hd, l) ==> AtStale(hd', l))
    && (forall key :: AtPend(hd, key) ==> AtPend(hd', key))
    && (forall o :: Owns(hd, o) ==> Owns(hd', o))
    && (forall e: nat :: OwnsData(hd', e) ==> OwnsData(hd, e))
  }

  /** A move that only reads does all it needs to if the values it takes are right. */
  lemma QuietGood(mem: Mem, h: nat, hd: Hd, b: Mem, hd': Hd)
    requires b.disk == mem.disk && b.ix == mem.ix && b.stale == mem.stale && b.pend == mem.pend
    requires b.m == mem.m && mem.log <= b.log && b.datEnd == mem.datEnd && b.idxEnd == mem.idxEnd
    requires Charged(mem, h, hd) && Keeps(hd, hd') && Shared(b) && Local(b, h, hd')
    ensures Good(mem, h, hd, b, hd')
  {
    hide Shared, Local, Frame, AtStale, AtPend, Owns, OwnsData;
    QuietFrame(mem, b, h, hd);
  }

  /** A key free of pending work and a whole chain, for a handle that is at neither. */
  lemma WantGood(mem: Mem, h: nat, hd: Hd)
    requires Shared(mem) && Local(mem, h, hd) && Charged(mem, h, hd) && hd.pc.Want?
    requires HasChain(Hd1(mem, h, hd)) ==> ListOf(hd.op.key) !in mem.stale && hd.op.key !in mem.pend
    ensures Good(mem, h, hd, Mem1(mem, h, hd), Hd1(mem, h, hd))
  {
    hide HitMove, DeleteMove, FreeMove, WriteMove, Shared;
    hide Frame, OthersCharged, SearchLocal, DeleteLocal, FreeLocal, AppendLocal;
    QuietFrame(mem, Mem1(mem, h, hd), h, hd);
    Elsewhere(Mem1(mem, h, hd), h, Hd1(mem, h, hd));
    if hd.op.Store? && !Db.ValidFlag(hd.op.flag) {
      QuietShared(mem, h, hd.op, Code(-1));
    }
  }

  lemma HeadLocal(mem: Mem, h: nat, hd: Hd)
    requires Shared(mem) && Local(mem, h, hd) && hd.pc.Head?
    ensures Mem1(mem, h, hd) == mem && Local(Mem1(mem, h, hd), h, Hd1(mem, h, hd)) && Keeps(hd, Hd1(mem, h, hd))
  {
    hide HitMove, DeleteMove, FreeMove, WriteMove, Shared, Charged, DeleteLocal, FreeLocal, AppendLocal;
    ListLink(mem, ListOf(hd.op.key), 0);
    Elsewhere(mem, h, Hd1(mem, h, hd));

  }

  lemma HeadGood(mem: Mem, h: nat, hd: Hd)
    requires Shared(mem) && Local(mem, h, hd) && Charged(mem, h, hd) && hd.pc.Head?
    ensures Good(mem, h, hd, Mem1(mem, h, hd), Hd1(mem, h, hd))
  {
    HeadLocal(mem, h, hd);
    hide Shared, Local, Charged, Keeps, Next, Good;
    QuietGood(mem, h, hd, mem, Hd1(mem, h, hd));
  }

  lemma AtLocal(mem: Mem, h: nat, hd: Hd)
    requires Shared(mem) && Local(mem, h, hd) && hd.pc.At? && hd.pc.offset != 0
    ensures Mem1(mem, h, hd) == mem && Local(Mem1(mem, h, hd), h, Hd1(mem, h, hd)) && Keeps(hd, Hd1(mem, h, hd))
  {
    hide HitMove, DeleteMove, FreeMove, WriteMove, Shared, Charged, DeleteLocal, FreeLocal, AppendLocal;
    ListLink(mem, ListOf(hd.op.key), hd.pc.k);
    Elsewhere(mem, h, Hd1(mem, h, hd));

  }

  lemma AtGood(mem: Mem, h: nat, hd: Hd)
    requires Shared(mem) && Local(mem, h, hd) && Charged(mem, h, hd) && hd.pc.At? && hd.pc.offset != 0
    ensures Good(mem, h, hd, Mem1(mem, h, hd), Hd1(mem, h, hd))
  {
    AtLocal(mem, h, hd);
    hide Shared, Local, Charged, Keeps, Next, Good;
    QuietGood(mem, h, hd, mem, Hd1(mem, h, hd));
  }

  lemma MissGood(mem: Mem, h: nat, hd: Hd)
    requires Shared(mem) && Local(mem, h, hd) && Charged(mem, h, hd) && hd.pc.At? && hd.pc.offset == 0
    ensures Good(mem, h, hd, Mem1(mem, h, hd), Hd1(mem, h, hd))
  {
    hide HitMove, DeleteMove, FreeMove, WriteMove, Shared, Frame, OthersCharged, DeleteLocal, FreeLocal;
    var op := hd.op;
    Elsewhere(Mem1(mem, h, hd), h, Hd1(mem, h, hd));
    WalkEnds(mem, op.key, hd.pc.k);
    assert mem.m - {op.key} == mem.m;
    QuietFrame(mem, Mem1(mem, h, hd), h, hd);
    match op {
      case Fetch(_) => QuietShared(mem, h, op, Val(Db.None));
      case Delete(_) => QuietShared(mem, h, op, Code(-1));
      case Store(_, _, flag) =>
        if flag == Db.DB_REPLACE {
          QuietShared(mem, h, op, Code(-1));
        }
    }
  }

  lemma BodyLocal(mem: Mem, h: nat, hd: Hd)
    requires Shared(mem) && Local(mem, h, hd) && hd.pc.Body?
    ensures Mem1(mem, h, hd) == mem && Local(Mem1(mem, h, hd), h, Hd1(mem, h, hd)) && Keeps(hd, Hd1(mem, h, hd))
  {
    hide HitMove, DeleteMove, FreeMove, WriteMove, Shared, Charged, DeleteLocal, FreeLocal, AppendLocal;
    ListLink(mem, ListOf(hd.op.key), hd.pc.k);
    Elsewhere(mem, h, Hd1(mem, h, hd));

  }

  lemma BodyGood(mem: Mem, h: nat, hd: Hd)
    requires Shared(mem) && Local(mem, h, hd) && Charged(mem, h, hd) && hd.pc.Body?
    ensures Good(mem, h, hd, Mem1(mem, h, hd), Hd1(mem, h, hd))
  {
    BodyLocal(mem, h, hd);
    hide Shared, Local, Charged, Keeps, Next, Good;
    QuietGood(mem, h, hd, mem, Hd1(mem, h, hd));
  }

  // ---------- the other moves that only read ----------

  lemma HitLocal(mem: Mem, h: nat, hd: Hd)
    requires Shared(mem) && Local(mem, h, hd) && hd.pc.Hit?
    requires hd.op.Store? && hd.op.flag != Db.DB_INSERT ==> |hd.op.data| + 1 != hd.pc.datlen
    ensures Local(Mem1(mem, h, hd), h, Hd1(mem, h, hd)) && Keeps(hd, Hd1(mem, h, hd))
    ensures Mem1(mem, h, hd) == mem.(m := mem.m, log := Mem1(mem, h, hd).log) && mem.log <= Mem1(mem, h, hd).log
  {
    hide SearchMove, DeleteMove, FreeMove, WriteMove, Shared, Charged, FreeLocal, AppendLocal;
    WalkHits(mem, hd.op.key, hd.pc.k);
    Elsewhere(Mem1(mem, h, hd), h, Hd1(mem, h, hd));

  }

  lemma HitGood(mem: Mem, h: nat, hd: Hd)
    requires Shared(mem) && Local(mem, h, hd) && Charged(mem, h, hd) && hd.pc.Hit?
    requires hd.op.Store? && hd.op.flag != Db.DB_INSERT ==> |hd.op.data| + 1 != hd.pc.datlen
    ensures Good(mem, h, hd, Mem1(mem, h, hd), Hd1(mem, h, hd))
  {
    HitLocal(mem, h, hd);
    HitShared(mem, h, hd);
    hide Shared, Local, Charged, Keeps, Good;
    QuietGood(mem, h, hd, Mem1(mem, h, hd), Hd1(mem, h, hd));
  }

  /** Only a fetch and an insertion end here. */
  lemma HitShared(mem: Mem, h: nat, hd: Hd)
    requires Shared(mem) && Local(mem, h, hd) && hd.pc.Hit?
    requires hd.op.Store? && hd.op.flag != Db.DB_INSERT ==> |hd.op.data| + 1 != hd.pc.datlen
    ensures Shared(Mem1(mem, h, hd))
  {
    hide SearchMove, DeleteMove, FreeMove, WriteMove, Shared, DeleteLocal, FreeLocal, AppendLocal;
    var op := hd.op;
    WalkHits(mem, op.key, hd.pc.k);
    match op {
      case Fetch(key) => QuietShared(mem, h, op, Val(Db.Some(mem.m[key])));
      case Delete(_) =>
      case Store(_, _, flag) =>
        if flag == Db.DB_INSERT {
          QuietShared(mem, h, op, Code(1));
        }
    }
  }

  lemma DeleteReadLocal(mem: Mem, h: nat, hd: Hd)
    requires Shared(mem) && Local(mem, h, hd) && (hd.pc.D1? || hd.pc.D5?)
    ensures Mem1(mem, h, hd) == mem && Local(Mem1(mem, h, hd), h, Hd1(mem, h, hd)) && Keeps(hd, Hd1(mem, h, hd))
  {
    hide HitMove, SearchMove, FreeMove, WriteMove, Shared, Charged, FreeLocal, SearchLocal;
    FreeHead(mem);
    Elsewhere(mem, h, Hd1(mem, h, hd));

  }

  lemma DeleteReadGood(mem: Mem, h: nat, hd: Hd)
    requires Shared(mem) && Local(mem, h, hd) && Charged(mem, h, hd) && (hd.pc.D1? || hd.pc.D5?)
    ensures Good(mem, h, hd, Mem1(mem, h, hd), Hd1(mem, h, hd))
  {
    DeleteReadLocal(mem, h, hd);
    hide Shared, Local, Charged, Keeps, Next, Good;
    QuietGood(mem, h, hd, mem, Hd1(mem, h, hd));
  }

  lemma FreeHead(mem: Mem)
    requires Shared(mem)
    ensures IsCell(mem.disk, FREE_OFF) && PtrAt(mem.disk, FREE_OFF) == HeadOf(mem, 0)
  {
    CellInFile(mem.disk, mem.ix, mem.stale.Keys, 0, 0);
  }

  lemma ChainHead(mem: Mem, l: nat)
    requires Shared(mem) && l < LISTS
    ensures IsCell(mem.disk, PTR_SZ * l) && PtrAt(mem.disk, PTR_SZ * l) == HeadOf(mem, l)
  {
    CellInFile(mem.disk, mem.ix, mem.stale.Keys, l, 0);
    assert PTR_SZ * l / PTR_SZ == l;
  }

  lemma FreeLockLocal(mem: Mem, h: nat, hd: Hd)
    requires Shared(mem) && Local(mem, h, hd)
    requires hd.pc.FWant? || hd.pc.FHead? || hd.pc.FOut?
    ensures Mem1(mem, h, hd) == mem && Local(Mem1(mem, h, hd), h, Hd1(mem, h, hd)) && Keeps(hd, Hd1(mem, h, hd))
  {
    hide SearchMove, HitMove, DeleteMove, WriteMove, Shared, Charged,
         DeleteLocal, SearchLocal, AppendLocal, OwnChain;
    NoStaleFree(mem);
    ListLink(mem, 0, 0);
    Elsewhere(mem, h, Hd1(mem, h, hd));
    ChainOwned(mem, h, hd, Hd1(mem, h, hd));

  }

  lemma FreeLockGood(mem: Mem, h: nat, hd: Hd)
    requires Shared(mem) && Local(mem, h, hd) && Charged(mem, h, hd)
    requires hd.pc.FWant? || hd.pc.FHead? || hd.pc.FOut?
    ensures Good(mem, h, hd, Mem1(mem, h, hd), Hd1(mem, h, hd))
  {
    FreeLockLocal(mem, h, hd);
    hide Shared, Local, Charged, Keeps, Next, Good;
    QuietGood(mem, h, hd, mem, Hd1(mem, h, hd));
  }

  lemma FreeReadLocal(mem: Mem, h: nat, hd: Hd)
    requires Shared(mem) && Local(mem, h, hd) && (hd.pc.FAt? || hd.pc.FBody?)
    ensures Mem1(mem, h, hd) == mem && Local(Mem1(mem, h, hd), h, Hd1(mem, h, hd)) && Keeps(hd, Hd1(mem, h, hd))
  {
    hide SearchMove, HitMove, DeleteMove, WriteMove, Shared, Charged,
         DeleteLocal, SearchLocal, OwnChain;
    NoStaleFree(mem);
    ListLink(mem, 0, hd.pc.k);
    Elsewhere(mem, h, Hd1(mem, h, hd));
    ChainOwned(mem, h, hd, Hd1(mem, h, hd));

  }

  lemma FreeReadGood(mem: Mem, h: nat, hd: Hd)
    requires Shared(mem) && Local(mem, h, hd) && Charged(mem, h, hd) && (hd.pc.FAt? || hd.pc.FBody?)
    ensures Good(mem, h, hd, Mem1(mem, h, hd), Hd1(mem, h, hd))
  {
    FreeReadLocal(mem, h, hd);
    hide Shared, Local, Charged, Keeps, Next, Good;
    QuietGood(mem, h, hd, mem, Hd1(mem, h, hd));
  }

  lemma NoStaleFree(mem: Mem)
    requires Shared(mem)
    ensures 0 !in mem.stale && |mem.ix.lists| == LISTS
  {
  }

  lemma AppendReadLocal(mem: Mem, h: nat, hd: Hd)
    requires Shared(mem) && Local(mem, h, hd)
    requires hd.pc.NewHead? || hd.pc.ALock? || hd.pc.ASeek?
    ensures Mem1(mem, h, hd) == mem && Local(Mem1(mem, h, hd), h, Hd1(mem, h, hd)) && Keeps(hd, Hd1(mem, h, hd))
  {
    hide SearchMove, HitMove, DeleteMove, FreeMove, Shared, Charged, DeleteLocal, SearchLocal, OwnChain;
    ChainHead(mem, ListOf(hd.op.key));
    Elsewhere(mem, h, Hd1(mem, h, hd));
    ChainOwned(mem, h, hd, Hd1(mem, h, hd));

  }

  lemma AppendReadGood(mem: Mem, h: nat, hd: Hd)
    requires Shared(mem) && Local(mem, h, hd) && Charged(mem, h, hd)
    requires hd.pc.NewHead? || hd.pc.ALock? || hd.pc.ASeek?
    ensures Good(mem, h, hd, Mem1(mem, h, hd), Hd1(mem, h, hd))
  {
    AppendReadLocal(mem, h, hd);
    hide Shared, Local, Charged, Keeps, Next, Good;
    QuietGood(mem, h, hd, mem, Hd1(mem, h, hd));
  }

  lemma RecordReadLocal(mem: Mem, h: nat, hd: Hd)
    requires Shared(mem) && Local(mem, h, hd)
    requires hd.pc.AUnlock? || hd.pc.XLock? || hd.pc.XSeek? || hd.pc.XUnlock?
    ensures Mem1(mem, h, hd) == mem && Local(Mem1(mem, h, hd), h, Hd1(mem, h, hd)) && Keeps(hd, Hd1(mem, h, hd))
  {
    hide SearchMove, HitMove, DeleteMove, FreeMove, Shared, Charged,
         DeleteLocal, SearchLocal, FreeLocal, OwnChain, Unread, HasValue, IsHeld;
    Elsewhere(mem, h, Hd1(mem, h, hd));
    ChainOwned(mem, h, hd, Hd1(mem, h, hd));

  }

  lemma RecordReadGood(mem: Mem, h: nat, hd: Hd)
    requires Shared(mem) && Local(mem, h, hd) && Charged(mem, h, hd)
    requires hd.pc.AUnlock? || hd.pc.XLock? || hd.pc.XSeek? || hd.pc.XUnlock?
    ensures Good(mem, h, hd, Mem1(mem, h, hd), Hd1(mem, h, hd))
  {
    RecordReadLocal(mem, h, hd);
    hide Shared, Local, Charged, Keeps, Next, Good;
    QuietGood(mem, h, hd, mem, Hd1(mem, h, hd));
  }

  lemma ChainOwned(mem: Mem, h: nat, hd: Hd, hd': Hd)
    requires OwnChain(mem, h, hd) && hd'.op == hd.op
    requires AtStale(hd, ListOf(hd.op.key)) == AtStale(hd', ListOf(hd.op.key))
    requires AtPend(hd, hd.op.key) == AtPend(hd', hd.op.key)
    ensures OwnChain(mem, h, hd')
  {
  }

  lemma EndGood(mem: Mem, h: nat, hd: Hd)
    requires Shared(mem) && Local(mem, h, hd) && Charged(mem, h, hd) && (hd.pc.Done? || hd.pc.Ret?)
    ensures Good(mem, h, hd, Mem1(mem, h, hd), Hd1(mem, h, hd))
  {
    hide SearchMove, HitMove, DeleteMove, FreeMove, WriteMove, Shared;
    hide Frame, OthersCharged, SearchLocal, DeleteLocal, FreeLocal, AppendLocal;
    QuietFrame(mem, mem, h, hd);
    Elsewhere(mem, h, Hd1(mem, h, hd));
  }
}
