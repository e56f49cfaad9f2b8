/**
 Whole runs: any handles, any operations, any interleaving the locks allow.
*/
module DbLocksRuns {
  import opened DbFormat
  import opened DbDisk
  import opened DbIndex
  import opened DbLocks
  import opened DbLocksInv
  import opened DbLocksProof
  import opened DbLocksWrites
  import Db
  import DbSteps

  lemma SearchingGood(mem: Mem, h: nat, hd: Hd)
    requires Shared(mem) && Local(mem, h, hd) && Charged(mem, h, hd) && (hd.pc.Want? || hd.pc.Head? || InSearch(hd.pc))
    requires hd.pc.Want? && HasChain(Hd1(mem, h, hd)) ==> ListOf(hd.op.key) !in mem.stale && hd.op.key !in mem.pend
    ensures Good(mem, h, hd, Mem1(mem, h, hd), Hd1(mem, h, hd))
  {
    hide Shared, Local, Charged, Good, Next;
    if hd.pc.Want? {
      WantGood(mem, h, hd);
    } else if hd.pc.Head? {
      HeadGood(mem, h, hd);
    } else if hd.pc.At? {
      if hd.pc.offset == 0 { MissGood(mem, h, hd); } else { AtGood(mem, h, hd); }
    } else if hd.pc.Body? {
      BodyGood(mem, h, hd);
    } else if hd.op.Store? && hd.op.flag != Db.DB_INSERT && |hd.op.data| + 1 == hd.pc.datlen {
      OverwriteGood(mem, h, hd);
    } else {
      HitGood(mem, h, hd);
    }
  }

  lemma DeletingGood(mem: Mem, h: nat, hd: Hd)
    requires Shared(mem) && Local(mem, h, hd) && Charged(mem, h, hd) && InDelete(hd.pc)
    ensures Good(mem, h, hd, Mem1(mem, h, hd), Hd1(mem, h, hd))
  {
    hide Shared, Local, Charged, Good, Next;
    if hd.pc.D0? {
      BlankGood(mem, h, hd);
    } else if hd.pc.D2? {
      EraseGood(mem, h, hd);
    } else if hd.pc.D3? {
      FreeGood(mem, h, hd);
    } else if hd.pc.D4? {
      CloseGood(mem, h, hd);
    } else {
      DeleteReadGood(mem, h, hd);
    }
  }

  lemma FittingGood(mem: Mem, h: nat, hd: Hd)
    requires Shared(mem) && Local(mem, h, hd) && Charged(mem, h, hd) && InFree(hd.pc)
    ensures Good(mem, h, hd, Mem1(mem, h, hd), Hd1(mem, h, hd))
  {
    hide Shared, Local, Charged, Good, Next;
    if hd.pc.FTake? {
      TakeGood(mem, h, hd);
    } else if hd.pc.RDat? {
      RedataGood(mem, h, hd);
    } else if hd.pc.RIdx? {
      RerecGood(mem, h, hd);
    } else if hd.pc.FAt? || hd.pc.FBody? {
      FreeReadGood(mem, h, hd);
    } else {
      FreeLockGood(mem, h, hd);
    }
  }

  lemma AppendingGood(mem: Mem, h: nat, hd: Hd)
    requires Shared(mem) && Local(mem, h, hd) && Charged(mem, h, hd) && InAppend(hd.pc)
    ensures Good(mem, h, hd, Mem1(mem, h, hd), Hd1(mem, h, hd))
  {
    hide Shared, Local, Charged, Good, Next;
    if hd.pc.AWrite? {
      AppendDataGood(mem, h, hd);
    } else if hd.pc.XWrite? {
      AppendRecGood(mem, h, hd);
    } else if hd.pc.Link? {
      LinkGood(mem, h, hd);
    } else if hd.pc.NewHead? || hd.pc.ALock? || hd.pc.ASeek? {
      AppendReadGood(mem, h, hd);
    } else {
      RecordReadGood(mem, h, hd);
    }
  }

  /** Every move of a handle under way does what the proof needs. */
  lemma MoveGood(mem: Mem, h: nat, hd: Hd)
    requires Shared(mem) && Local(mem, h, hd) && Charged(mem, h, hd) && !hd.pc.Idle?
    requires hd.pc.Want? && HasChain(Hd1(mem, h, hd)) ==> ListOf(hd.op.key) !in mem.stale && hd.op.key !in mem.pend
    ensures Good(mem, h, hd, Mem1(mem, h, hd), Hd1(mem, h, hd))
  {
    if hd.pc.Want? || hd.pc.Head? || InSearch(hd.pc) {
      SearchingGood(mem, h, hd);
    } else if InDelete(hd.pc) {
      DeletingGood(mem, h, hd);
    } else if InFree(hd.pc) {
      FittingGood(mem, h, hd);
    } else if InAppend(hd.pc) {
      AppendingGood(mem, h, hd);
    } else {
      EndGood(mem, h, hd);
    }
  }

  /** Nobody has the chain open, or its key in the making, when its lock can be taken. */
  lemma LockFindsOrder(s: Sys, h: nat, s': Sys)
    requires Inv(s) && h in s.hs && s.hs[h].pc.Want? && s'.hs == s.hs[h := After(s, h)] && Exclusive(s'.hs)
    requires HasChain(After(s, h))
    ensures ListOf(s.hs[h].op.key) !in s.mem.stale && s.hs[h].op.key !in s.mem.pend
  {
    hide Next, Local, Shared, DataPrivate, AppHeld;
    var l, key := ListOf(s.hs[h].op.key), s.hs[h].op.key;
    if l in s.mem.stale {
      var x := s.mem.stale[l];
      assert AtStale(s.hs[x], l);
      Excluded(s, h, s', x);
    }
    if key in s.mem.pend {
      var x := s.mem.pend[key];
      assert AtPend(s.hs[x], key);
      Excluded(s, h, s', x);
    }
  }

  /** Nobody whose chain is broken or half stored leaves its lock to another. */
  lemma Excluded(s: Sys, h: nat, s': Sys, x: nat)
    requires Inv(s) && h in s.hs && x in s.hs && x != h && s'.hs == s.hs[h := After(s, h)] && Exclusive(s'.hs)
    requires HasChain(After(s, h)) && ListOf(s.hs[x].op.key) == ListOf(s.hs[h].op.key)
    ensures !AtPend(s.hs[x], s.hs[x].op.key) && !AtStale(s.hs[x], ListOf(s.hs[x].op.key))
  {
    hide Next;
    assert Local(s.mem, x, s.hs[x]) && s'.hs[x] == s.hs[x];
    assert !Conflict(s'.hs[h], s'.hs[x]);
    if AtPend(s.hs[x], s.hs[x].op.key) || AtStale(s.hs[x], ListOf(s.hs[x].op.key)) {
      PendLocks(s.mem, x, s.hs[x]);
    }
  }

  /** A handle with a key in the making has its chain locked for writing. */
  lemma PendLocks(mem: Mem, x: nat, xd: Hd)
    requires Local(mem, x, xd) && (AtPend(xd, xd.op.key) || AtStale(xd, ListOf(xd.op.key)))
    ensures HasChain(xd) && !xd.op.Fetch?
  {
  }

  // ---------- one move ----------

  lemma ChargedHere(s: Sys, h: nat)
    requires Accounted(s.mem, s.hs) && h in s.hs
    ensures Charged(s.mem, h, s.hs[h])
  {
  }

  /** The others are where they were, and so are their values. */
  lemma OthersStable(s: Sys, h: nat, b: Mem, hd': Hd, x: nat)
    requires Inv(s) && h in s.hs && x in s.hs && x != h && Good(s.mem, h, s.hs[h], b, hd')
    ensures Local(b, x, s.hs[x])
  {
    hide Local;
    var hd, xd := s.hs[h], s.hs[x];
    FrameUndisturbed(s.mem, b, h, hd, x, xd);
    LocalStable(s.mem, b, x, xd);
  }

  lemma AccountedAfter(s: Sys, h: nat, b: Mem, hd': Hd)
    requires Accounted(s.mem, s.hs) && h in s.hs && OthersCharged(s.mem, b, h) && Charged(b, h, hd')
    ensures Accounted(b, s.hs[h := hd'])
  {
  }

  /** Appended data without a record is new, or was the handle's already. */
  lemma DataPrivateAfter(s: Sys, h: nat, b: Mem, hd': Hd)
    requires Inv(s) && h in s.hs && Good(s.mem, h, s.hs[h], b, hd')
    ensures DataPrivate(s.hs[h := hd'])
  {
    hide Good, Shared;
    var hs' := s.hs[h := hd'];
    GoodData(s.mem, h, s.hs[h], b, hd');
    forall x, e | x in s.hs && x != h && OwnsData(s.hs[x], e) ensures !OwnsData(hd', e) {
      OldData(s.mem, x, s.hs[x], e);
    }
  }

  lemma GoodData(a: Mem, h: nat, hd: Hd, b: Mem, hd': Hd)
    requires Good(a, h, hd, b, hd')
    ensures forall e: nat :: OwnsData(hd', e) ==> OwnsData(hd, e) || e >= a.datEnd
  {
  }

  lemma OldData(mem: Mem, x: nat, xd: Hd, e: nat)
    requires Shared(mem) && Local(mem, x, xd) && OwnsData(xd, e)
    ensures e < mem.datEnd
  {
  }

  /** Moving on keeps the invariant. */
  lemma GoKeeps(s: Sys, h: nat, keep: bool, s': Sys)
    requires Inv(s) && Reaches(s, Go(h, keep), s')
    ensures Inv(s')
  {
    hide Shared, Local, Charged, Next, Frame, Good;
    var hd := s.hs[h];
    ChargedHere(s, h);
    if hd.pc.Want? && HasChain(Hd1(s.mem, h, hd)) {
      LockFindsOrder(s, h, s');
    }
    MoveGood(s.mem, h, hd);
    var b, hd' := Mem1(s.mem, h, hd), Hd1(s.mem, h, hd);
    assert s'.mem == b && s'.hs == s.hs[h := hd'];
    GoodParts(s.mem, h, hd, b, hd');
    forall x | x in s'.hs ensures Local(s'.mem, x, s'.hs[x]) {
      if x != h { OthersStable(s, h, b, hd', x); }
    }
    AccountedAfter(s, h, b, hd');
    DataPrivateAfter(s, h, b, hd');
    AppAfter(s, h, keep, s');
  }

  lemma GoodParts(a: Mem, h: nat, hd: Hd, b: Mem, hd': Hd)
    requires Good(a, h, hd, b, hd')
    ensures Shared(b) && Local(b, h, hd') && Charged(b, h, hd') && OthersCharged(a, b, h)
  {
  }

  lemma AppAfter(s: Sys, h: nat, keep: bool, s': Sys)
    requires AppHeld(s.app, s.hs) && Reaches(s, Go(h, keep), s')
    ensures AppHeld(s'.app, s'.hs)
  {
    var hd := s.hs[h];
    assert HasApp(After(s, h).pc) ==> HasApp(hd.pc) || hd.pc.XLock?;
    assert hd.pc.XUnlock? ==> !HasApp(After(s, h).pc);
  }

  /** Starting an operation keeps the invariant. */
  lemma BeginKeeps(s: Sys, h: nat, op: Op, s': Sys)
    requires Inv(s) && Reaches(s, Begin(h, op), s')
    ensures Inv(s')
  {
    hide Shared, Charged, OthersCharged, SearchLocal, DeleteLocal, FreeLocal, AppendLocal;
    var hd' := Hd(Want, op, |s.mem.log|);
    Elsewhere(s.mem, h, hd');
    ChargedHere(s, h);
    AccountedAfter(s, h, s.mem, hd');
  }

  lemma {:induction false} RunKeeps(states: seq<Sys>, moves: seq<Move>, n: nat)
    requires IsRun(states, moves) && n <= |moves|
    ensures Inv(states[n])
  {
    if n == 0 {
      StartHolds(states[0]);
    } else {
      RunKeeps(states, moves, n - 1);
      assert Reaches(states[n - 1], moves[n - 1], states[n]);
      match moves[n - 1] {
        case Begin(h, op) => BeginKeeps(states[n - 1], h, op, states[n]);
        case Go(h, keep) => GoKeeps(states[n - 1], h, keep, states[n]);
      }
    }
  }

  lemma StartHolds(s: Sys)
    requires Initial(s)
    ensures Inv(s)
  {
    EmptyWF();
    assert s.mem.stale.Keys == {};
    forall x | x in s.hs ensures Local(s.mem, x, s.hs[x]) {
      Elsewhere(s.mem, x, s.hs[x]);
    }
  }

  // ---------- what holds in every run ----------

  /**
   A fetch about to read its record's data, its chain locked for reading, reads the value
   its key has in the map at that moment, whatever other handles are doing.
  */
  lemma FetchReadsCurrent(states: seq<Sys>, moves: seq<Move>, n: nat, h: nat)
    requires IsRun(states, moves) && n <= |moves| && h in states[n].hs
    requires states[n].hs[h].pc.Hit? && states[n].hs[h].op.Fetch?
    ensures var mem, hd := states[n].mem, states[n].hs[h];
            && hd.op.key in mem.m && hd.pc.datoff in mem.disk.ext
            && mem.disk.ext[hd.pc.datoff] == mem.m[hd.op.key] && mem.m == Replay(mem.log)
            && Mem1(mem, h, hd).log == mem.log + [Entry(h, hd.op, Val(Db.Some(mem.m[hd.op.key])))]
  {
    RunKeeps(states, moves, n);
    var mem, hd := states[n].mem, states[n].hs[h];
    assert Local(mem, h, hd);
    WalkHits(mem, hd.op.key, hd.pc.k);
  }

  /**
   Looking for a free record: the first that has a key and data as long as the store's is taken,
   and the store goes on to append exactly if there is none.
  */
  lemma TakesFirstFit(states: seq<Sys>, moves: seq<Move>, n: nat, h: nat)
    requires IsRun(states, moves) && n <= |moves| && h in states[n].hs
    requires states[n].hs[h].pc.FAt? || states[n].hs[h].pc.FBody?
    ensures var mem, hd := states[n].mem, states[n].hs[h]; var pc' := Hd1(mem, h, hd).pc;
            && hd.op.Store? && |mem.ix.lists| == LISTS && hd.pc.k <= |mem.ix.lists[0]|
            && (forall j :: 0 <= j < hd.pc.k ==>
                 && mem.ix.lists[0][j] in mem.disk.recs
                 && var r := mem.disk.recs[mem.ix.lists[0][j]];
                    |r.key| != |hd.op.key| || r.datlen != |hd.op.data| + 1)
            && (pc'.ALock? ==> hd.pc.k == |mem.ix.lists[0]|)
            && (pc'.FTake? <==> hd.pc.FBody? && hd.pc.offset in mem.disk.recs &&
                                |mem.disk.recs[hd.pc.offset].key| == |hd.op.key| &&
                                mem.disk.recs[hd.pc.offset].datlen == |hd.op.data| + 1)
  {
    RunKeeps(states, moves, n);
    var mem, hd := states[n].mem, states[n].hs[h];
    assert Local(mem, h, hd);
    hide SearchLocal, DeleteLocal, AppendLocal, SearchMove, HitMove, DeleteMove, WriteMove;
    NoStaleFree(mem);
    ListLink(mem, 0, hd.pc.k);
    forall j | 0 <= j < hd.pc.k ensures Unfit(mem, hd.op, mem.ix.lists[0][j]) {
      assert Unfit(mem, hd.op, List(mem, 0)[j]);
    }
  }

  /** A handle holds its chain for writing and the free list. */
  predicate BothLocks(hd: Hd, l: nat) {
    HasChain(hd) && !hd.op.Fetch? && ListOf(hd.op.key) == l && HasFree(hd.pc)
  }

  /**
   Every record is on its key's chain, on the free list, or private to one handle that is
   in the middle of moving it, and on no two of these; a list whose pointers do not spell
   out its members is one that a handle holding both its lock and the free list's is mending.
  */
  lemma RecordsAccounted(states: seq<Sys>, moves: seq<Move>, n: nat, o: nat)
    requires IsRun(states, moves) && n <= |moves| && o in states[n].mem.disk.recs
    ensures var s := states[n]; var mem := s.mem;
            && |mem.ix.lists| == LISTS && o in mem.ix.owner
            && (match mem.ix.owner[o] {
                  case On(l) =>
                    && l < LISTS && o in mem.ix.lists[l]
                    && (forall j :: 0 <= j < LISTS && o in mem.ix.lists[j] ==> j == l)
                    && (l != 0 ==> l == ListOf(mem.disk.recs[o].key))
                  case Held(h) =>
                    && h in s.hs && Owns(s.hs[h], o)
                    && forall j :: 0 <= j < LISTS ==> o !in mem.ix.lists[j]
                })
    ensures var s := states[n];
            forall l :: 0 <= l < LISTS && !Linked(s.mem.disk, l, s.mem.ix.lists[l]) ==>
              l in s.mem.stale && s.mem.stale[l] in s.hs && BothLocks(s.hs[s.mem.stale[l]], l)
  {
    RunKeeps(states, moves, n);
    var s := states[n];
    var mem := s.mem;
    assert RecOK(mem.disk, mem.ix, o);
    forall j | 0 <= j < LISTS && o in mem.ix.lists[j] ensures mem.ix.owner[o] == On(j) {
      assert Members(mem.disk.recs, mem.ix, j);
    }
    forall l | l in mem.stale ensures mem.stale[l] in s.hs && BothLocks(s.hs[mem.stale[l]], l) {
      var x := mem.stale[l];
      assert AtStale(s.hs[x], l) && Local(mem, x, s.hs[x]);
      PendLocks(mem, x, s.hs[x]);
    }
  }

  lemma NothingOpen(mem: Mem, hs: map<nat, Hd>)
    requires Accounted(mem, hs) && forall h :: h in hs ==> !HasChain(hs[h])
    ensures mem.stale == map[] && mem.pend == map[] && DbSteps.Whole(mem.ix)
  {
    forall h | h in hs ensures forall l, key, o :: !AtStale(hs[h], l) && !AtPend(hs[h], key) && !Owns(hs[h], o) {
      BusyHasChain(hs[h]);
    }
    assert mem.stale.Keys == {};
    assert mem.pend.Keys == {};
  }

  lemma BusyHasChain(hd: Hd)
    ensures forall l :: AtStale(hd, l) ==> HasChain(hd)
    ensures forall key :: AtPend(hd, key) ==> HasChain(hd)
    ensures forall o :: Owns(hd, o) ==> HasChain(hd)
  {
  }

  lemma QuietReads(mem: Mem)
    requires Shared(mem) && mem.stale == map[] && mem.pend == map[]
    ensures WF(mem.disk, mem.ix, {}) && DbSteps.Reads(mem.disk, mem.ix, mem.m)
  {
    assert mem.stale.Keys == {};
    forall key ensures (key in mem.m <==> key in mem.ix.at) && (key in mem.ix.at ==> KeyAgrees(mem, key)) {
      assert key !in mem.pend;
      assert KeyAgrees(mem, key);
    }
    assert mem.m.Keys == mem.ix.at.Keys;
  }

  // ---------- who can be at work together ----------

  /** On one chain, only fetches are at work together; on the free list, at the end of the data, one handle. */
  lemma AtWorkAlone(states: seq<Sys>, moves: seq<Move>, n: nat, x: nat, y: nat)
    requires IsRun(states, moves) && n <= |moves| && x in states[n].hs && y in states[n].hs && x != y
    ensures var a, b := states[n].hs[x], states[n].hs[y];
            && (a.pc.Head? || a.pc.At? || a.pc.Body? || a.pc.Hit? || a.pc.D4? || a.pc.Link? || a.pc.Done? ==>
                 b.pc.Head? || b.pc.At? || b.pc.Body? || b.pc.Hit? || b.pc.D4? || b.pc.Link? || b.pc.Done? ==>
                 Hash(a.op.key) == Hash(b.op.key) ==> a.op.Fetch? && b.op.Fetch?)
            && (a.pc.D1? || a.pc.D2? || a.pc.D3? || a.pc.FAt? || a.pc.FTake? ==>
                 !b.pc.D1? && !b.pc.D2? && !b.pc.D3? && !b.pc.FAt? && !b.pc.FTake?)
            && (a.pc.AWrite? ==> !b.pc.AWrite?)
  {
    RunExclusive(states, moves, n);
  }

  lemma {:induction false} RunExclusive(states: seq<Sys>, moves: seq<Move>, n: nat)
    requires IsRun(states, moves) && n <= |moves|
    ensures Exclusive(states[n].hs)
  {
    if n > 0 { assert Reaches(states[n - 1], moves[n - 1], states[n]); }
  }

  /** Two handles on an empty database, their operations begun before anything was logged. */
  ghost function Pair(p: Pc, a: Op, q: Pc, b: Op): Sys {
    Sys(Mem(EmptyDisk(), 0, HEADER, NoIndex(), map[], map[], map[], []), Db.None,
        map[0 := Hd(p, a, 0), 1 := Hd(q, b, 0)])
  }

  lemma PairBegins(a: Op, b: Op)
    requires SEP !in a.key && SEP !in b.key
    ensures Reaches(Pair(Idle, a, Idle, b), Begin(0, a), Pair(Want, a, Idle, b))
    ensures Reaches(Pair(Want, a, Idle, b), Begin(1, b), Pair(Want, a, Want, b))
  {
    assert Pair(Idle, a, Idle, b).hs[0 := Hd(Want, a, 0)] == Pair(Want, a, Idle, b).hs;
    assert Pair(Want, a, Idle, b).hs[1 := Hd(Want, b, 0)] == Pair(Want, a, Want, b).hs;
  }

  lemma WantLocks(mem: Mem, h: nat, op: Op)
    requires op.Store? ==> Db.ValidFlag(op.flag)
    ensures Next(mem, h, op, Want) == (mem, Head)
  {
  }

  lemma PairFirst(a: Op, b: Op)
    requires a.Store? ==> Db.ValidFlag(a.flag)
    ensures Reaches(Pair(Want, a, Want, b), Go(0, true), Pair(Head, a, Want, b))
  {
    hide Next, ListOf;
    WantLocks(Pair(Want, a, Want, b).mem, 0, a);
    assert Pair(Want, a, Want, b).hs[0 := Hd(Head, a, 0)] == Pair(Head, a, Want, b).hs;
  }

  lemma PairSecond(a: Op, b: Op)
    requires b.Store? ==> Db.ValidFlag(b.flag)
    requires Hash(a.key) != Hash(b.key) || (a.Fetch? && b.Fetch?)
    ensures Reaches(Pair(Head, a, Want, b), Go(1, true), Pair(Head, a, Head, b))
  {
    hide Next, Hash;
    WantLocks(Pair(Head, a, Want, b).mem, 1, b);
    assert Pair(Head, a, Want, b).hs[1 := Hd(Head, b, 0)] == Pair(Head, a, Head, b).hs;
  }

  /** Handles on different chains, and fetches on the same one, are at work together in some run. */
  lemma TogetherAtWork(a: Op, b: Op)
    requires SEP !in a.key && SEP !in b.key
    requires (a.Store? ==> Db.ValidFlag(a.flag)) && (b.Store? ==> Db.ValidFlag(b.flag))
    requires Hash(a.key) != Hash(b.key) || (a.Fetch? && b.Fetch?)
    ensures exists states: seq<Sys>, moves: seq<Move> ::
              && IsRun(states, moves) && |moves| == 4
              && states[4].hs == map[0 := Hd(Head, a, 0), 1 := Hd(Head, b, 0)]
  {
    PairBegins(a, b);
    PairFirst(a, b);
    PairSecond(a, b);
    assert Initial(Pair(Idle, a, Idle, b));
    var states := [Pair(Idle, a, Idle, b), Pair(Want, a, Idle, b), Pair(Want, a, Want, b), Pair(Head, a, Want, b),
                   Pair(Head, a, Head, b)];
    var moves := [Begin(0, a), Begin(1, b), Go(0, true), Go(1, true)];
    RunOfFour(states, moves);
    assert states[4].hs == map[0 := Hd(Head, a, 0), 1 := Hd(Head, b, 0)];
  }

  lemma RunOfFour(states: seq<Sys>, moves: seq<Move>)
    requires |states| == 5 && |moves| == 4 && Initial(states[0])
    requires Reaches(states[0], moves[0], states[1]) && Reaches(states[1], moves[1], states[2])
    requires Reaches(states[2], moves[2], states[3]) && Reaches(states[3], moves[3], states[4])
    ensures IsRun(states, moves)
  {
    hide Initial, Reaches;
  }
}
