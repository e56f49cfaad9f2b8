/**
 The history of a run: which operations the handles began, which have taken effect, and
 in what order.
*/
module DbLocksHistory {
  import opened DbFormat
  import opened DbDisk
  import opened DbIndex
  import opened DbLocks
  import opened DbLocksInv
  import opened DbLocksProof
  import opened DbLocksRuns

  /** The operations handle h has begun in the first n moves, in order. */
  function Begun(moves: seq<Move>, n: nat, h: nat): seq<Op>
    requires n <= |moves|
  {
    if n == 0 then []
    else
      match moves[n - 1]
      case Begin(x, op) => Begun(moves, n - 1, h) + (if x == h then [op] else [])
      case Go(_, _) => Begun(moves, n - 1, h)
  }

  /** The operations of handle h that have taken effect, in order. */
  function Effects(log: seq<Entry>, h: nat): seq<Op> {
    if log == [] then []
    else
      var last := log[|log| - 1];
      Effects(log[..|log| - 1], h) + (if last.handle == h then [last.op] else [])
  }

  /** The operation a handle is in has taken effect: it has a place in the log. */
  predicate Effective(pc: Pc) {
    match pc
    case D1(_, _, _, _, _, _, _) => true
    case D2(_, _, _, _, _, _, _, _) => true
    case D3(_, _, _, _, _) => true
    case D4(_, _, _, _, _) => true
    case D5(_) => true
    case NewHead(rep, _) => rep
    case ALock(_, rep, _) => rep
    case ASeek(_, rep, _) => rep
    case AWrite(_, _, rep, _) => rep
    case AUnlock(_, _, rep, _) => rep
    case XLock(_, _, rep, _) => rep
    case XSeek(_, _, rep, _) => rep
    case XWrite(_, _, _, rep, _) => rep
    case XUnlock(_, rep, _) => rep
    case Link(_, rep, _) => rep
    case Done(_) => true
    case Ret(_) => true
    case _ => false
  }

  /** The handle is in an operation that has not taken effect. */
  predicate UnderWay(hd: Hd) { !hd.pc.Idle? && !Effective(hd.pc) }

  /** All of them but the last, if that one is still to take effect. */
  function Effected(begun: seq<Op>, hd: Hd): seq<Op> {
    if UnderWay(hd) && begun != [] then begun[..|begun| - 1] else begun
  }

  /** The log has the operations handle h has begun, each once and in order, but for one still to take effect. */
  ghost predicate History(mem: Mem, hs: map<nat, Hd>, begun: seq<Op>, h: nat)
    requires h in hs
  {
    var hd := hs[h];
    && Effects(mem.log, h) == Effected(begun, hd)
    && (!hd.pc.Idle? ==> begun != [] && begun[|begun| - 1] == hd.op && hd.start <= |mem.log|)
    && (UnderWay(hd) ==> forall j :: hd.start <= j < |mem.log| ==> mem.log[j].handle != h)
    && (Effective(hd.pc) ==>
         && hd.start <= hd.pc.i < |mem.log| && mem.log[hd.pc.i].handle == h
         && forall j :: hd.start <= j < |mem.log| && mem.log[j].handle == h ==> j == hd.pc.i)
  }

  ghost predicate KnownHandles(log: seq<Entry>, hs: map<nat, Hd>) {
    forall j :: 0 <= j < |log| ==> log[j].handle in hs
  }

  /** The move adds at most one entry, of its own handle and operation, and just when that takes effect. */
  ghost predicate LogStep(log: seq<Entry>, h: nat, hd: Hd, log': seq<Entry>, pc': Pc) {
    if UnderWay(hd) && Effective(pc') then
      && |log'| == |log| + 1 && log'[..|log|] == log
      && log'[|log|].handle == h && log'[|log|].op == hd.op && pc'.i == |log|
    else
      && log' == log && (UnderWay(hd) ==> !pc'.Idle?)
      && (Effective(hd.pc) ==> pc'.Idle? || (Effective(pc') && pc'.i == hd.pc.i))
  }

  ghost predicate Logs(mem: Mem, h: nat, hd: Hd) {
    LogStep(mem.log, h, hd, Mem1(mem, h, hd).log, Hd1(mem, h, hd).pc)
  }

  lemma SearchLogs(mem: Mem, h: nat, hd: Hd)
    requires hd.pc.Want? || hd.pc.Head? || hd.pc.At? || hd.pc.Body? || hd.pc.Hit?
    requires !Hd1(mem, h, hd).pc.Crash?
    ensures Logs(mem, h, hd)
  {
    hide DeleteMove, FreeMove, WriteMove, IsCell, PtrAt, SetExt, Spec, Chain;
  }

  lemma DeleteLogs(mem: Mem, h: nat, hd: Hd)
    requires InDelete(hd.pc) && !Hd1(mem, h, hd).pc.Crash?
    ensures Logs(mem, h, hd)
  {
    hide SearchMove, HitMove, FreeMove, WriteMove, IsCell, PtrAt, SetExt, SetRec, SetPtr, Take, Put, Spec;
  }

  lemma FreeLogs(mem: Mem, h: nat, hd: Hd)
    requires hd.pc.FWant? || hd.pc.FHead? || hd.pc.FAt? || hd.pc.FBody? || hd.pc.FTake? || hd.pc.FOut?
    requires !Hd1(mem, h, hd).pc.Crash?
    ensures Logs(mem, h, hd)
  {
    hide SearchMove, HitMove, DeleteMove, WriteMove, IsCell, PtrAt, SetPtr, Take, Spec;
  }

  lemma WriteLogs(mem: Mem, h: nat, hd: Hd)
    requires (InAppend(hd.pc) && !hd.pc.Link?) || hd.pc.RDat? || hd.pc.RIdx?
    requires !Hd1(mem, h, hd).pc.Crash?
    ensures Logs(mem, h, hd)
  {
    hide SearchMove, HitMove, DeleteMove, FreeMove, IsCell, PtrAt, SetRec, SetExt, Spec, Chain, Size, RecordLinked;
  }

  lemma LinkLogs(mem: Mem, h: nat, hd: Hd)
    requires hd.pc.Link? && !Hd1(mem, h, hd).pc.Crash?
    ensures Logs(mem, h, hd)
  {
    hide SearchMove, HitMove, DeleteMove, FreeMove, IsCell, SetPtr, Spec, Chain, PutAt;
  }

  lemma MoveLogs(mem: Mem, h: nat, hd: Hd)
    requires !hd.pc.Idle? && !Hd1(mem, h, hd).pc.Crash?
    ensures Logs(mem, h, hd)
  {
    hide SearchMove, HitMove, DeleteMove, FreeMove, WriteMove, Logs;
    if hd.pc.Want? || hd.pc.Head? || InSearch(hd.pc) {
      SearchLogs(mem, h, hd);
    } else if InDelete(hd.pc) {
      DeleteLogs(mem, h, hd);
    } else if hd.pc.Link? {
      LinkLogs(mem, h, hd);
    } else if InAppend(hd.pc) || hd.pc.RDat? || hd.pc.RIdx? {
      WriteLogs(mem, h, hd);
    } else if InFree(hd.pc) {
      FreeLogs(mem, h, hd);
    } else {
      EndLogs(mem, h, hd);
    }
  }

  lemma EndLogs(mem: Mem, h: nat, hd: Hd)
    requires hd.pc.Done? || hd.pc.Ret? || hd.pc.Crash?
    requires !Hd1(mem, h, hd).pc.Crash?
    ensures Logs(mem, h, hd)
  {
  }

  // ---------- whole runs ----------

  lemma EffectsMore(log: seq<Entry>, e: Entry, h: nat)
    ensures Effects(log + [e], h) == Effects(log, h) + if e.handle == h then [e.op] else []
  {
    assert (log + [e])[..|log|] == log;
  }

  /** The handle's own move. */
  lemma OwnHistory(mem: Mem, hs: map<nat, Hd>, begun: seq<Op>, h: nat, b: Mem, hd': Hd)
    requires h in hs && History(mem, hs, begun, h) && !hs[h].pc.Idle?
    requires LogStep(mem.log, h, hs[h], b.log, hd'.pc) && hd' == hs[h].(pc := hd'.pc)
    ensures History(b, hs[h := hd'], begun, h)
  {
    if UnderWay(hs[h]) && Effective(hd'.pc) {
      var e := b.log[|mem.log|];
      assert b.log == mem.log + [e];
      EffectsMore(mem.log, e, h);
      assert begun == begun[..|begun| - 1] + [begun[|begun| - 1]];
    }
  }

  /** Another handle's move. */
  lemma OtherHistory(mem: Mem, hs: map<nat, Hd>, begun: seq<Op>, h: nat, x: nat, b: Mem, hd': Hd)
    requires h in hs && x in hs && x != h && History(mem, hs, begun, x)
    requires LogStep(mem.log, h, hs[h], b.log, hd'.pc)
    ensures History(b, hs[h := hd'], begun, x)
  {
    if UnderWay(hs[h]) && Effective(hd'.pc) {
      var e := b.log[|mem.log|];
      assert b.log == mem.log + [e];
      EffectsMore(mem.log, e, x);
    }
  }

  lemma BeginHistory(s: Sys, h: nat, op: Op, begun: seq<Op>, x: nat)
    requires h in s.hs && s.hs[h].pc.Idle? && x in s.hs && History(s.mem, s.hs, begun, x)
    ensures History(s.mem, Do(s, Begin(h, op)).hs, begun + (if x == h then [op] else []), x)
  {
    hide History;
    var hs' := Do(s, Begin(h, op)).hs;
    if x == h {
      NewOperation(s.mem, s.hs, begun, h, op);
    } else {
      SameHistory(s.mem, s.hs, hs', begun, x);
    }
  }

  lemma NewOperation(mem: Mem, hs: map<nat, Hd>, begun: seq<Op>, h: nat, op: Op)
    requires h in hs && hs[h].pc.Idle? && History(mem, hs, begun, h)
    ensures History(mem, hs[h := Hd(Want, op, |mem.log|)], begun + [op], h)
  {
    assert (begun + [op])[..|begun|] == begun;
  }

  lemma SameHistory(mem: Mem, hs: map<nat, Hd>, hs': map<nat, Hd>, begun: seq<Op>, x: nat)
    requires x in hs && x in hs' && hs'[x] == hs[x] && History(mem, hs, begun, x)
    ensures History(mem, hs', begun + [], x)
  {
    assert begun + [] == begun;
  }

  lemma GoHistory(s: Sys, h: nat, keep: bool, begun: seq<Op>, x: nat)
    requires h in s.hs && !s.hs[h].pc.Idle? && x in s.hs && History(s.mem, s.hs, begun, x)
    requires !Hd1(s.mem, h, s.hs[h]).pc.Crash?
    ensures History(Do(s, Go(h, keep)).mem, Do(s, Go(h, keep)).hs, begun, x)
    ensures KnownHandles(s.mem.log, s.hs) ==> KnownHandles(Do(s, Go(h, keep)).mem.log, Do(s, Go(h, keep)).hs)
  {
    hide Next, History, Exclusive;
    var b, hd' := Mem1(s.mem, h, s.hs[h]), Hd1(s.mem, h, s.hs[h]);
    MoveLogs(s.mem, h, s.hs[h]);
    assert Do(s, Go(h, keep)).mem == b && Do(s, Go(h, keep)).hs == s.hs[h := hd'];
    if x == h {
      OwnHistory(s.mem, s.hs, begun, x, b, hd');
    } else {
      OtherHistory(s.mem, s.hs, begun, h, x, b, hd');
    }
    KnownAgain(s.mem.log, b.log, s.hs, h, s.hs[h], hd');
  }

  lemma KnownAgain(log: seq<Entry>, log': seq<Entry>, hs: map<nat, Hd>, h: nat, hd: Hd, hd': Hd)
    requires h in hs && LogStep(log, h, hd, log', hd'.pc)
    ensures KnownHandles(log, hs) ==> KnownHandles(log', hs[h := hd'])
  {
    if UnderWay(hd) && Effective(hd'.pc) {
      assert log' == log + [log'[|log|]];
    }
  }

  /** What a move begins for handle x. */
  function News(mv: Move, x: nat): seq<Op> { if mv.Begin? && mv.handle == x then [mv.op] else [] }

  lemma BegunMore(moves: seq<Move>, n: nat, x: nat)
    requires 0 < n <= |moves|
    ensures Begun(moves, n, x) == Begun(moves, n - 1, x) + News(moves[n - 1], x)
  {
    assert Begun(moves, n - 1, x) + [] == Begun(moves, n - 1, x);
  }

  /** History after a move, from history before it. */
  lemma MoveHistory(s: Sys, mv: Move, begun: seq<Op>, x: nat)
    requires Can(s, mv) && x in s.hs && History(s.mem, s.hs, begun, x) && KnownHandles(s.mem.log, s.hs)
    requires mv.Go? ==> !Hd1(s.mem, mv.handle, s.hs[mv.handle]).pc.Crash?
    ensures var s' := Do(s, mv);
            && x in s'.hs && KnownHandles(s'.mem.log, s'.hs)
            && History(s'.mem, s'.hs, begun + News(mv, x), x)
  {
    hide History, KnownHandles, Next;
    match mv
    case Begin(h, op) =>
      BeginHistory(s, h, op, begun, x);
      KnownStill(s, Do(s, mv));
    case Go(h, keep) =>
      GoHistory(s, h, keep, begun, x);
      assert begun + [] == begun;
  }

  /** A move makes no handle known or unknown, and stops none. */
  lemma Reached(states: seq<Sys>, moves: seq<Move>, n: nat)
    requires IsRun(states, moves) && 0 < n <= |moves|
    ensures var s, mv := states[n - 1], moves[n - 1];
            && Can(s, mv) && states[n] == Do(s, mv) && states[n].hs.Keys == s.hs.Keys
            && (mv.Go? ==> !Hd1(s.mem, mv.handle, s.hs[mv.handle]).pc.Crash?)
  {
    hide Next, Initial, Exclusive;
    assert Reaches(states[n - 1], moves[n - 1], states[n]);
    if moves[n - 1].Go? { NoCrash(states, moves, n, moves[n - 1].handle); }
  }

  lemma {:induction false} RunHistory(states: seq<Sys>, moves: seq<Move>, n: nat, x: nat)
    requires IsRun(states, moves) && n <= |moves| && x in states[n].hs
    ensures History(states[n].mem, states[n].hs, Begun(moves, n, x), x)
    ensures KnownHandles(states[n].mem.log, states[n].hs)
  {
    if n == 0 {
      FirstHistory(states[0], x);
    } else {
      hide *;
      hide History, KnownHandles, Can, Do, Begun, News;
      Reached(states, moves, n);
      assert x in states[n - 1].hs.Keys;
      RunHistory(states, moves, n - 1, x);
      BegunMore(moves, n, x);
      MoveHistory(states[n - 1], moves[n - 1], Begun(moves, n - 1, x), x);
    }
  }

  lemma FirstHistory(s: Sys, x: nat)
    requires Initial(s) && x in s.hs
    ensures History(s.mem, s.hs, [], x) && KnownHandles(s.mem.log, s.hs)
  {
  }

  lemma KnownStill(s: Sys, s': Sys)
    requires KnownHandles(s.mem.log, s.hs) && s'.mem.log == s.mem.log && s.hs.Keys <= s'.hs.Keys
    ensures KnownHandles(s'.mem.log, s'.hs)
  {
  }

  lemma NoCrash(states: seq<Sys>, moves: seq<Move>, n: nat, h: nat)
    requires IsRun(states, moves) && n <= |moves| && h in states[n].hs
    ensures !states[n].hs[h].pc.Crash?
  {
    RunKeeps(states, moves, n);
    assert Local(states[n].mem, h, states[n].hs[h]);
  }

  /**
   Operations take effect one at a time, each once, between its beginning and its end. The
   log lists them in that order. The map is the one the log builds up, and every outcome in
   the log is the one that map calls for. For each handle the log has exactly the operations
   it began, in the order it began them, except the last while that has not taken effect.
   An operation's place is behind everything logged before it began, and the log has no
   entries but those of the handles. No handle is ever stopped by an unreadable record.
  */
  lemma Linearizable(states: seq<Sys>, moves: seq<Move>, n: nat, h: nat)
    requires IsRun(states, moves) && n <= |moves| && h in states[n].hs
    ensures var mem, hd := states[n].mem, states[n].hs[h];
            && mem.m == Replay(mem.log) && Legal(mem.log) && KnownHandles(mem.log, states[n].hs) && !hd.pc.Crash?
            && Effects(mem.log, h) == Effected(Begun(moves, n, h), hd)
            && (hd.pc.Idle? ==> Effects(mem.log, h) == Begun(moves, n, h))
            && (UnderWay(hd) ==> forall j :: hd.start <= j < |mem.log| ==> mem.log[j].handle != h)
            && (Effective(hd.pc) ==>
                 && hd.start <= hd.pc.i < |mem.log| && mem.log[hd.pc.i].handle == h && mem.log[hd.pc.i].op == hd.op
                 && forall j :: hd.start <= j < |mem.log| && mem.log[j].handle == h ==> j == hd.pc.i)
  {
    RunKeeps(states, moves, n);
    NoCrash(states, moves, n, h);
    RunHistory(states, moves, n, h);
    assert Local(states[n].mem, h, states[n].hs[h]);
  }
}
