/**
 Many handles on one database at once. A handle's operation is a sequence of moves,
 each one system call: taking or giving back a lock, reading or writing a pointer,
 an index record or a datum, or finding the end of a file. The moves of different
 handles interleave in any order the locks allow.
*/
module DbLocks {
  import opened DbFormat
  import opened DbDisk
  import opened DbIndex
  import opened DbSteps
  import Db

  datatype Op = Fetch(key: string) | Delete(key: string) | Store(key: string, data: string, flag: int)
  datatype Res = Val(val: Db.Option<string>) | Code(rc: int)

  /** One finished operation: who, what, and the outcome. */
  datatype Entry = Entry(handle: nat, op: Op, res: Res)

  /** What an operation does to the string map, and its outcome, when nobody interferes. */
  function Spec(m: map<string, string>, op: Op): (map<string, string>, Res) {
    match op
    case Fetch(key) => (m, Val(if key in m then Db.Some(m[key]) else Db.None))
    case Delete(key) => (m - {key}, Code(if key in m then 0 else -1))
    case Store(key, data, flag) => var (m', rc) := Db.StoreSpec(m, key, data, flag); (m', Code(rc))
  }

  /** The map after a series of operations, one at a time, from an empty database. */
  function Replay(log: seq<Entry>): map<string, string> {
    if log == [] then map[] else Spec(Replay(log[..|log| - 1]), log[|log| - 1].op).0
  }

  /** Every outcome in the series is the one the map at that moment calls for. */
  ghost predicate Legal(log: seq<Entry>) {
    forall i :: 0 <= i < |log| ==> log[i].res == Spec(Replay(log[..i]), log[i].op).1
  }

  /**
   Where a handle is in its operation, with the values it keeps. Ghost k is the position
   on the list being walked. rep says that a store has already deleted the old record.
  */
  datatype Pc =
    | Idle
    | Want                                                        // about to lock its chain
    | Head                                                        // about to read the chain's head
    | At(k: nat, ptroff: nat, offset: nat)                        // about to read a record's header
    | Body(k: nat, ptroff: nat, offset: nat, next: nat)           // about to read the record's line
    | Hit(k: nat, ptroff: nat, o: nat, next: nat, datoff: nat, datlen: nat)
    // free list locked: about to blank the data
    | D0(k: nat, ptroff: nat, o: nat, next: nat, datoff: nat, datlen: nat)
    | D1(k: nat, ptroff: nat, o: nat, next: nat, datoff: nat, datlen: nat, i: nat) // about to read the free list's head
    // about to blank the record
    | D2(k: nat, ptroff: nat, o: nat, next: nat, datoff: nat, datlen: nat, free: nat, i: nat)
    | D3(k: nat, ptroff: nat, o: nat, next: nat, i: nat)          // about to make it the first free record
    | D4(k: nat, ptroff: nat, o: nat, next: nat, i: nat)          // about to close the chain behind it
    | D5(i: nat)                                                  // about to unlock the free list
    | NewHead(rep: bool, i: nat)                                  // about to read the chain's head again
    | FWant(next: nat)                                            // about to lock the free list
    | FHead(next: nat)
    | FAt(next: nat, k: nat, save: nat, offset: nat)
    | FBody(next: nat, k: nat, save: nat, offset: nat, fnext: nat)
    | FTake(next: nat, k: nat, save: nat, o: nat, fnext: nat, datoff: nat)   // about to unlink a fitting record
    | FOut(next: nat, o: nat, datoff: nat)                        // about to unlock the free list
    | RDat(next: nat, o: nat, datoff: nat)                        // about to write the data in place
    | RIdx(next: nat, o: nat, datoff: nat)                        // about to write the record in place
    | ALock(next: nat, rep: bool, i: nat)                         // about to lock the data file
    | ASeek(next: nat, rep: bool, i: nat)                         // about to find its end
    | AWrite(next: nat, e: nat, rep: bool, i: nat)                // about to append the data
    | AUnlock(next: nat, e: nat, rep: bool, i: nat)
    | XLock(next: nat, e: nat, rep: bool, i: nat)                 // about to lock the record area
    | XSeek(next: nat, e: nat, rep: bool, i: nat)
    | XWrite(next: nat, e: nat, o: nat, rep: bool, i: nat)        // about to append the record
    | XUnlock(o: nat, rep: bool, i: nat)
    | Link(o: nat, rep: bool, i: nat)                             // about to make it first of its chain
    | Done(i: nat)                                                // about to unlock the chain
    | Ret(i: nat)
    | Crash                                                       // the program stopped on an error

  /** A handle: its place, its operation, and how long the log was when that began. */
  datatype Hd = Hd(pc: Pc, op: Op, start: nat)

  /**
   The shared state. disk and the two file ends are real; the rest is for the proof:
   list structure, the string map, which handle has a chain open or a key in the making,
   and the log of finished operations in the order in which they took effect.
  */
  datatype Mem = Mem(disk: Disk, datEnd: nat, idxEnd: nat, ix: Index, m: map<string, string>,
                     stale: map<nat, nat>, pend: map<string, nat>, log: seq<Entry>)

  datatype Sys = Sys(mem: Mem, app: Db.Option<nat>, hs: map<nat, Hd>)

  // ---------- locks ----------

  predicate HasChain(hd: Hd) { !hd.pc.Idle? && !hd.pc.Want? && !hd.pc.Ret? && !hd.pc.Crash? }

  predicate HasFree(pc: Pc) {
    pc.D0? || pc.D1? || pc.D2? || pc.D3? || pc.D4? || pc.D5? || pc.FHead? || pc.FAt? || pc.FBody? || pc.FTake?
    || pc.FOut?
  }

  predicate HasDat(pc: Pc) { pc.ASeek? || pc.AWrite? || pc.AUnlock? }

  predicate HasApp(pc: Pc) { pc.XSeek? || pc.XWrite? || pc.XUnlock? }

  /** Two handles that may not both hold the locks they hold: same chain, not both for reading. */
  predicate Conflict(a: Hd, b: Hd) {
    || (HasChain(a) && HasChain(b) && ListOf(a.op.key) == ListOf(b.op.key) && !(a.op.Fetch? && b.op.Fetch?))
    || (HasFree(a.pc) && HasFree(b.pc))
    || (HasDat(a.pc) && HasDat(b.pc))
  }

  // ---------- moves ----------

  ghost function Took(mem: Mem, h: nat, op: Op, res: Res): Mem {
    mem.(m := Spec(mem.m, op).0, log := mem.log + [Entry(h, op, res)])
  }

  ghost function Chain(op: Op): nat { PTR_SZ * ListOf(op.key) }

  /** The search for the key. */
  ghost function SearchMove(mem: Mem, h: nat, op: Op, pc: Pc): (Mem, Pc)
    requires pc.Want? || pc.Head? || pc.At? || pc.Body?
  {
    var d := mem.disk;
    match pc
    case Want =>
      if op.Store? && !Db.ValidFlag(op.flag) then (Took(mem, h, op, Code(-1)), Ret(|mem.log|)) else (mem, Head)
    case Head => (mem, if IsCell(d, Chain(op)) then At(0, Chain(op), PtrAt(d, Chain(op))) else Crash)
    case At(k, ptroff, offset) =>
      if offset == 0 then
        match op {
          case Fetch(_) => (Took(mem, h, op, Val(Db.None)), Done(|mem.log|))
          case Delete(_) => (Took(mem, h, op, Code(-1)), Done(|mem.log|))
          case Store(_, _, flag) =>
            if flag == Db.DB_REPLACE then (Took(mem, h, op, Code(-1)), Done(|mem.log|)) else (mem, NewHead(false, 0))
        }
      else if offset in d.recs then (mem, Body(k, ptroff, offset, d.recs[offset].next)) else (mem, Crash)
    case Body(k, ptroff, offset, next) =>
      if offset !in d.recs then (mem, Crash)
      else if d.recs[offset].key == op.key then
        (mem, Hit(k, ptroff, offset, next, d.recs[offset].datoff, d.recs[offset].datlen))
      else (mem, At(k + 1, offset, next))
  }

  /** The record was found. */
  ghost function HitMove(mem: Mem, h: nat, op: Op, pc: Pc): (Mem, Pc)
    requires pc.Hit?
  {
    var d := mem.disk;
    var del := D0(pc.k, pc.ptroff, pc.o, pc.next, pc.datoff, pc.datlen);
    match op
    case Fetch(_) =>
      if pc.datoff in d.ext then (Took(mem, h, op, Val(Db.Some(d.ext[pc.datoff]))), Done(|mem.log|)) else (mem, Crash)
    case Delete(_) => (mem, del)
    case Store(_, data, flag) =>
      if flag == Db.DB_INSERT then (Took(mem, h, op, Code(1)), Done(|mem.log|))
      else if |data| + 1 != pc.datlen then (mem, del)
      else (Overwritten(mem, h, op, pc.datoff), Done(|mem.log|))
  }

  // ---------- what the writes do to the shared state ----------

  ghost function Overwritten(mem: Mem, h: nat, op: Op, datoff: nat): Mem
    requires op.Store?
  {
    Took(mem.(disk := SetExt(mem.disk, datoff, op.data)), h, op, Code(0))
  }

  ghost function DataBlanked(mem: Mem, h: nat, op: Op, datoff: nat, datlen: nat): Mem
    requires datlen >= 1
  {
    Took(mem.(disk := SetExt(mem.disk, datoff, Spaces(datlen - 1)), pend := mem.pend[op.key := h]), h, op, Code(0))
  }

  ghost function RecordErased(mem: Mem, h: nat, op: Op, k: nat, o: nat, r: Rec): Mem
    requires var l := ListOf(op.key); l < |mem.ix.lists| && k < |mem.ix.lists[l]|
  {
    mem.(disk := SetRec(mem.disk, o, r),
         ix := Take(mem.ix, ListOf(op.key), k, h).(at := mem.ix.at - {op.key}),
         stale := mem.stale[ListOf(op.key) := h],
         pend := if op.Delete? then mem.pend - {op.key} else mem.pend)
  }

  ghost function RecordFreed(mem: Mem, o: nat): Mem
    requires IsCell(mem.disk, FREE_OFF) && |mem.ix.lists| > 0
  {
    mem.(disk := SetPtr(mem.disk, FREE_OFF, o), ix := Put(mem.ix, 0, o))
  }

  ghost function ChainClosed(mem: Mem, op: Op, cell: nat, next: nat): Mem
    requires IsCell(mem.disk, cell)
  {
    mem.(disk := SetPtr(mem.disk, cell, next), stale := mem.stale - {ListOf(op.key)})
  }

  ghost function FreeTaken(mem: Mem, h: nat, k: nat, cell: nat, next: nat): Mem
    requires IsCell(mem.disk, cell) && |mem.ix.lists| > 0 && k < |mem.ix.lists[0]|
  {
    mem.(disk := SetPtr(mem.disk, cell, next), ix := Take(mem.ix, 0, k, h))
  }

  ghost function DataAppended(mem: Mem, op: Op, e: nat): Mem
    requires op.Store?
  {
    mem.(disk := SetExt(mem.disk, e, op.data), datEnd := e + |op.data| + 1)
  }

  ghost function RecordAppended(mem: Mem, h: nat, o: nat, r: Rec): Mem {
    mem.(disk := SetRec(mem.disk, o, r), idxEnd := o + Size(r), ix := mem.ix.(owner := mem.ix.owner[o := Held(h)]))
  }

  ghost function RecordLinked(mem: Mem, op: Op, o: nat): Mem
    requires IsCell(mem.disk, Chain(op)) && ListOf(op.key) < |mem.ix.lists| && o in mem.disk.recs
  {
    mem.(disk := SetPtr(mem.disk, Chain(op), o), ix := PutAt(mem.disk, mem.ix, ListOf(op.key), o),
         pend := mem.pend - {op.key})
  }

  // ---------- moves ----------

  /** Deleting the record found, under the lock of the free list. */
  ghost function DeleteMove(mem: Mem, h: nat, op: Op, pc: Pc): (Mem, Pc)
    requires pc.D0? || pc.D1? || pc.D2? || pc.D3? || pc.D4? || pc.D5?
  {
    var d := mem.disk;
    match pc
    case D0(k, ptroff, o, next, datoff, datlen) =>
      if datlen < 1 then (mem, Crash) else
      (DataBlanked(mem, h, op, datoff, datlen), D1(k, ptroff, o, next, datoff, datlen, |mem.log|))
    case D1(k, ptroff, o, next, datoff, datlen, i) =>
      (mem, if IsCell(d, FREE_OFF) then D2(k, ptroff, o, next, datoff, datlen, PtrAt(d, FREE_OFF), i) else Crash)
    case D2(k, ptroff, o, next, datoff, datlen, free, i) =>
      var l := ListOf(op.key);
      if l < |mem.ix.lists| && k < |mem.ix.lists[l]| then
        (RecordErased(mem, h, op, k, o, Rec(free, Spaces(|op.key|), datoff, datlen)), D3(k, ptroff, o, next, i))
      else (mem, Crash)
    case D3(k, ptroff, o, next, i) =>
      if IsCell(d, FREE_OFF) && |mem.ix.lists| > 0 then
        (RecordFreed(mem, o), D4(k, ptroff, o, next, i))
      else (mem, Crash)
    case D4(k, ptroff, o, next, i) =>
      if IsCell(d, ptroff) then
        (ChainClosed(mem, op, ptroff, next), D5(i))
      else (mem, Crash)
    case D5(i) => (mem, if op.Store? then NewHead(true, i) else Done(i))
  }

  /** Looking for a free record that fits. */
  ghost function FreeMove(mem: Mem, h: nat, op: Op, pc: Pc): (Mem, Pc)
    requires op.Store?
    requires pc.FWant? || pc.FHead? || pc.FAt? || pc.FBody? || pc.FTake? || pc.FOut?
  {
    var d := mem.disk;
    match pc
    case FWant(next) => (mem, FHead(next))
    case FHead(next) => (mem, if IsCell(d, FREE_OFF) then FAt(next, 0, FREE_OFF, PtrAt(d, FREE_OFF)) else Crash)
    case FAt(next, k, save, offset) =>
      if offset == 0 then (mem, ALock(next, false, 0))
      else if offset in d.recs then (mem, FBody(next, k, save, offset, d.recs[offset].next)) else (mem, Crash)
    case FBody(next, k, save, offset, fnext) =>
      if offset !in d.recs then (mem, Crash)
      else if |d.recs[offset].key| == |op.key| && d.recs[offset].datlen == |op.data| + 1 then
        (mem, FTake(next, k, save, offset, fnext, d.recs[offset].datoff))
      else (mem, FAt(next, k + 1, offset, fnext))
    case FTake(next, k, save, o, fnext, datoff) =>
      if IsCell(d, save) && |mem.ix.lists| > 0 && k < |mem.ix.lists[0]| then
        (FreeTaken(mem, h, k, save, fnext), FOut(next, o, datoff))
      else (mem, Crash)
    case FOut(next, o, datoff) => (mem, RDat(next, o, datoff))
  }

  /** Writing the new record, in place or at the ends of the files, and linking it. */
  ghost function WriteMove(mem: Mem, h: nat, op: Op, pc: Pc): (Mem, Pc)
    requires op.Store?
    requires pc.NewHead? || pc.RDat? || pc.RIdx? || pc.ALock? || pc.ASeek? || pc.AWrite? || pc.AUnlock?
             || pc.XLock? || pc.XSeek? || pc.XWrite? || pc.XUnlock? || pc.Link?
  {
    var d := mem.disk;
    match pc
    case NewHead(rep, i) =>
      (mem, if !IsCell(d, Chain(op)) then Crash
            else if rep then ALock(PtrAt(d, Chain(op)), true, i) else FWant(PtrAt(d, Chain(op))))
    case RDat(next, o, datoff) => (mem.(disk := SetExt(d, datoff, op.data)), RIdx(next, o, datoff))
    case RIdx(next, o, datoff) =>
      (mem.(disk := SetRec(d, o, Rec(next, op.key, datoff, |op.data| + 1))), Link(o, false, 0))
    case ALock(next, rep, i) => (mem, ASeek(next, rep, i))
    case ASeek(next, rep, i) => (mem, AWrite(next, mem.datEnd, rep, i))
    case AWrite(next, e, rep, i) =>
      (DataAppended(mem, op, e), AUnlock(next, e, rep, i))
    case AUnlock(next, e, rep, i) => (mem, XLock(next, e, rep, i))
    case XLock(next, e, rep, i) => (mem, XSeek(next, e, rep, i))
    case XSeek(next, e, rep, i) => (mem, XWrite(next, e, mem.idxEnd, rep, i))
    case XWrite(next, e, o, rep, i) =>
      (RecordAppended(mem, h, o, Rec(next, op.key, e, |op.data| + 1)), XUnlock(o, rep, i))
    case XUnlock(o, rep, i) => (mem, Link(o, rep, i))
    case Link(o, rep, i) =>
      if IsCell(d, Chain(op)) && ListOf(op.key) < |mem.ix.lists| && o in d.recs then
        if rep then (RecordLinked(mem, op, o), Done(i))
        else (Took(RecordLinked(mem, op, o), h, op, Code(0)), Done(|mem.log|))
      else (mem, Crash)
  }

  /** One move of a handle that is in the middle of an operation. */
  ghost function Next(mem: Mem, h: nat, op: Op, pc: Pc): (Mem, Pc) {
    match pc
    case Idle => (mem, Idle)
    case Want => SearchMove(mem, h, op, pc)
    case Head => SearchMove(mem, h, op, pc)
    case At(_, _, _) => SearchMove(mem, h, op, pc)
    case Body(_, _, _, _) => SearchMove(mem, h, op, pc)
    case Hit(_, _, _, _, _, _) => HitMove(mem, h, op, pc)
    case D0(_, _, _, _, _, _) => DeleteMove(mem, h, op, pc)
    case D1(_, _, _, _, _, _, _) => DeleteMove(mem, h, op, pc)
    case D2(_, _, _, _, _, _, _, _) => DeleteMove(mem, h, op, pc)
    case D3(_, _, _, _, _) => DeleteMove(mem, h, op, pc)
    case D4(_, _, _, _, _) => DeleteMove(mem, h, op, pc)
    case D5(_) => DeleteMove(mem, h, op, pc)
    case FWant(_) => if op.Store? then FreeMove(mem, h, op, pc) else (mem, Crash)
    case FHead(_) => if op.Store? then FreeMove(mem, h, op, pc) else (mem, Crash)
    case FAt(_, _, _, _) => if op.Store? then FreeMove(mem, h, op, pc) else (mem, Crash)
    case FBody(_, _, _, _, _) => if op.Store? then FreeMove(mem, h, op, pc) else (mem, Crash)
    case FTake(_, _, _, _, _, _) => if op.Store? then FreeMove(mem, h, op, pc) else (mem, Crash)
    case FOut(_, _, _) => if op.Store? then FreeMove(mem, h, op, pc) else (mem, Crash)
    case Done(i) => (mem, Ret(i))
    case Ret(_) => (mem, Idle)
    case Crash => (mem, Crash)
    case _ => if op.Store? then WriteMove(mem, h, op, pc) else (mem, Crash)
  }

  // ---------- runs ----------

  /** Starting an operation, or going on with it; keep says that the record area stays locked. */
  datatype Move = Begin(handle: nat, op: Op) | Go(handle: nat, keep: bool)

  /** No two handles hold locks that exclude each other. */
  ghost predicate Exclusive(hs: map<nat, Hd>) {
    forall x, y :: x in hs && y in hs && x != y ==> !Conflict(hs[x], hs[y])
  }

  ghost predicate Can(s: Sys, mv: Move) {
    && mv.handle in s.hs
    && (mv.Begin? ==> s.hs[mv.handle].pc.Idle? && SEP !in mv.op.key)
    && (mv.Go? ==> !s.hs[mv.handle].pc.Idle?)
    && (mv.Go? && s.hs[mv.handle].pc.XLock? ==> s.app == Db.None || s.app == Db.Some(mv.handle))
  }

  /** The handle after its next move. */
  ghost function After(s: Sys, h: nat): Hd
    requires h in s.hs
  {
    s.hs[h].(pc := Next(s.mem, h, s.hs[h].op, s.hs[h].pc).1)
  }

  /**
   The unlock after appending a record names a region behind the end of the file, so the
   record area may stay locked (keep); both outcomes are allowed.
  */
  ghost function Do(s: Sys, mv: Move): Sys
    requires mv.handle in s.hs
  {
    var hd := s.hs[mv.handle];
    match mv
    case Begin(h, op) => s.(hs := s.hs[h := Hd(Want, op, |s.mem.log|)])
    case Go(h, keep) =>
      Sys(Next(s.mem, h, hd.op, hd.pc).0,
          if hd.pc.XLock? then Db.Some(h) else if hd.pc.XUnlock? && !keep then Db.None else s.app,
          s.hs[h := After(s, h)])
  }

  /** A move is made only when the locks it takes exclude nobody's. */
  ghost predicate Reaches(s0: Sys, mv: Move, s: Sys) {
    Can(s0, mv) && s == Do(s0, mv) && Exclusive(s.hs)
  }

  ghost predicate Initial(s: Sys) {
    && s.mem.disk == EmptyDisk() && s.mem.datEnd == 0 && s.mem.idxEnd == HEADER
    && s.mem.ix == NoIndex() && s.mem.m == map[] && s.mem.stale == map[] && s.mem.pend == map[] && s.mem.log == []
    && s.app == Db.None
    && forall h :: h in s.hs ==> s.hs[h].pc.Idle?
  }

  /** A run from an empty database with any set of idle handles: the states met, and the moves between them. */
  ghost predicate IsRun(states: seq<Sys>, moves: seq<Move>) {
    && |states| == |moves| + 1
    && Initial(states[0])
    && forall i :: 0 <= i < |moves| ==> Reaches(states[i], moves[i], states[i + 1])
  }

  // ---------- the invariant ----------

  /** The handle has broken its chain's link and not yet mended it. */
  predicate AtStale(hd: Hd, l: nat) {
    (hd.pc.D3? || hd.pc.D4?) && ListOf(hd.op.key) == l
  }

  /** The handle's operation has taken effect on the map, and not yet on the lists. */
  predicate AtPend(hd: Hd, key: string) {
    && hd.op.key == key
    && match hd.pc {
         case D1(_, _, _, _, _, _, _) => true
         case D2(_, _, _, _, _, _, _, _) => true
         case D3(_, _, _, _, _) => hd.op.Store?
         case D4(_, _, _, _, _) => hd.op.Store?
         case D5(_) => hd.op.Store?
         case NewHead(rep, _) => rep
         case ALock(_, rep, _) => rep
         case ASeek(_, rep, _) => rep
         case AWrite(_, _, rep, _) => rep
         case AUnlock(_, _, rep, _) => rep
         case XLock(_, _, rep, _) => rep
         case XSeek(_, _, rep, _) => rep
         case XWrite(_, _, _, rep, _) => rep
         case XUnlock(_, rep, _) => rep
         case Link(_, rep, _) => rep
         case _ => false
       }
  }

  /** The record the handle holds privately, on no list. */
  predicate Owns(hd: Hd, o: nat) {
    match hd.pc
    case D3(_, _, x, _, _) => x == o
    case FOut(_, x, _) => x == o
    case RDat(_, x, _) => x == o
    case RIdx(_, x, _) => x == o
    case XUnlock(x, _, _) => x == o
    case Link(x, _, _) => x == o
    case _ => false
  }

  /** The data the handle has appended and that no record refers to yet. */
  predicate OwnsData(hd: Hd, e: nat) {
    match hd.pc
    case AUnlock(_, x, _, _) => x == e
    case XLock(_, x, _, _) => x == e
    case XSeek(_, x, _, _) => x == e
    case XWrite(_, x, _, _, _) => x == e
    case _ => false
  }
}
