/**
 What holds between any two moves of any handles: the shared structure is intact but
 for the links a handle under way has open, and each handle's private values fit the
 part of the structure its locks protect.
*/
module DbLocksInv {
  import opened DbFormat
  import opened DbDisk
  import opened DbIndex
  import opened DbSteps
  import opened DbLocks
  import Db

  // ---------- the shared state ----------

  /** Outside the keys in the making, the map is what the live records and their data say. */
  ghost predicate Agree(mem: Mem) {
    forall key :: key !in mem.pend ==> KeyAgrees(mem, key)
  }

  ghost predicate KeyAgrees(mem: Mem, key: string) {
    && (key in mem.m <==> key in mem.ix.at)
    && (key in mem.m && key in mem.ix.at ==> HasValue(mem.disk, mem.ix.at[key], mem.m[key]))
  }

  ghost predicate Ends(mem: Mem) {
    && HEADER <= mem.idxEnd
    && (forall o :: o in mem.disk.recs ==> o < mem.idxEnd)
    && (forall e :: e in mem.disk.ext ==> e < mem.datEnd)
  }

  ghost predicate LogOK(mem: Mem) {
    mem.m == Replay(mem.log) && Legal(mem.log)
  }

  ghost predicate Shared(mem: Mem) {
    WF(mem.disk, mem.ix, mem.stale.Keys) && 0 !in mem.stale && Agree(mem) && Ends(mem) && LogOK(mem)
  }

  // ---------- one handle ----------

  ghost predicate Logged(mem: Mem, h: nat, hd: Hd, i: nat) {
    hd.start <= i < |mem.log| && mem.log[i].handle == h && mem.log[i].op == hd.op
  }

  function List(mem: Mem, l: nat): seq<nat> {
    if l < |mem.ix.lists| then mem.ix.lists[l] else []
  }

  function HeadOf(mem: Mem, l: nat): nat {
    if l < |mem.disk.heads| then mem.disk.heads[l] else 0
  }

  /** Standing before the k-th member of a list. */
  ghost predicate OnWalk(mem: Mem, l: nat, k: nat, cell: nat, offset: nat) {
    var p := List(mem, l);
    k <= |p| && cell == CellOf(l, p, k) && offset == ValOf(p, k)
  }

  /** Standing at the k-th member of a list, with a record's fields. */
  ghost predicate OnMember(mem: Mem, l: nat, k: nat, cell: nat, o: nat) {
    var p := List(mem, l);
    k < |p| && cell == CellOf(l, p, k) && o == p[k] && o in mem.disk.recs
  }

  ghost predicate Passed(mem: Mem, key: string, k: nat) {
    var p := List(mem, ListOf(key));
    k <= |p| && forall j :: 0 <= j < k ==> !HasKey(mem.disk, p[j], key)
  }

  ghost predicate IsHeld(mem: Mem, h: nat, o: nat) {
    o in mem.disk.recs && o in mem.ix.owner && mem.ix.owner[o] == Held(h)
  }

  /** The chain has one open link, before position k, and the handle knows what belongs there. */
  ghost predicate Open(mem: Mem, l: nat, k: nat, cell: nat, next: nat) {
    var p := List(mem, l);
    k <= |p| && LinkedExcept(mem.disk, l, p, k) && cell == CellOf(l, p, k) && next == ValOf(p, k)
  }

  /** No record refers to the data at e. */
  ghost predicate Unread(d: Disk, e: nat) {
    forall o :: o in d.recs ==> d.recs[o].datoff != e
  }

  /** A key that is being stored and is on no list. */
  ghost predicate Storing(mem: Mem, op: Op, next: nat) {
    op.Store? && op.key !in mem.ix.at && next == HeadOf(mem, ListOf(op.key)) && Db.ValidFlag(op.flag)
  }

  ghost predicate FreshStore(mem: Mem, op: Op, next: nat) {
    Storing(mem, op, next) && op.flag != Db.DB_REPLACE
  }

  /** Data written and not yet in a record. */
  ghost predicate Appended(mem: Mem, op: Op, e: nat) {
    op.Store? && e in mem.disk.ext && mem.disk.ext[e] == op.data && Unread(mem.disk, e)
  }

  ghost predicate Replacing(mem: Mem, h: nat, hd: Hd, rep: bool, i: nat) {
    if rep then Logged(mem, h, hd, i) else hd.op.Store? && hd.op.flag != Db.DB_REPLACE
  }

  /** A store that deletes first, or a delete. */
  predicate Removes(op: Op, datlen: nat) {
    op.Delete? || (op.Store? && Db.ValidFlag(op.flag) && op.flag != Db.DB_INSERT && |op.data| + 1 != datlen)
  }

  predicate Removing(op: Op) {
    op.Delete? || (op.Store? && Db.ValidFlag(op.flag))
  }

  predicate InSearch(pc: Pc) { pc.At? || pc.Body? || pc.Hit? }

  predicate InDelete(pc: Pc) { pc.D0? || pc.D1? || pc.D2? || pc.D3? || pc.D4? || pc.D5? }

  predicate InFree(pc: Pc) {
    pc.FWant? || pc.FHead? || pc.FAt? || pc.FBody? || pc.FTake? || pc.FOut? || pc.RDat? || pc.RIdx?
  }

  predicate InAppend(pc: Pc) {
    pc.NewHead? || pc.ALock? || HasDat(pc) || pc.XLock? || HasApp(pc) || pc.Link?
  }

  ghost predicate SearchLocal(mem: Mem, h: nat, hd: Hd) {
    var key := hd.op.key;
    match hd.pc
    case At(k, ptroff, offset) => OnWalk(mem, ListOf(key), k, ptroff, offset) && Passed(mem, key, k)
    case Body(k, ptroff, offset, next) =>
      OnMember(mem, ListOf(key), k, ptroff, offset) && Passed(mem, key, k) && next == mem.disk.recs[offset].next
    case Hit(k, ptroff, o, next, datoff, datlen) =>
      OnMember(mem, ListOf(key), k, ptroff, o) && mem.disk.recs[o] == Rec(next, key, datoff, datlen)
    case _ => true
  }

  ghost predicate DeleteLocal(mem: Mem, h: nat, hd: Hd) {
    var key, l := hd.op.key, ListOf(hd.op.key);
    match hd.pc
    case D0(k, ptroff, o, next, datoff, datlen) =>
      OnMember(mem, l, k, ptroff, o) && mem.disk.recs[o] == Rec(next, key, datoff, datlen) && Removes(hd.op, datlen)
    case D1(k, ptroff, o, next, datoff, datlen, i) =>
      && OnMember(mem, l, k, ptroff, o) && mem.disk.recs[o] == Rec(next, key, datoff, datlen)
      && Removing(hd.op) && Logged(mem, h, hd, i)
    case D2(k, ptroff, o, next, datoff, datlen, free, i) =>
      && OnMember(mem, l, k, ptroff, o) && mem.disk.recs[o] == Rec(next, key, datoff, datlen)
      && Removing(hd.op) && Logged(mem, h, hd, i) && free == HeadOf(mem, 0)
    case D3(k, ptroff, o, next, i) =>
      && Open(mem, l, k, ptroff, next) && IsHeld(mem, h, o)
      && mem.disk.recs[o].next == HeadOf(mem, 0) && IsBlank(mem.disk.recs[o].key)
      && key !in mem.ix.at && Removing(hd.op) && Logged(mem, h, hd, i)
    case D4(k, ptroff, o, next, i) =>
      Open(mem, l, k, ptroff, next) && key !in mem.ix.at && Removing(hd.op) && Logged(mem, h, hd, i)
    case D5(i) => key !in mem.ix.at && Removing(hd.op) && Logged(mem, h, hd, i)
    case _ => true
  }

  ghost predicate FreeLocal(mem: Mem, h: nat, hd: Hd) {
    match hd.pc
    case FWant(next) => FreshStore(mem, hd.op, next)
    case FHead(next) => FreshStore(mem, hd.op, next)
    case FAt(next, k, save, offset) =>
      FreshStore(mem, hd.op, next) && OnWalk(mem, 0, k, save, offset) && Skipped(mem, hd.op, k)
    case FBody(next, k, save, offset, fnext) =>
      && FreshStore(mem, hd.op, next) && OnMember(mem, 0, k, save, offset) && fnext == mem.disk.recs[offset].next
      && Skipped(mem, hd.op, k)
    case FTake(next, k, save, o, fnext, datoff) =>
      && FreshStore(mem, hd.op, next) && OnMember(mem, 0, k, save, o) && fnext == mem.disk.recs[o].next
      && mem.disk.recs[o].datoff == datoff && mem.disk.recs[o].datlen == |hd.op.data| + 1
      && |mem.disk.recs[o].key| == |hd.op.key|
    case FOut(next, o, datoff) => Refitting(mem, h, hd.op, next, o, datoff)
    case RDat(next, o, datoff) => Refitting(mem, h, hd.op, next, o, datoff)
    case RIdx(next, o, datoff) => Refitting(mem, h, hd.op, next, o, datoff) && HasValue(mem.disk, o, hd.op.data)
    case _ => true
  }

  /** None of the first k free records has a key and data as long as the store's. */
  ghost predicate Skipped(mem: Mem, op: Op, k: nat) {
    op.Store? && k <= |List(mem, 0)| && forall j :: 0 <= j < k ==> Unfit(mem, op, List(mem, 0)[j])
  }

  ghost predicate Unfit(mem: Mem, op: Op, o: nat) {
    && op.Store? && o in mem.disk.recs
    && !(|mem.disk.recs[o].key| == |op.key| && mem.disk.recs[o].datlen == |op.data| + 1)
  }

  lemma SkippedStable(a: Mem, b: Mem, op: Op, k: nat)
    requires Skipped(a, op, k) && ListKept(a, b, 0)
    ensures Skipped(b, op, k)
  {
    forall j | 0 <= j < k ensures Unfit(b, op, List(b, 0)[j]) {
      var o := List(a, 0)[j];
      assert Unfit(a, op, o) && o in List(a, 0) && SameRec(a.disk, b.disk, o);
    }
  }

  /** A free record taken off its list, to be written anew. */
  ghost predicate Refitting(mem: Mem, h: nat, op: Op, next: nat, o: nat, datoff: nat) {
    && FreshStore(mem, op, next) && IsHeld(mem, h, o)
    && mem.disk.recs[o].datoff == datoff && mem.disk.recs[o].datlen == |op.data| + 1
    && |mem.disk.recs[o].key| == |op.key|
  }

  ghost predicate AppendLocal(mem: Mem, h: nat, hd: Hd) {
    match hd.pc
    case NewHead(rep, i) =>
      && Storing(mem, hd.op, HeadOf(mem, ListOf(hd.op.key))) && Replacing(mem, h, hd, rep, i)
    case ALock(next, rep, i) => Storing(mem, hd.op, next) && Replacing(mem, h, hd, rep, i)
    case ASeek(next, rep, i) => Storing(mem, hd.op, next) && Replacing(mem, h, hd, rep, i)
    case AWrite(next, e, rep, i) => Storing(mem, hd.op, next) && Replacing(mem, h, hd, rep, i) && e == mem.datEnd
    case AUnlock(next, e, rep, i) =>
      Storing(mem, hd.op, next) && Replacing(mem, h, hd, rep, i) && Appended(mem, hd.op, e)
    case XLock(next, e, rep, i) => Storing(mem, hd.op, next) && Replacing(mem, h, hd, rep, i) && Appended(mem, hd.op, e)
    case XSeek(next, e, rep, i) => Storing(mem, hd.op, next) && Replacing(mem, h, hd, rep, i) && Appended(mem, hd.op, e)
    case XWrite(next, e, o, rep, i) =>
      && Storing(mem, hd.op, next) && Replacing(mem, h, hd, rep, i) && Appended(mem, hd.op, e) && o == mem.idxEnd
    case XUnlock(o, rep, i) => Ready(mem, h, hd.op, o) && Replacing(mem, h, hd, rep, i)
    case Link(o, rep, i) => Ready(mem, h, hd.op, o) && Replacing(mem, h, hd, rep, i)
    case _ => true
  }

  /** The new record is complete and only has to be linked. */
  ghost predicate Ready(mem: Mem, h: nat, op: Op, o: nat) {
    && IsHeld(mem, h, o) && op.Store? && Storing(mem, op, mem.disk.recs[o].next)
    && mem.disk.recs[o].key == op.key && HasValue(mem.disk, o, op.data)
  }

  /** What a removal or replacement under way has already done to the map. */
  ghost predicate Effect(mem: Mem, op: Op) {
    if op.Store? then op.key in mem.m && mem.m[op.key] == op.data else op.key !in mem.m
  }

  /** The handle's chain is whole, and its key settled, unless the handle itself is at it. */
  ghost predicate OwnChain(mem: Mem, h: nat, hd: Hd) {
    var key, l := hd.op.key, ListOf(hd.op.key);
    && (if AtStale(hd, l) then l in mem.stale && mem.stale[l] == h else l !in mem.stale)
    && (if AtPend(hd, key) then key in mem.pend && mem.pend[key] == h && Effect(mem, hd.op) else key !in mem.pend)
  }

  ghost predicate Local(mem: Mem, h: nat, hd: Hd) {
    && (hd.pc.Idle? || hd.start <= |mem.log|) && !hd.pc.Crash?
    && (hd.pc.Done? ==> Logged(mem, h, hd, hd.pc.i))
    && (hd.pc.Ret? ==> Logged(mem, h, hd, hd.pc.i))
    && (hd.pc.Hit? || hd.pc.Head? || hd.pc.At? || hd.pc.Body? ==> hd.op.Store? ==> Db.ValidFlag(hd.op.flag))
    && (HasChain(hd) ==> OwnChain(mem, h, hd))
    && SearchLocal(mem, h, hd) && DeleteLocal(mem, h, hd) && FreeLocal(mem, h, hd) && AppendLocal(mem, h, hd)
  }

  // ---------- all handles ----------

  /** Whatever is open, in the making or private is some handle's, and that handle is at it. */
  ghost predicate Accounted(mem: Mem, hs: map<nat, Hd>) {
    && (forall l :: l in mem.stale ==> mem.stale[l] in hs && AtStale(hs[mem.stale[l]], l))
    && (forall key :: key in mem.pend ==> mem.pend[key] in hs && AtPend(hs[mem.pend[key]], key))
    && (forall o :: o in mem.ix.owner && mem.ix.owner[o].Held? ==>
         mem.ix.owner[o].handle in hs && Owns(hs[mem.ix.owner[o].handle], o))
  }

  ghost predicate DataPrivate(hs: map<nat, Hd>) {
    forall x, y, e :: x in hs && y in hs && x != y && OwnsData(hs[x], e) ==> !OwnsData(hs[y], e)
  }

  ghost predicate AppHeld(app: Db.Option<nat>, hs: map<nat, Hd>) {
    forall x :: x in hs && HasApp(hs[x].pc) ==> app == Db.Some(x)
  }

  ghost predicate Inv(s: Sys) {
    && Shared(s.mem)
    && (forall x :: x in s.hs ==> Local(s.mem, x, s.hs[x]))
    && Exclusive(s.hs) && Accounted(s.mem, s.hs) && DataPrivate(s.hs) && AppHeld(s.app, s.hs)
  }

  // ---------- what others notice of a move ----------

  /** A list the handle has no right to change. */
  predicate Foreign(hd: Hd, l: nat) {
    !(HasChain(hd) && !hd.op.Fetch? && l == ListOf(hd.op.key)) && !(HasFree(hd.pc) && l == 0)
  }

  ghost predicate SameRec(a: Disk, b: Disk, o: nat) {
    o in a.recs ==>
      && o in b.recs && b.recs[o] == a.recs[o]
      && (a.recs[o].datoff in a.ext ==> a.recs[o].datoff in b.ext && b.ext[a.recs[o].datoff] == a.ext[a.recs[o].datoff])
  }

  ghost predicate ListKept(a: Mem, b: Mem, l: nat) {
    && List(b, l) == List(a, l) && HeadOf(b, l) == HeadOf(a, l)
    && (l in b.stale <==> l in a.stale) && (l in a.stale && l in b.stale ==> b.stale[l] == a.stale[l])
    && forall o :: o in List(a, l) ==> SameRec(a.disk, b.disk, o)
  }

  ghost predicate KeyKept(a: Mem, b: Mem, key: string) {
    && (key in b.ix.at <==> key in a.ix.at) && (key in a.ix.at && key in b.ix.at ==> b.ix.at[key] == a.ix.at[key])
    && (key in b.m <==> key in a.m) && (key in a.m && key in b.m ==> b.m[key] == a.m[key])
    && (key in b.pend <==> key in a.pend) && (key in a.pend && key in b.pend ==> b.pend[key] == a.pend[key])
  }

  ghost predicate HeldKept(a: Mem, b: Mem, o: nat) {
    o in b.ix.owner && o in a.ix.owner && b.ix.owner[o] == a.ix.owner[o] && SameRec(a.disk, b.disk, o)
  }

  ghost predicate DataKept(a: Mem, b: Mem, e: nat) {
    e in a.disk.ext && Unread(a.disk, e) ==>
      e in b.disk.ext && b.disk.ext[e] == a.disk.ext[e] && Unread(b.disk, e)
  }

  /** A move of handle h changes nothing that another handle's locks protect or that is private to it. */
  ghost predicate Frame(a: Mem, b: Mem, h: nat, hd: Hd) {
    && (forall l :: 0 <= l < LISTS && Foreign(hd, l) ==> ListKept(a, b, l))
    && (forall key :: Foreign(hd, ListOf(key)) ==> KeyKept(a, b, key))
    && (forall o :: o in a.ix.owner && a.ix.owner[o].Held? && a.ix.owner[o] != Held(h) ==> HeldKept(a, b, o))
    && (forall e :: !OwnsData(hd, e) ==> DataKept(a, b, e))
    && a.log <= b.log
    && (b.datEnd == a.datEnd || HasDat(hd.pc)) && (b.idxEnd == a.idxEnd || HasApp(hd.pc))
  }

  lemma MemberStable(a: Mem, b: Mem, l: nat, k: nat, cell: nat, o: nat)
    requires ListKept(a, b, l) && OnMember(a, l, k, cell, o)
    ensures OnMember(b, l, k, cell, o) && b.disk.recs[o] == a.disk.recs[o]
  {
    assert o in List(a, l);
  }

  lemma PassedStable(a: Mem, b: Mem, key: string, k: nat)
    requires ListKept(a, b, ListOf(key)) && Passed(a, key, k) && WF(a.disk, a.ix, a.stale.Keys)
    ensures Passed(b, key, k)
  {
    var p := List(a, ListOf(key));
    assert Members(a.disk.recs, a.ix, ListOf(key));
    forall j | 0 <= j < k ensures !HasKey(b.disk, p[j], key) {
      assert p[j] in p;
    }
  }

  lemma OpenStable(a: Mem, b: Mem, l: nat, k: nat, cell: nat, next: nat)
    requires ListKept(a, b, l) && Open(a, l, k, cell, next) && l < LISTS
    requires WF(a.disk, a.ix, a.stale.Keys) && WF(b.disk, b.ix, b.stale.Keys)
    ensures Open(b, l, k, cell, next)
  {
    var p := List(a, l);
    forall j | 0 <= j <= |p| && j != k ensures LinkAt(b.disk, l, p, j) {
      assert LinkAt(a.disk, l, p, j);
      CellInFile(a.disk, a.ix, a.stale.Keys, l, j);
      CellInFile(b.disk, b.ix, b.stale.Keys, l, j);
      if j == 0 {
        assert PTR_SZ * l / PTR_SZ == l;
      } else {
        assert p[j - 1] in p;
        assert Members(a.disk.recs, a.ix, l);
      }
    }
  }

  lemma SearchStable(a: Mem, b: Mem, h: nat, hd: Hd)
    requires WF(a.disk, a.ix, a.stale.Keys) && SearchLocal(a, h, hd) && HasChain(hd)
    requires ListKept(a, b, ListOf(hd.op.key))
    ensures SearchLocal(b, h, hd)
  {
    var key, l := hd.op.key, ListOf(hd.op.key);
    match hd.pc
    case At(k, ptroff, offset) => PassedStable(a, b, key, k);
    case Body(k, ptroff, offset, next) =>
      PassedStable(a, b, key, k);
      MemberStable(a, b, l, k, ptroff, offset);
    case Hit(k, ptroff, o, next, datoff, datlen) => MemberStable(a, b, l, k, ptroff, o);
    case _ =>
  }

  /** What two states must agree on for a handle's values to stay right. */
  ghost predicate Undisturbed(a: Mem, b: Mem, h: nat, hd: Hd) {
    && (HasChain(hd) ==> ListKept(a, b, ListOf(hd.op.key)) && KeyKept(a, b, hd.op.key))
    && (HasFree(hd.pc) ==> ListKept(a, b, 0))
    && (forall o :: o in a.ix.owner && a.ix.owner[o] == Held(h) ==> HeldKept(a, b, o))
    && (forall e :: OwnsData(hd, e) ==> DataKept(a, b, e))
    && a.log <= b.log
    && (HasDat(hd.pc) ==> b.datEnd == a.datEnd) && (HasApp(hd.pc) ==> b.idxEnd == a.idxEnd)
  }

  lemma DeleteStable(a: Mem, b: Mem, h: nat, hd: Hd)
    requires WF(a.disk, a.ix, a.stale.Keys) && WF(b.disk, b.ix, b.stale.Keys)
    requires DeleteLocal(a, h, hd) && Undisturbed(a, b, h, hd)
    ensures DeleteLocal(b, h, hd)
  {
    hide WF, ListKept, OnMember, Open;
    var l := ListOf(hd.op.key);
    assert hd.pc.D3? ==> HeadOf(b, 0) == HeadOf(a, 0) by { HeadStable(a, b, hd); }
    assert hd.pc.D2? ==> HeadOf(b, 0) == HeadOf(a, 0) by { HeadStable(a, b, hd); }
    match hd.pc
    case D0(k, ptroff, o, next, datoff, datlen) => MemberStable(a, b, l, k, ptroff, o);
    case D1(k, ptroff, o, next, datoff, datlen, i) => MemberStable(a, b, l, k, ptroff, o);
    case D2(k, ptroff, o, next, datoff, datlen, free, i) => MemberStable(a, b, l, k, ptroff, o);
    case D3(k, ptroff, o, next, i) => OpenStable(a, b, l, k, ptroff, next);
    case D4(k, ptroff, o, next, i) => OpenStable(a, b, l, k, ptroff, next);
    case _ =>
  }

  lemma HeadStable(a: Mem, b: Mem, hd: Hd)
    requires HasFree(hd.pc) ==> ListKept(a, b, 0)
    ensures HasFree(hd.pc) ==> HeadOf(b, 0) == HeadOf(a, 0)
  {
  }

  lemma StoringStable(a: Mem, b: Mem, op: Op, next: nat)
    requires ListKept(a, b, ListOf(op.key)) && KeyKept(a, b, op.key) && Storing(a, op, next)
    ensures Storing(b, op, next)
  {
  }

  lemma HeldStable(a: Mem, b: Mem, h: nat, o: nat)
    requires IsHeld(a, h, o) && HeldKept(a, b, o)
    ensures IsHeld(b, h, o) && b.disk.recs[o] == a.disk.recs[o]
    ensures forall val :: HasValue(a.disk, o, val) ==> HasValue(b.disk, o, val)
  {
  }

  lemma FreeStable(a: Mem, b: Mem, h: nat, hd: Hd)
    requires FreeLocal(a, h, hd) && Undisturbed(a, b, h, hd)
    ensures FreeLocal(b, h, hd)
  {
    hide ListKept, OnMember, KeyKept, HeldKept, IsHeld, HasValue, Storing, Skipped;
    var op := hd.op;
    match hd.pc
    case FWant(next) => StoringStable(a, b, op, next);
    case FHead(next) => StoringStable(a, b, op, next);
    case FAt(next, k, save, offset) =>
      StoringStable(a, b, op, next);
      assert OnWalk(b, 0, k, save, offset) by { WalkStable(a, b, 0, k, save, offset); }
      SkippedStable(a, b, op, k);
    case FBody(next, k, save, offset, fnext) =>
      StoringStable(a, b, op, next);
      MemberStable(a, b, 0, k, save, offset);
      SkippedStable(a, b, op, k);
    case FTake(next, k, save, o, fnext, datoff) =>
      StoringStable(a, b, op, next);
      MemberStable(a, b, 0, k, save, o);
    case FOut(next, o, datoff) => RefittingStable(a, b, h, op, next, o, datoff);
    case RDat(next, o, datoff) => RefittingStable(a, b, h, op, next, o, datoff);
    case RIdx(next, o, datoff) => RefittingStable(a, b, h, op, next, o, datoff);
    case _ =>
  }

  lemma WalkStable(a: Mem, b: Mem, l: nat, k: nat, cell: nat, offset: nat)
    requires ListKept(a, b, l) && OnWalk(a, l, k, cell, offset)
    ensures OnWalk(b, l, k, cell, offset)
  {
  }

  lemma RefittingStable(a: Mem, b: Mem, h: nat, op: Op, next: nat, o: nat, datoff: nat)
    requires ListKept(a, b, ListOf(op.key)) && KeyKept(a, b, op.key) && Refitting(a, h, op, next, o, datoff)
    requires o in a.ix.owner && a.ix.owner[o] == Held(h) ==> HeldKept(a, b, o)
    ensures Refitting(b, h, op, next, o, datoff)
    ensures HasValue(a.disk, o, op.data) ==> HasValue(b.disk, o, op.data)
  {
    StoringStable(a, b, op, next);
    HeldStable(a, b, h, o);
  }

  lemma ReadyStable(a: Mem, b: Mem, h: nat, op: Op, o: nat)
    requires ListKept(a, b, ListOf(op.key)) && KeyKept(a, b, op.key) && Ready(a, h, op, o)
    requires o in a.ix.owner && a.ix.owner[o] == Held(h) ==> HeldKept(a, b, o)
    ensures Ready(b, h, op, o)
  {
    HeldStable(a, b, h, o);
    StoringStable(a, b, op, a.disk.recs[o].next);
  }

  lemma AppendStable(a: Mem, b: Mem, h: nat, hd: Hd)
    requires AppendLocal(a, h, hd) && Undisturbed(a, b, h, hd)
    ensures AppendLocal(b, h, hd)
  {
    hide ListKept, KeyKept, HeldKept, IsHeld, HasValue, Storing, Unread;
    var op := hd.op;
    match hd.pc
    case NewHead(rep, i) =>
      assert HeadOf(b, ListOf(op.key)) == HeadOf(a, ListOf(op.key)) by { ChainHeadStable(a, b, ListOf(op.key)); }
      StoringStable(a, b, op, HeadOf(a, ListOf(op.key)));
    case ALock(next, rep, i) => StoringStable(a, b, op, next);
    case ASeek(next, rep, i) => StoringStable(a, b, op, next);
    case AWrite(next, e, rep, i) => StoringStable(a, b, op, next);
    case AUnlock(next, e, rep, i) => StoringStable(a, b, op, next); AppendedStable(a, b, hd, e);
    case XLock(next, e, rep, i) => StoringStable(a, b, op, next); AppendedStable(a, b, hd, e);
    case XSeek(next, e, rep, i) => StoringStable(a, b, op, next); AppendedStable(a, b, hd, e);
    case XWrite(next, e, o, rep, i) => StoringStable(a, b, op, next); AppendedStable(a, b, hd, e);
    case XUnlock(o, rep, i) => ReadyStable(a, b, h, op, o);
    case Link(o, rep, i) => ReadyStable(a, b, h, op, o);
    case _ =>
  }

  lemma ChainHeadStable(a: Mem, b: Mem, l: nat)
    requires ListKept(a, b, l)
    ensures HeadOf(b, l) == HeadOf(a, l)
  {
  }

  lemma AppendedStable(a: Mem, b: Mem, hd: Hd, e: nat)
    requires Appended(a, hd.op, e) && OwnsData(hd, e) && forall x :: OwnsData(hd, x) ==> DataKept(a, b, x)
    ensures Appended(b, hd.op, e)
  {
  }

  /** A handle's values stay right as long as nothing it relies on is disturbed. */
  lemma LocalStable(a: Mem, b: Mem, h: nat, hd: Hd)
    requires WF(a.disk, a.ix, a.stale.Keys) && WF(b.disk, b.ix, b.stale.Keys)
    requires Local(a, h, hd) && Undisturbed(a, b, h, hd)
    ensures Local(b, h, hd)
  {
    hide WF, SearchLocal, DeleteLocal, FreeLocal, AppendLocal;
    if HasChain(hd) {
      SearchStable(a, b, h, hd);
    } else {
      NotSearching(b, h, hd);
    }
    DeleteStable(a, b, h, hd);
    FreeStable(a, b, h, hd);
    AppendStable(a, b, h, hd);
  }

  lemma NotSearching(mem: Mem, h: nat, hd: Hd)
    requires !HasChain(hd)
    ensures SearchLocal(mem, h, hd)
  {
  }

  /** What a move of one handle leaves to another. */
  lemma FrameUndisturbed(a: Mem, b: Mem, h: nat, hd: Hd, x: nat, xd: Hd)
    requires Frame(a, b, h, hd) && x != h && !Conflict(hd, xd) && !Conflict(xd, hd)
    requires !(HasApp(hd.pc) && HasApp(xd.pc))
    requires forall e :: OwnsData(xd, e) ==> !OwnsData(hd, e)
    ensures Undisturbed(a, b, x, xd)
  {
    if HasChain(xd) {
      assert Foreign(hd, ListOf(xd.op.key)) || !HasChain(xd);
    }
  }
}
