/**
 The bytes behind the many handles: every writing move is one write to one of the two
 files, and in every run the files are the encoding of the records, pointers and data
 the moves speak of.
*/
module DbLocksFiles {
  import opened DbFormat
  import opened DbDisk
  import opened DbIndex
  import opened DbLocks
  import opened DbLocksInv
  import opened DbLocksProof
  import opened DbLocksRuns
  import Db
  import DbSteps

  datatype Files = Files(idx: string, dat: string)

  /** One write; behind the end of the file it would leave a hole of zeros. */
  function WriteAt(file: string, off: nat, bytes: string): string {
    var reach := if off <= |file| then file else file + seq(off - |file|, _ => '\0');
    Splice(reach, off, bytes)
  }

  function WriteDatum(f: Files, off: nat, data: string): Files {
    f.(dat := WriteAt(f.dat, off, data + [NEWLINE]))
  }

  function WriteRecord(f: Files, off: nat, r: Rec): Files { f.(idx := WriteAt(f.idx, off, Format(r))) }

  function WritePointer(f: Files, off: nat, p: nat): Files { f.(idx := WriteAt(f.idx, off, Pad(PTR_SZ, Digits(p)))) }

  /** What the next system call of a handle writes. */
  ghost function Wrote(f: Files, op: Op, pc: Pc): Files {
    match pc
    case Hit(_, _, _, _, datoff, datlen) =>
      if op.Store? && op.flag != Db.DB_INSERT && |op.data| + 1 == datlen then WriteDatum(f, datoff, op.data) else f
    case D0(_, _, _, _, datoff, datlen) => if datlen >= 1 then WriteDatum(f, datoff, Spaces(datlen - 1)) else f
    case D2(_, _, o, _, datoff, datlen, free, _) => WriteRecord(f, o, Rec(free, Spaces(|op.key|), datoff, datlen))
    case D3(_, _, o, _, _) => WritePointer(f, FREE_OFF, o)
    case D4(_, ptroff, _, next, _) => WritePointer(f, ptroff, next)
    case FTake(_, _, save, _, fnext, _) => WritePointer(f, save, fnext)
    case RDat(_, _, datoff) => if op.Store? then WriteDatum(f, datoff, op.data) else f
    case RIdx(next, o, datoff) => if op.Store? then WriteRecord(f, o, Rec(next, op.key, datoff, |op.data| + 1)) else f
    case AWrite(_, e, _, _) => if op.Store? then WriteDatum(f, e, op.data) else f
    case XWrite(next, e, o, _, _) =>
      if op.Store? then WriteRecord(f, o, Rec(next, op.key, e, |op.data| + 1)) else f
    case Link(o, _, _) => WritePointer(f, Chain(op), o)
    case _ => f
  }

  /** The files after the first n moves of a run, from the header of an empty database. */
  ghost function FilesAt(states: seq<Sys>, moves: seq<Move>, n: nat): Files
    requires IsRun(states, moves) && n <= |moves|
  {
    if n == 0 then Files(EmptyHeader(NHASH + 1) + [NEWLINE], "")
    else
      var f := FilesAt(states, moves, n - 1);
      match moves[n - 1]
      case Begin(_, _) => f
      case Go(h, _) =>
        assert Reaches(states[n - 1], moves[n - 1], states[n]);
        Wrote(f, states[n - 1].hs[h].op, states[n - 1].hs[h].pc)
  }

  /** No append stops its program: the index file has not grown too long, and key and data are of fit length. */
  ghost predicate HasRoom(s: Sys, mv: Move) {
    mv.Go? && mv.handle in s.hs && s.hs[mv.handle].pc.XWrite? && s.hs[mv.handle].op.Store? ==>
      var hd := s.hs[mv.handle];
      hd.pc.o <= PTR_MAX && DbSteps.Sizable(hd.op.key, hd.pc.e, hd.op.data)
  }

  ghost predicate Roomy(states: seq<Sys>, moves: seq<Move>, n: nat) {
    n <= |moves| < |states| && forall i :: 0 <= i < n ==> HasRoom(states[i], moves[i])
  }

  /** The files are the encoding of the shared state, to the last byte. */
  ghost predicate Encodes(f: Files, mem: Mem) {
    && Holds(f.idx, f.dat, mem.disk) && |f.idx| == mem.idxEnd && |f.dat| == mem.datEnd
    && forall o :: o in mem.disk.recs ==> o <= PTR_MAX
  }

  predicate PlainKey(hd: Hd) { !hd.pc.Idle? ==> SEP !in hd.op.key }

  // ---------- the kinds of writes ----------

  lemma DatumWritten(f: Files, d: Disk, e: nat, val: string)
    requires Holds(f.idx, f.dat, d) && (e == |f.dat| || (e in d.ext && |val| == |d.ext[e]|))
    ensures var f' := WriteDatum(f, e, val);
            && Holds(f'.idx, f'.dat, SetExt(d, e, val)) && f'.idx == f.idx
            && |f'.dat| == if e == |f.dat| then e + |val| + 1 else |f.dat|
  {
    hide Holds;
    WriteExtBack(f.idx, f.dat, d, e, val);
  }

  lemma RecordWritten(f: Files, d: Disk, o: nat, r: Rec)
    requires Holds(f.idx, f.dat, d) && Fits(r) && (o == |f.idx| || (o in d.recs && Size(r) == Size(d.recs[o])))
    ensures var f' := WriteRecord(f, o, r);
            && Holds(f'.idx, f'.dat, SetRec(d, o, r)) && f'.dat == f.dat
            && |f'.idx| == if o == |f.idx| then o + Size(r) else |f.idx|
  {
    hide Holds, Digits;
    WriteRecBack(f.idx, f.dat, d, o, r);
    FormatSize(r);
  }

  lemma PointerWritten(f: Files, d: Disk, cell: nat, p: nat)
    requires Holds(f.idx, f.dat, d) && IsCell(d, cell) && p <= PTR_MAX
    ensures var f' := WritePointer(f, cell, p);
            Holds(f'.idx, f'.dat, SetPtr(d, cell, p)) && f'.dat == f.dat && |f'.idx| == |f.idx|
  {
    hide Holds, Digits;
    WriteCellBack(f.idx, f.dat, d, cell, p);
  }

  /** A pointer that is an offset of a record, or the end of a list, fits its field. */
  lemma PointerFits(f: Files, mem: Mem, l: nat, k: nat)
    requires Shared(mem) && Encodes(f, mem) && l < LISTS && k <= |List(mem, l)|
    ensures ValOf(List(mem, l), k) <= PTR_MAX
  {
    assert Members(mem.disk.recs, mem.ix, l);
  }

  lemma HeadFits(f: Files, mem: Mem, l: nat)
    requires Shared(mem) && Encodes(f, mem) && l < LISTS
    ensures HeadOf(mem, l) <= PTR_MAX
  {
    CellInFile(mem.disk, mem.ix, mem.stale.Keys, l, 0);
    assert PTR_SZ * l / PTR_SZ == l;
    ReadCellBack(f.idx, f.dat, mem.disk, PTR_SZ * l);
  }

  // ---------- the moves ----------

  ghost predicate StillEncodes(f: Files, mem: Mem, h: nat, hd: Hd) {
    Encodes(Wrote(f, hd.op, hd.pc), Mem1(mem, h, hd))
  }

  /** What the structure knows about a record's data. */
  lemma DatumOf(mem: Mem, o: nat)
    requires Shared(mem) && o in mem.disk.recs
    ensures var r := mem.disk.recs[o]; r.datoff in mem.disk.ext && |mem.disk.ext[r.datoff]| + 1 == r.datlen
  {
    assert RecOK(mem.disk, mem.ix, o);
  }

  /** Data written over data: an overwriting store, a deletion, and a slot that is used again. */
  lemma DatumMove(f: Files, mem: Mem, h: nat, hd: Hd)
    requires Shared(mem) && Local(mem, h, hd) && Encodes(f, mem)
    requires || hd.pc.D0? || hd.pc.RDat?
             || (hd.pc.Hit? && hd.op.Store? && hd.op.flag != Db.DB_INSERT && |hd.op.data| + 1 == hd.pc.datlen)
    ensures StillEncodes(f, mem, h, hd)
  {
    hide Holds, WF, Agree, LogOK, OwnChain, AppendLocal, WriteDatum, SetExt;
    var o := hd.pc.o;
    DatumOf(mem, o);
    var e := mem.disk.recs[o].datoff;
    var val := if hd.pc.D0? then Spaces(hd.pc.datlen - 1) else hd.op.data;
    DatumWritten(f, mem.disk, e, val);
    assert SetExt(mem.disk, e, val).recs == mem.disk.recs by { ExtAside(mem.disk, e, val); }
  }

  lemma ExtAside(d: Disk, e: nat, val: string)
    ensures SetExt(d, e, val).recs == d.recs
  {
  }

  /** A record written over one of the same length: blanked, or used again for a key of the same length. */
  lemma RecordMove(f: Files, mem: Mem, h: nat, hd: Hd)
    requires Shared(mem) && Local(mem, h, hd) && Encodes(f, mem) && (hd.pc.D2? || hd.pc.RIdx?) && PlainKey(hd)
    ensures StillEncodes(f, mem, h, hd)
  {
    hide Holds, WF, Agree, LogOK, OwnChain, AppendLocal, WriteRecord, Fits, Size, Format;
    var o := hd.pc.o;
    SharedHead(f, mem, hd);
    RecFits(f.idx, f.dat, mem.disk, o);
    var r := if hd.pc.D2? then Rec(hd.pc.free, Spaces(|hd.op.key|), hd.pc.datoff, hd.pc.datlen)
             else Rec(hd.pc.next, hd.op.key, hd.pc.datoff, |hd.op.data| + 1);
    SameSize(mem.disk.recs[o], r);
    RecordWritten(f, mem.disk, o, r);
    RecordInside(f, mem.disk, o);
  }

  /** The pointer the new record gets was read from a head. */
  lemma SharedHead(f: Files, mem: Mem, hd: Hd)
    requires Shared(mem) && Encodes(f, mem)
    ensures HeadOf(mem, 0) <= PTR_MAX && HeadOf(mem, ListOf(hd.op.key)) <= PTR_MAX
  {
    HeadFits(f, mem, 0);
    HeadFits(f, mem, ListOf(hd.op.key));
  }

  lemma RecordInside(f: Files, d: Disk, o: nat)
    requires Holds(f.idx, f.dat, d) && o in d.recs
    ensures o < |f.idx|
  {
    assert RecHolds(f.idx, o, d.recs[o]);
  }

  lemma PtrAside(d: Disk, cell: nat, p: nat)
    requires IsCell(d, cell)
    ensures SetPtr(d, cell, p).recs.Keys == d.recs.Keys
  {
  }

  /** The pointers a deletion writes. */
  lemma FreeingMove(f: Files, mem: Mem, h: nat, hd: Hd)
    requires Shared(mem) && Local(mem, h, hd) && Encodes(f, mem) && (hd.pc.D3? || hd.pc.D4?)
    ensures StillEncodes(f, mem, h, hd)
  {
    hide Holds, Agree, LogOK, OwnChain, AppendLocal, WritePointer, SetPtr, Digits, LinkedExcept;
    hide AllMembers, AllLinks, AllRecs, AllKeys, DataDistinct;
    var l := ListOf(hd.op.key);
    CellInFile(mem.disk, mem.ix, mem.stale.Keys, 0, 0);
    var cell, p := if hd.pc.D3? then FREE_OFF else hd.pc.ptroff, if hd.pc.D3? then hd.pc.o else hd.pc.next;
    CellInFile(mem.disk, mem.ix, mem.stale.Keys, l, hd.pc.k);
    PointerFits(f, mem, l, hd.pc.k);
    assert |mem.ix.lists| == LISTS by { Sized(mem); }
    PointerWritten(f, mem.disk, cell, p);
    PtrAside(mem.disk, cell, p);
  }

  lemma Sized(mem: Mem)
    requires Shared(mem)
    ensures |mem.ix.lists| == LISTS && |mem.disk.heads| == LISTS
  {
  }

  /** The pointers of a store: past the free record it takes, and to the record it links. */
  lemma LinkingMove(f: Files, mem: Mem, h: nat, hd: Hd)
    requires Shared(mem) && Local(mem, h, hd) && Encodes(f, mem) && (hd.pc.FTake? || hd.pc.Link?)
    ensures StillEncodes(f, mem, h, hd)
  {
    hide Holds, Agree, LogOK, OwnChain, DeleteLocal, WritePointer, SetPtr, Digits;
    hide AllMembers, AllLinks, AllRecs, AllKeys, DataDistinct;
    var l := if hd.pc.FTake? then 0 else ListOf(hd.op.key);
    Sized(mem);
    var k := if hd.pc.FTake? then hd.pc.k else 0;
    CellInFile(mem.disk, mem.ix, mem.stale.Keys, l, k);
    RecFits(f.idx, f.dat, mem.disk, hd.pc.o);
    var cell, p := if hd.pc.FTake? then hd.pc.save else Chain(hd.op), if hd.pc.FTake? then hd.pc.fnext else hd.pc.o;
    PointerWritten(f, mem.disk, cell, p);
    PtrAside(mem.disk, cell, p);
  }

  /** Data and records at the ends of the files. */
  lemma AppendMove(f: Files, mem: Mem, h: nat, hd: Hd)
    requires Shared(mem) && Local(mem, h, hd) && Encodes(f, mem) && PlainKey(hd) && (hd.pc.AWrite? || hd.pc.XWrite?)
    requires hd.pc.XWrite? && hd.op.Store? ==> hd.pc.o <= PTR_MAX && DbSteps.Sizable(hd.op.key, hd.pc.e, hd.op.data)
    ensures StillEncodes(f, mem, h, hd)
  {
    hide Holds, WF, Agree, LogOK, OwnChain, DeleteLocal, WriteDatum, WriteRecord, Fits, Size, DbSteps.Sizable;
    if hd.pc.AWrite? {
      DatumWritten(f, mem.disk, hd.pc.e, hd.op.data);
      ExtAside(mem.disk, hd.pc.e, hd.op.data);
    } else {
      SharedHead(f, mem, hd);
      DbSteps.SizableFits(hd.op.key, hd.pc.e, hd.op.data, hd.pc.next);
      RecordWritten(f, mem.disk, hd.pc.o, Rec(hd.pc.next, hd.op.key, hd.pc.e, |hd.op.data| + 1));
    }
  }

  predicate Writing(hd: Hd) {
    || hd.pc.D0? || hd.pc.D2? || hd.pc.D3? || hd.pc.D4? || hd.pc.FTake? || hd.pc.RDat? || hd.pc.RIdx?
    || hd.pc.AWrite? || hd.pc.XWrite? || hd.pc.Link?
    || (hd.pc.Hit? && hd.op.Store? && hd.op.flag != Db.DB_INSERT && |hd.op.data| + 1 == hd.pc.datlen)
  }

  /** All other moves write nothing. */
  lemma QuietMove(f: Files, mem: Mem, h: nat, hd: Hd)
    requires Encodes(f, mem) && !Writing(hd)
    ensures StillEncodes(f, mem, h, hd)
  {
    hide Holds, SetPtr, SetRec, SetExt;
    assert Mem1(mem, h, hd).disk == mem.disk && Mem1(mem, h, hd).datEnd == mem.datEnd &&
      Mem1(mem, h, hd).idxEnd == mem.idxEnd;
    assert Wrote(f, hd.op, hd.pc) == f;
  }

  lemma AnyMove(f: Files, mem: Mem, h: nat, hd: Hd)
    requires Shared(mem) && Local(mem, h, hd) && Encodes(f, mem) && PlainKey(hd)
    requires hd.pc.XWrite? && hd.op.Store? ==> hd.pc.o <= PTR_MAX && DbSteps.Sizable(hd.op.key, hd.pc.e, hd.op.data)
    ensures StillEncodes(f, mem, h, hd)
  {
    hide Shared, Local, Encodes, StillEncodes, DbSteps.Sizable;
    if !Writing(hd) {
      QuietMove(f, mem, h, hd);
    } else if hd.pc.D0? || hd.pc.RDat? || hd.pc.Hit? {
      DatumMove(f, mem, h, hd);
    } else if hd.pc.D2? || hd.pc.RIdx? {
      RecordMove(f, mem, h, hd);
    } else if hd.pc.D3? || hd.pc.D4? {
      FreeingMove(f, mem, h, hd);
    } else if hd.pc.AWrite? || hd.pc.XWrite? {
      AppendMove(f, mem, h, hd);
    } else {
      LinkingMove(f, mem, h, hd);
    }
  }

  // ---------- what holds in every run ----------

  lemma {:induction false} KeysPlain(states: seq<Sys>, moves: seq<Move>, n: nat, h: nat)
    requires IsRun(states, moves) && n <= |moves| && h in states[n].hs
    ensures PlainKey(states[n].hs[h])
  {
    if n > 0 {
      assert Reaches(states[n - 1], moves[n - 1], states[n]);
      KeysPlain(states, moves, n - 1, h);
    }
  }

  ghost predicate PlainKeys(d: Disk) {
    forall o :: o in d.recs ==> SEP !in d.recs[o].key
  }

  lemma PlainRec(d: Disk, o: nat, r: Rec)
    requires PlainKeys(d) && SEP !in r.key
    ensures PlainKeys(SetRec(d, o, r))
  {
  }

  lemma PlainPtr(d: Disk, cell: nat, p: nat)
    requires PlainKeys(d) && IsCell(d, cell)
    ensures PlainKeys(SetPtr(d, cell, p))
  {
  }

  lemma PlainExt(d: Disk, e: nat, val: string)
    requires PlainKeys(d)
    ensures PlainKeys(SetExt(d, e, val))
  {
  }

  lemma MovePlain(mem: Mem, h: nat, hd: Hd)
    requires PlainKeys(mem.disk) && PlainKey(hd)
    ensures PlainKeys(Mem1(mem, h, hd).disk)
  {
    hide PlainKeys, SetRec, SetExt, SetPtr, IsCell, PtrAt;
    var d, op := mem.disk, hd.op;
    match hd.pc
    case D0(_, _, _, _, datoff, datlen) =>
      if datlen >= 1 { PlainExt(d, datoff, Spaces(datlen - 1)); }
    case D2(_, _, o, _, datoff, datlen, free, _) => PlainRec(d, o, Rec(free, Spaces(|op.key|), datoff, datlen));
    case D3(_, _, o, _, _) => if IsCell(d, FREE_OFF) { PlainPtr(d, FREE_OFF, o); }
    case D4(_, ptroff, _, next, _) => if IsCell(d, ptroff) { PlainPtr(d, ptroff, next); }
    case FTake(_, _, save, _, fnext, _) => if IsCell(d, save) { PlainPtr(d, save, fnext); }
    case Link(o, _, _) => if IsCell(d, Chain(op)) { PlainPtr(d, Chain(op), o); }
    case RIdx(next, o, datoff) => if op.Store? { PlainRec(d, o, Rec(next, op.key, datoff, |op.data| + 1)); }
    case XWrite(next, e, o, _, _) => if op.Store? { PlainRec(d, o, Rec(next, op.key, e, |op.data| + 1)); }
    case RDat(_, _, datoff) => if op.Store? { PlainExt(d, datoff, op.data); }
    case AWrite(_, e, _, _) => if op.Store? { PlainExt(d, e, op.data); }
    case Hit(_, _, _, _, datoff, _) => if op.Store? { PlainExt(d, datoff, op.data); }
    case _ =>
  }

  /** No record's key ever holds a separator, if no operation's does. */
  lemma {:induction false} RecordsPlain(states: seq<Sys>, moves: seq<Move>, n: nat)
    requires IsRun(states, moves) && n <= |moves|
    ensures PlainKeys(states[n].mem.disk)
  {
    if n > 0 {
      hide PlainKeys, Next, Exclusive;
      var s, mv := states[n - 1], moves[n - 1];
      assert Reaches(s, mv, states[n]);
      RecordsPlain(states, moves, n - 1);
      if mv.Go? {
        KeysPlain(states, moves, n - 1, mv.handle);
        MovePlain(s.mem, mv.handle, s.hs[mv.handle]);
      }
    } else {
      assert states[0].mem.disk.recs == map[];
    }
  }

  lemma PlainFronts(mem: Mem)
    requires WF(mem.disk, mem.ix, {}) && DbSteps.Reads(mem.disk, mem.ix, mem.m) && PlainKeys(mem.disk)
    ensures DbSteps.Fronts(mem.ix, mem.m)
  {
    forall x | x in mem.m ensures SEP !in x {
      assert KeyOK(mem.disk, mem.ix, x);
    }
  }

  /**
   While no append stops its program, the files are, to the last byte, the encoding of the
   shared state: a gap-free run of well-formed records behind the heads, and each datum in
   a place of its own.
  */
  lemma {:induction false} FilesKept(states: seq<Sys>, moves: seq<Move>, n: nat)
    requires IsRun(states, moves) && Roomy(states, moves, n)
    ensures Encodes(FilesAt(states, moves, n), states[n].mem)
  {
    if n == 0 {
      EmptyHolds();
    } else {
      hide Encodes;
      var s, mv := states[n - 1], moves[n - 1];
      assert Reaches(s, mv, states[n]) && HasRoom(s, mv);
      assert Roomy(states, moves, n - 1);
      FilesKept(states, moves, n - 1);
      if mv.Go? {
        RunKeeps(states, moves, n - 1);
        KeysPlain(states, moves, n - 1, mv.handle);
        AnyMove(FilesAt(states, moves, n - 1), s.mem, mv.handle, s.hs[mv.handle]);
      }
    }
  }

  /**
   When no operation is under way, the files are in a state that one handle alone could
   leave: bytes, structure and map are as a valid handle has them.
  */
  lemma QuietIsSettled(states: seq<Sys>, moves: seq<Move>, n: nat)
    requires IsRun(states, moves) && n <= |moves|
    requires forall h :: h in states[n].hs ==> !HasChain(states[n].hs[h])
    ensures var mem := states[n].mem;
            && WF(mem.disk, mem.ix, {}) && DbSteps.Whole(mem.ix)
            && DbSteps.Reads(mem.disk, mem.ix, mem.m) && DbSteps.Fronts(mem.ix, mem.m)
    ensures Roomy(states, moves, n) ==>
              var f := FilesAt(states, moves, n); Holds(f.idx, f.dat, states[n].mem.disk)
  {
    RunKeeps(states, moves, n);
    NothingOpen(states[n].mem, states[n].hs);
    QuietReads(states[n].mem);
    RecordsPlain(states, moves, n);
    PlainFronts(states[n].mem);
    if Roomy(states, moves, n) { FilesKept(states, moves, n); }
  }

  /**
   At every moment, whatever is under way, each record and each pointer reads back from the bytes as
   the moves take it.
  */
  lemma ReadsBytes(states: seq<Sys>, moves: seq<Move>, n: nat)
    requires IsRun(states, moves) && Roomy(states, moves, n)
    ensures var f := FilesAt(states, moves, n); var d := states[n].mem.disk;
            && (forall o :: o in d.recs ==>
                 var r := d.recs[o]; ReadRecord(f.idx, o) == Parsed(r.next, r.key, r.datoff, r.datlen, o + Size(r)))
            && (forall c: nat :: IsCell(d, c) ==> c + PTR_SZ <= |f.idx| && Atol(f.idx[c..c + PTR_SZ]) == PtrAt(d, c))
            && (forall e :: e in d.ext ==>
                 e + |d.ext[e]| + 1 <= |f.dat| && f.dat[e..e + |d.ext[e]| + 1] == d.ext[e] + [NEWLINE])
  {
    FilesKept(states, moves, n);
    RecordsPlain(states, moves, n);
    var f, d := FilesAt(states, moves, n), states[n].mem.disk;
    hide Holds, ReadRecord;
    forall o | o in d.recs
      ensures var r := d.recs[o]; ReadRecord(f.idx, o) == Parsed(r.next, r.key, r.datoff, r.datlen, o + Size(r))
    {
      ReadRecBack(f.idx, f.dat, d, o);
    }
    forall c: nat | IsCell(d, c) ensures c + PTR_SZ <= |f.idx| && Atol(f.idx[c..c + PTR_SZ]) == PtrAt(d, c) {
      ReadCellBack(f.idx, f.dat, d, c);
    }
    forall e | e in d.ext
      ensures e + |d.ext[e]| + 1 <= |f.dat| && f.dat[e..e + |d.ext[e]| + 1] == d.ext[e] + [NEWLINE]
    {
      ReadExtBack(f.idx, f.dat, d, e);
    }
  }
}
