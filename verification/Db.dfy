/**
 A database handle: the two files, the fields every operation overwrites, and the
 operations themselves, against the string map the files stand for.
 Locks are the subject of DbLocks; here one handle works alone.
*/
module Db {
  import opened DbFormat
  import opened DbDisk
  import opened DbIndex
  import opened DbScan
  import opened DbSteps

  const DB_INSERT: int := 1
  const DB_REPLACE: int := 2
  const DB_STORE: int := 3

  datatype Whence = SeekSet | SeekEnd
  datatype Option<+T> = None | Some(value: T)

  /** What a call gives back, unless it stops the program. */
  datatype Outcome<+T> = Done(value: T) | Stopped {
    predicate IsFailure() { Stopped? }

    function PropagateFailure<U>(): Outcome<U>
      requires Stopped?
    {
      Stopped
    }

    function Extract(): T
      requires Done?
    {
      value
    }
  }

  predicate ValidLength(data: string) { DATALEN_MIN <= |data| + 1 <= DATALEN_MAX }

  predicate ValidFlag(flag: int) {
    flag == DB_INSERT || flag == DB_REPLACE || flag == DB_STORE
  }

  /** The map after a store, and the value the call returns. */
  function StoreSpec(m: map<string, string>, key: string, data: string, flag: int): (map<string, string>, int) {
    if !ValidFlag(flag) then (m, -1)
    else if key !in m && flag == DB_REPLACE then (m, -1)
    else if key in m && flag == DB_INSERT then (m, 1)
    else (m[key := data], 0)
  }

  /** Which keys a store writes, and what it returns, case by case. */
  lemma StoreCases(m: map<string, string>, key: string, data: string, flag: int)
    ensures var (m', rc) := StoreSpec(m, key, data, flag);
            && (key in m && (flag == DB_REPLACE || flag == DB_STORE) ==> rc == 0 && m' == m[key := data])
            && (key !in m && (flag == DB_INSERT || flag == DB_STORE) ==> rc == 0 && m' == m[key := data])
            && (key in m && flag == DB_INSERT ==> rc == 1 && m' == m)
            && (key !in m && flag == DB_REPLACE ==> rc == -1 && m' == m)
            && (flag != DB_INSERT && flag != DB_REPLACE && flag != DB_STORE ==> rc == -1 && m' == m)
  {
  }

  method Blanks(n: nat) returns (s: string)
    ensures s == Spaces(n)
  {
    s := "";
    var i := 0;
    while i < n
      invariant 0 <= i <= n && s == Spaces(i)
    {
      s := s + [SPACE];
      i := i + 1;
    }
  }

  class Handle {
    // the files and the read position of the index file
    var idx: string
    var dat: string
    var idxpos: nat
    // buffers and fields of the handle
    var idxbuf: string
    var datbuf: string
    var idxoff: nat
    var datoff: nat
    var datlen: nat
    var ptrval: nat
    var ptroff: nat
    var chainoff: nat
    // what the files hold, how the records are linked, and the map they stand for
    ghost var disk: Disk
    ghost var ix: Index
    ghost var contents: map<string, string>

    /** The bytes of both files are exactly the encoding of disk. */
    ghost predicate Phys()
      reads this
    {
      Holds(idx, dat, disk)
    }

    ghost predicate Valid()
      reads this
    {
      Phys() && WF(disk, ix, {}) && Placed(ix) && Reads(disk, ix, contents) && Fronts(ix, contents)
    }

    /** The handle's fields describe record o. */
    ghost predicate AtRecord(o: nat)
      reads this
    {
      && o in disk.recs && idxoff == o && idxbuf == disk.recs[o].key && ptrval == disk.recs[o].next
      && datoff == disk.recs[o].datoff && datlen == disk.recs[o].datlen
    }

    /** Opening with O_CREAT and O_TRUNC: the index file gets its header of zeros. */
    constructor ()
      ensures Valid() && contents == map[] && idxpos == HEADER
      ensures |idx| == HEADER && dat == "" && Whole(ix)
    {
      idx := EmptyHeader(NHASH + 1) + [NEWLINE];
      dat := "";
      idxbuf, datbuf := "", "";
      idxoff, datoff, datlen, ptrval, ptroff, chainoff, idxpos := 0, 0, 0, 0, 0, 0, 0;
      disk, ix, contents := EmptyDisk(), NoIndex(), map[];
      new;
      EmptyHolds();
      EmptyWF();
      Rewind();
    }

    /** Opening the files another handle has left, even one whose program was stopped. */
    constructor Open(other: Handle)
      requires other.Valid()
      ensures Valid() && contents == other.contents && idxpos == HEADER
      ensures idx == other.idx && dat == other.dat && disk == other.disk && ix == other.ix
    {
      hide Holds, WF, Reads, Placed, Fronts;
      idx, dat := other.idx, other.dat;
      idxbuf, datbuf := "", "";
      idxoff, datoff, datlen, ptrval, ptroff, chainoff, idxpos := 0, 0, 0, 0, 0, 0, 0;
      disk, ix, contents := other.disk, other.ix, other.contents;
      new;
      Rewind();
    }

    // ---------- reading and writing the files ----------

    method ReadPtr(offset: nat) returns (p: nat)
      requires Phys() && IsCell(disk, offset)
      modifies this`idxpos
      ensures p == PtrAt(disk, offset) && p <= PTR_MAX
    {
      hide Holds;
      ReadCellBack(idx, dat, disk, offset);
      idxpos := offset + PTR_SZ;
      p := Atol(idx[offset..offset + PTR_SZ]);
    }

    /**
     Offset 0 reads at the current position, where the end of the file is no error. A key
     with a separator is one.
    */
    method ReadIdx(offset: nat) returns (r: Outcome<int>)
      requires Phys() && (offset == 0 || offset in disk.recs)
      requires offset == 0 ==> idxpos == |idx| || idxpos in disk.recs
      modifies this`idxpos, this`idxbuf, this`idxoff, this`datoff, this`datlen, this`ptrval
      ensures offset == 0 && old(idxpos) == |idx| ==> r == Done(-1) && idxpos == old(idxpos)
      ensures offset != 0 || old(idxpos) != |idx| ==>
                var o := if offset == 0 then old(idxpos) else offset;
                if SEP in disk.recs[o].key then r == Stopped
                else AtRecord(o) && r == Done(ptrval) && idxpos == o + Size(disk.recs[o])
    {
      hide Holds, ReadRecord;
      var pos := if offset == 0 then idxpos else offset;
      idxoff := pos;
      ReadEnd(idx, dat, disk);
      if pos in disk.recs {
        ReadRecBack(idx, dat, disk, pos);
      }
      var rec := ReadRecord(idx, pos);
      match rec
      case Eof => r := Done(-1);
      case Corrupt => r := Stopped;
      case Parsed(next, key, off, len, end) =>
        ptrval, idxbuf, datoff, datlen, idxpos := next, key, off, len, end;
        r := Done(ptrval);
    }

    method ReadDat() returns (s: string)
      requires Phys() && datoff in disk.ext && |disk.ext[datoff]| + 1 == datlen
      modifies this`datbuf
      ensures s == datbuf == disk.ext[datoff]
    {
      hide Holds;
      ReadExtBack(idx, dat, disk, datoff);
      var bytes := dat[datoff..datoff + datlen];
      assert bytes[datlen - 1] == NEWLINE;
      datbuf := bytes[..datlen - 1];
      s := datbuf;
    }

    method WriteDat(data: string, offset: nat, whence: Whence)
      requires Phys()
      requires whence == SeekSet ==> offset in disk.ext && |data| == |disk.ext[offset]|
      modifies this`dat, this`datoff, this`datlen, this`disk
      ensures Phys() && disk == SetExt(old(disk), datoff, data)
      ensures datlen == |data| + 1
      ensures whence == SeekSet ==> datoff == offset && |dat| == old(|dat|)
      ensures whence == SeekEnd ==>
                datoff == old(|dat|) && datoff !in old(disk).ext && |dat| == old(|dat|) + |data| + 1
    {
      hide Holds, Splice;
      datoff := if whence == SeekSet then offset else |dat|;
      WriteExtBack(idx, dat, disk, datoff, data);
      datlen := |data| + 1;
      dat := Splice(dat, datoff, data + [NEWLINE]);
      disk := SetExt(disk, datoff, data);
    }

    /** The record to write: its data fields are the handle's. */
    function NewRec(key: string, next: nat): Rec
      reads this
    {
      Rec(next, key, datoff, datlen)
    }

    /** A record that does not fit stops the program before anything is written. */
    method WriteIdx(key: string, offset: nat, whence: Whence, next: nat) returns (r: Outcome<()>)
      requires Phys() && 1 <= datlen <= DATALEN_MAX
      requires whence == SeekSet ==>
                 offset in disk.recs && Fits(NewRec(key, next)) && Size(NewRec(key, next)) == Size(disk.recs[offset])
      modifies this`idx, this`idxbuf, this`idxoff, this`idxpos, this`ptrval, this`disk
      ensures r == if old(Fits(NewRec(key, next))) then Done(()) else Stopped
      ensures Phys() && disk == if r.Done? then SetRec(old(disk), idxoff, old(NewRec(key, next))) else old(disk)
      ensures r.Done? && whence == SeekSet ==> idxoff == offset && |idx| == old(|idx|)
      ensures r.Done? && whence == SeekEnd ==>
                && HEADER <= idxoff == old(|idx|) && idxoff !in old(disk).recs
                && |idx| == old(|idx|) + Size(NewRec(key, next))
      ensures r.Stopped? ==> idx == old(idx)
    {
      hide Holds, Splice, Format;
      ptrval := next;
      if next > PTR_MAX {
        return Stopped;
      }
      var rec := NewRec(key, next);
      idxbuf := Body(rec);
      if !(IDXLEN_MIN <= |idxbuf| <= IDXLEN_MAX) {
        return Stopped;
      }
      idxoff := if whence == SeekSet then offset else |idx|;
      WriteRecBack(idx, dat, disk, idxoff, rec);
      idx := Splice(idx, idxoff, Format(rec));
      idxpos := idxoff + Size(rec);
      disk := SetRec(disk, idxoff, rec);
      r := Done(());
    }

    /** A pointer that is too large stops the program before it is written. */
    method WritePtr(offset: nat, p: nat) returns (r: Outcome<()>)
      requires Phys() && IsCell(disk, offset)
      modifies this`idx, this`idxpos, this`disk
      ensures r == if p <= PTR_MAX then Done(()) else Stopped
      ensures Phys() && |idx| == old(|idx|)
      ensures disk == if r.Done? then SetPtr(old(disk), offset, p) else old(disk)
    {
      hide Holds, Digits;
      if p > PTR_MAX {
        return Stopped;
      }
      WriteCellBack(idx, dat, disk, offset, p);
      idx := Splice(idx, offset, Pad(PTR_SZ, Digits(p)));
      idxpos := offset + PTR_SZ;
      disk := SetPtr(disk, offset, p);
      r := Done(());
    }

    method Rewind()
      modifies this`idxoff, this`idxpos
      ensures idxpos == idxoff == HEADER
    {
      idxoff := (NHASH + 1) * PTR_SZ + 1;
      idxpos := idxoff;
    }

    // ---------- searching ----------

    ghost function Chain(l: nat): seq<nat>
      requires l < LISTS && WF(disk, ix, {})
      reads this
    {
      ix.lists[l]
    }

    /** Walks the key's chain; on success k is the record's position on it. A jammed chain stops the walk. */
    method FindAndLock(key: string) returns (rc: Outcome<int>, ghost k: nat)
      requires Valid()
      modifies this`idxpos, this`idxbuf, this`idxoff, this`datoff, this`datlen, this`ptrval, this`ptroff, this`chainoff
      ensures chainoff == PTR_SZ * ListOf(key) == 7 + 7 * Hash(key) && |ix.lists| == LISTS
      ensures rc == if Jammed(contents, key) then Stopped else Done(if key in contents then 0 else -1)
      ensures rc == Done(0) ==>
                && k < |ix.lists[ListOf(key)]| && AtRecord(ix.lists[ListOf(key)][k])
                && idxbuf == key && ptroff == CellOf(ListOf(key), ix.lists[ListOf(key)], k)
                && key in ix.at && ix.at[key] == idxoff
    {
      hide Holds, WF, Reads, Placed, Fronts, Jammed;
      ListCount(disk, ix);
      FrontStops(disk, ix, contents, key);
      ghost var l := ListOf(key);
      ghost var p := Chain(l);
      chainoff := Hash(key) * PTR_SZ + HASH_OFF;
      ptroff := chainoff;
      k := 0;
      LinkOf(disk, ix, l, 0);
      var offset := ReadPtr(ptroff);
      while offset != 0
        invariant chainoff == PTR_SZ * l
        invariant k <= |p| && ptroff == CellOf(l, p, k) && offset == ValOf(p, k)
        invariant k > 0 ==> !Jammed(contents, key)
        invariant forall j :: 0 <= j < k ==> !HasKey(disk, p[j], key)
        decreases |p| - k
      {
        LinkOf(disk, ix, l, k);
        var nextoffset :- ReadIdx(offset);
        if idxbuf == key {
          break;
        }
        LinkOf(disk, ix, l, k + 1);
        ptroff := offset;
        offset := nextoffset;
        k := k + 1;
      }
      LinkOf(disk, ix, l, k);
      KeyKnown(disk, ix, contents, key, k);
      rc := Done(if offset == 0 then -1 else 0);
    }

    /** Walks the free list for a record of these lengths and unlinks it. */
    method FindFree(keylen: nat, wanted: nat) returns (rc: Outcome<int>)
      requires Valid()
      modifies this`idx, this`idxpos, this`idxbuf, this`idxoff, this`datoff, this`datlen, this`ptrval, this`disk,
        this`ix
      ensures Phys() && |idx| == old(|idx|) && Reads(disk, ix, contents) && Fronts(ix, contents)
      ensures rc == Done(if old(FreeSlot(disk, ix, keylen, wanted)) then 0 else -1)
      ensures |old(ix).lists| == LISTS
      ensures forall o ::
                (&& o in old(ix).lists[0] && o in old(disk).recs
                 && |old(disk).recs[o].key| == keylen && old(disk).recs[o].datlen == wanted) ==> rc == Done(0)
      ensures rc == Done(0) ==>
                idxoff in disk.recs && |disk.recs[idxoff].key| == keylen && disk.recs[idxoff].datlen == wanted
      ensures rc == Done(-1) ==> Valid() && disk == old(disk) && ix == old(ix) && idx == old(idx)
      ensures rc == Done(0) ==>
                && WF(disk, ix, {}) && Loose(ix, idxoff) && Fitting(disk, idxoff, keylen, wanted)
                && idxoff <= PTR_MAX && datoff == disk.recs[idxoff].datoff && datlen == wanted
                && ix.owner == old(ix).owner[idxoff := Held(0)]
                && |disk.heads| == |old(disk).heads| == LISTS
                && forall l :: 0 < l < LISTS ==> disk.heads[l] == old(disk).heads[l]
    {
      hide Holds, WF, Reads, Placed, Fronts;
      ListCount(disk, ix);
      SlotsFit(disk, ix, keylen, wanted);
      ghost var p := ix.lists[0];
      var saveoffset: nat := FREE_OFF;
      ghost var k := 0;
      LinkOf(disk, ix, 0, 0);
      var offset := ReadPtr(saveoffset);
      while offset != 0
        invariant disk == old(disk) && ix == old(ix) && idx == old(idx)
        invariant k <= |p| && saveoffset == CellOf(0, p, k) && offset == ValOf(p, k)
        invariant forall j :: 0 <= j < k ==> !Fitting(disk, p[j], keylen, wanted)
        decreases |p| - k
      {
        LinkOf(disk, ix, 0, k);
        FreePlain(disk, ix, k);
        var read := ReadIdx(offset);
        var nextoffset := read.value;
        if |idxbuf| == keylen && datlen == wanted {
          break;
        }
        LinkOf(disk, ix, 0, k + 1);
        saveoffset := offset;
        offset := nextoffset;
        k := k + 1;
      }
      LinkOf(disk, ix, 0, k);
      if offset == 0 {
        rc := Done(-1);
      } else {
        assert Fitting(disk, p[k], keylen, wanted);
        UnlinkStep(disk, ix, contents, k);
        ReadCellBack(idx, dat, disk, saveoffset);
        ReadCellBack(idx, dat, disk, offset);
        LinkOf(disk, ix, 0, k + 1);
        var unlinked := WritePtr(saveoffset, ptrval);
        assert unlinked.Done?;
        FrontsFree(ix, contents, Take(ix, 0, k, 0));
        ix := Take(ix, 0, k, 0);
        rc := Done(0);
      }
    }

    // ---------- the operations ----------

    /** Fetching returns the value stored under the key, or nothing. */
    method Fetch(key: string) returns (r: Outcome<Option<string>>)
      requires Valid()
      modifies this`idxpos, this`idxbuf, this`datbuf, this`idxoff, this`datoff, this`datlen, this`ptrval, this`ptroff,
        this`chainoff
      ensures Valid()
      ensures r == if Jammed(contents, key) then Stopped
                   else Done(if key in contents then Some(contents[key]) else None)
    {
      hide Holds, WF, Placed, Fronts, Jammed;
      var rc, k :- FindAndLock(key);
      if rc < 0 {
        r := Done(None);
      } else {
        assert HasValue(disk, idxoff, contents[key]);
        RecordFacts(disk, ix, idxoff);
        var s := ReadDat();
        r := Done(Some(s));
      }
    }

    /** Overwriting data and key with spaces, and the pointer with that to the first free record. */
    method Erase()
      requires Phys() && AtRecord(idxoff) && datlen >= 1 && datoff in disk.ext && |disk.ext[datoff]| + 1 == datlen
      requires disk.heads != [] && IsCell(Blanked(disk, idxoff), FREE_OFF)
      requires PtrAt(Blanked(disk, idxoff), FREE_OFF) == disk.heads[0]
      modifies this`idx, this`dat, this`idxpos, this`idxbuf, this`datbuf, this`idxoff, this`datoff, this`datlen,
        this`ptrval, this`disk
      ensures idxoff == old(idxoff) && Phys() && disk == Erased(old(disk), idxoff)
      ensures |idx| == old(|idx|) && |dat| == old(|dat|)
    {
      hide Holds, SetPtr, PtrAt, IsCell, Size, Format, Splice, Body, Spaces, Fits;
      RecFits(idx, dat, disk, idxoff);
      ghost var r := disk.recs[idxoff];
      datbuf := Blanks(datlen - 1);
      idxbuf := Blanks(|idxbuf|);
      WriteDat(datbuf, datoff, SeekSet);
      var freeptr := ReadPtr(FREE_OFF);
      SameSize(r, NewRec(idxbuf, freeptr));
      var written := WriteIdx(idxbuf, idxoff, SeekSet, freeptr);
      assert written.Done?;
    }

    method DoDelete(ghost key: string, ghost k: nat)
      requires Valid() && |ix.lists| == LISTS && !Jammed(contents, key)
      requires var p := ix.lists[ListOf(key)]; k < |p| && AtRecord(p[k]) && ptroff == CellOf(ListOf(key), p, k)
      requires idxbuf == key
      modifies this`idx, this`dat, this`idxpos, this`idxbuf, this`datbuf, this`idxoff, this`datoff, this`datlen,
        this`ptrval, this`disk, this`ix, this`contents
      ensures Valid() && contents == old(contents) - {key}
      ensures |idx| == old(|idx|) && |dat| == old(|dat|)
      ensures |ix.lists| == LISTS && ix.lists[0] == [old(idxoff)] + old(ix.lists)[0]
      ensures old(idxoff) in disk.recs && |disk.recs[old(idxoff)].key| == |key|
              && disk.recs[old(idxoff)].datlen == old(datlen)
      ensures old(Whole(ix)) ==> Whole(ix)
    {
      hide Holds, WF, Reads, Placed, SetPtr, PtrAt, IsCell, CellOf, ValOf, Deleted, Erased, Splice, Digits, Hash;
      hide Fronts, Jammed;
      ghost var l, o := ListOf(key), idxoff;
      RecFits(idx, dat, disk, o);
      ReadCellBack(idx, dat, disk, o);
      LinkOf(disk, ix, l, k);
      ReadCellBack(idx, dat, disk, ptroff);
      DeleteSteps(disk, ix, contents, l, k, o);
      FrontsDeleted(disk, ix, contents, key, k);
      FreedRecord(disk, ix, l, k, o);
      var saveptr := ptrval;
      Erase();
      var freed := WritePtr(FREE_OFF, idxoff);
      var closed := WritePtr(ptroff, saveptr);
      assert freed.Done? && closed.Done?;
      ix := Deleted(old(disk), ix, l, k);
      contents := contents - {key};
    }

    /** Deleting removes the key, or reports that it is missing. */
    method Delete(key: string) returns (rc: Outcome<int>)
      requires Valid()
      modifies this
      ensures Valid() && Touched(old(contents), contents, key)
      ensures rc == if Jammed(old(contents), key) then Stopped else Done(if key in old(contents) then 0 else -1)
      ensures contents == if rc.Stopped? then old(contents) else old(contents) - {key}
      ensures |idx| == old(|idx|) && |dat| == old(|dat|)
      ensures rc == Done(0) ==>
                && |ix.lists| == LISTS
                && exists o ::
                     && o in ix.lists[0] && o in disk.recs
                     && |disk.recs[o].key| == |key| && disk.recs[o].datlen == |old(contents)[key]| + 1
      ensures old(Whole(ix)) ==> Whole(ix)
    {
      hide Holds, WF, Reads, Placed, Fronts, Jammed, Whole;
      ListCount(disk, ix);
      var found, k :- FindAndLock(key);
      if found == 0 {
        KnownLength(disk, ix, contents, key);
        DoDelete(key, k);
        rc := Done(0);
      } else {
        assert contents - {key} == contents;
        rc := Done(-1);
      }
    }

    /** An append goes through: the index file has not grown too long, and the record fits. */
    predicate Room(key: string, data: string)
      reads this
    {
      |idx| <= PTR_MAX && Sizable(key, |dat|, data)
    }

    /** The files are longer by what an append writes; a record that does not fit is not written. */
    predicate Grown(idxlen: nat, datlen: nat, key: string, data: string, append: bool)
      reads this
    {
      && |dat| == datlen + (if append then |data| + 1 else 0)
      && |idx| == idxlen + if append && Sizable(key, datlen, data) then Length(key, datlen, data) else 0
    }

    /** A store that has to append: no live record of that length, and no free slot that fits a new key. */
    ghost predicate Appends(key: string, data: string, flag: int)
      requires Valid()
      reads this
    {
      if key in contents then flag != DB_INSERT && |contents[key]| != |data|
      else flag != DB_REPLACE && !FreeSlot(disk, ix, |key|, |data| + 1)
    }

    /** The store gets as far as its append, and that stops the program. */
    ghost predicate CutShort(key: string, data: string, flag: int)
      requires Valid()
      reads this
    {
      && ValidFlag(flag) && ValidLength(data) && !Jammed(contents, key)
      && Appends(key, data, flag) && !Room(key, data)
    }

    /** What stops a store: data of unfit length, a jammed chain, or an append without room. */
    ghost predicate Halts(key: string, data: string, flag: int)
      requires Valid()
      reads this
    {
      ValidFlag(flag) && (!ValidLength(data) || Jammed(contents, key) || CutShort(key, data, flag))
    }

    /** What stops a store, spelled out. */
    lemma HaltsWhen(key: string, data: string, flag: int)
      requires Valid() && |ix.lists| == LISTS
      ensures var line := |key| + |Digits(|dat|)| + |Digits(|data| + 1)| + 3;
              var jammed := exists x :: x in contents && SEP in x && Hash(x) == Hash(key);
              var reused := exists o :: && o in ix.lists[0] && o in disk.recs
                                        && |disk.recs[o].key| == |key| && disk.recs[o].datlen == |data| + 1;
              var appends := if key in contents then (flag == 2 || flag == 3) && |contents[key]| != |data|
                             else (flag == 1 || flag == 3) && !reused;
              Halts(key, data, flag) <==>
                && 1 <= flag <= 3
                && (|data| < 1 || |data| > 1023 || jammed || (appends && (|idx| > 999999 || line < 6 || line > 1024)))
    {
      hide Holds, WF, Reads, Placed, Fronts, FreeSlot;
      LineLength(key, |dat|, data);
      SlotsFit(disk, ix, |key|, |data| + 1);
      hide Sizable, Digits, Hash;
      assert Jammed(contents, key) <==> exists x :: x in contents && SEP in x && Hash(x) == Hash(key);
    }

    /**
     Data at the end of one file, its record at the end of the other, in front of the chain.
     A record that does not fit is not written, and one too far behind is not linked.
    */
    method Append(key: string, data: string, next: nat) returns (r: Outcome<()>)
      requires Valid() && |disk.heads| == LISTS && next == disk.heads[ListOf(key)] && ValidLength(data)
      requires key !in contents && !Jammed(contents, key) && chainoff == PTR_SZ * ListOf(key)
      modifies this`idx, this`dat, this`idxpos, this`idxbuf, this`idxoff, this`datoff, this`datlen, this`ptrval,
               this`disk, this`ix, this`contents
      ensures Valid()
      ensures r == if old(Room(key, data)) then Done(()) else Stopped
      ensures contents == if r.Done? then old(contents)[key := data] else old(contents)
      ensures Grown(old(|idx|), old(|dat|), key, data, true)
      ensures old(Whole(ix)) ==> (Whole(ix) <==> r.Done? || !old(Sizable(key, |dat|, data)))
    {
      hide Holds, WF, Reads, Placed, Size, Format, Splice, Body, Fronts, Jammed, Whole;
      hide Digits, Hash, SetPtr, Fits, Stored, FreeSlot, Sizable, Strand, Length;
      var l := ListOf(key);
      HeadCell(disk, ix, l);
      ReadCellBack(idx, dat, disk, chainoff);
      SizableFits(key, |dat|, data, next);
      ghost var d, g, e := disk, ix, |dat|;
      WriteDat(data, 0, SeekEnd);
      DataStep(d, g, contents, e, data);
      var _ :- WriteIdx(key, 0, SeekEnd, next);
      ghost var rec, o := NewRec(key, next), idxoff;
      StrandSteps(d, g, contents, o, rec, data);
      StoreSteps(d, g, contents, o, rec, data);
      ix := Strand(g, o);
      var _ :- WritePtr(chainoff, idxoff);
      ix := Stored(d, g, o, rec, data);
      WholeAgain(g, o, l, ix);
      contents := contents[key := data];
      r := Done(());
    }

    /** The record that FindFree took off the free list, written anew in front of the chain. */
    method Reuse(key: string, data: string, next: nat)
      requires Phys() && WF(disk, ix, {}) && Loose(ix, idxoff) && Reads(disk, ix, contents) && Fronts(ix, contents)
      requires key !in contents && !Jammed(contents, key)
      requires Fitting(disk, idxoff, |key|, |data| + 1) && idxoff <= PTR_MAX
      requires datoff == disk.recs[idxoff].datoff && datlen == |data| + 1
      requires chainoff == PTR_SZ * ListOf(key)
      requires |disk.heads| == LISTS && next == disk.heads[ListOf(key)]
      modifies this`idx, this`dat, this`idxpos, this`idxbuf, this`idxoff, this`datoff, this`datlen, this`ptrval,
               this`disk, this`ix, this`contents
      ensures Valid() && contents == old(contents)[key := data]
      ensures |idx| == old(|idx|) && |dat| == old(|dat|)
      ensures ix.owner == old(ix).owner[old(idxoff) := On(ListOf(key))]
    {
      hide Holds, WF, Reads, Placed, Size, Format, Splice, Body, Fronts, Jammed;
      hide Digits, Hash, SetPtr, Fits, Loose;
      var l := ListOf(key);
      ghost var d, g, o, rec := disk, ix, idxoff, NewRec(key, next);
      ListCount(d, g);
      RecordFacts(d, g, o);
      HeadCell(d, g, l);
      ReadCellBack(idx, dat, d, chainoff);
      RecFits(idx, dat, d, o);
      SameSize(d.recs[o], rec);
      StoreSteps(d, g, contents, o, rec, data);
      WriteDat(data, datoff, SeekSet);
      var written := WriteIdx(key, idxoff, SeekSet, next);
      var linked := WritePtr(chainoff, idxoff);
      assert written.Done? && linked.Done?;
      ix := Stored(d, g, o, rec, data);
      contents := contents[key := data];
    }

    /** A key that is not live: its record goes into a free slot that fits, or to the end. */
    method StoreNew(key: string, data: string) returns (r: Outcome<()>)
      requires Valid() && ValidLength(data) && chainoff == PTR_SZ * ListOf(key)
      requires key !in contents && !Jammed(contents, key) && |ix.lists| == LISTS
      modifies this`idx, this`dat, this`idxpos, this`idxbuf, this`idxoff, this`datoff, this`datlen, this`ptrval,
               this`disk, this`ix, this`contents
      ensures Valid()
      ensures r == if old(FreeSlot(disk, ix, |key|, |data| + 1) || Room(key, data)) then Done(()) else Stopped
      ensures contents == if r.Done? then old(contents)[key := data] else old(contents)
      ensures Grown(old(|idx|), old(|dat|), key, data, !old(FreeSlot(disk, ix, |key|, |data| + 1)))
      ensures forall o ::
                (&& o in old(ix).lists[0] && o in old(disk).recs
                 && |old(disk).recs[o].key| == |key| && old(disk).recs[o].datlen == |data| + 1) ==>
                |idx| == old(|idx|) && |dat| == old(|dat|)
      ensures old(Whole(ix)) ==> (Whole(ix) <==> r.Done? || !old(Sizable(key, |dat|, data)))
    {
      hide Holds, WF, Reads, Placed, FreeSlot, Sizable, Loose, Fronts, Jammed, Length;
      HeadCell(disk, ix, ListOf(key));
      var next := ReadPtr(chainoff);
      var free := FindFree(|key|, |data| + 1);
      if free.value < 0 {
        r := Append(key, data, next);
      } else {
        Reuse(key, data, next);
        r := Done(());
      }
    }

    /** A live key whose value has another length: its record goes to the free list, a new one to the end. */
    method StoreAnew(key: string, data: string, ghost k: nat) returns (r: Outcome<()>)
      requires Valid() && ValidLength(data) && |ix.lists| == LISTS && chainoff == PTR_SZ * ListOf(key)
      requires key in contents && !Jammed(contents, key) && idxbuf == key
      requires var p := ix.lists[ListOf(key)]; k < |p| && AtRecord(p[k]) && ptroff == CellOf(ListOf(key), p, k)
      modifies this`idx, this`dat, this`idxpos, this`idxbuf, this`datbuf, this`idxoff, this`datoff, this`datlen,
        this`ptrval, this`disk, this`ix, this`contents
      ensures Valid()
      ensures r == if old(Room(key, data)) then Done(()) else Stopped
      ensures contents == if r.Done? then old(contents)[key := data] else old(contents) - {key}
      ensures Grown(old(|idx|), old(|dat|), key, data, true)
      ensures old(Whole(ix)) ==> (Whole(ix) <==> r.Done? || !old(Sizable(key, |dat|, data)))
    {
      hide Holds, WF, Reads, Placed, FreeSlot, Sizable, Loose, Fronts, Jammed, Whole, Length;
      DoDelete(key, k);
      HeadCell(disk, ix, ListOf(key));
      var next := ReadPtr(chainoff);
      StillFree(old(contents), key);
      r := Append(key, data, next);
      assert old(contents)[key := data] == (old(contents) - {key})[key := data];
    }

    /**
     Storing gives the key its value and returns 0; an insert of a present key returns 1 and
     a replacement of a missing key -1, and both change nothing. A store that stops changes
     nothing either, but for one case: if it has to append and there is no room, a key that
     had a value of another length has lost it.
    */
    method Store(key: string, data: string, flag: int) returns (rc: Outcome<int>)
      requires Valid()
      modifies this
      ensures Valid() && Touched(old(contents), contents, key)
      ensures rc.Stopped? <==> old(Halts(key, data, flag))
      ensures rc.Done? && key in old(contents) && (flag == DB_REPLACE || flag == DB_STORE) ==>
                rc == Done(0) && contents == old(contents)[key := data]
      ensures rc.Done? && key !in old(contents) && (flag == DB_INSERT || flag == DB_STORE) ==>
                rc == Done(0) && contents == old(contents)[key := data]
      ensures rc.Done? && key in old(contents) && flag == DB_INSERT ==> rc == Done(1) && contents == old(contents)
      ensures rc.Done? && key !in old(contents) && flag == DB_REPLACE ==> rc == Done(-1) && contents == old(contents)
      ensures flag != DB_INSERT && flag != DB_REPLACE && flag != DB_STORE ==>
                rc == Done(-1) && contents == old(contents)
      ensures rc.Stopped? ==>
                contents == if old(CutShort(key, data, flag)) then old(contents) - {key} else old(contents)
      ensures rc == Done(0) || old(CutShort(key, data, flag)) ==>
                Grown(old(|idx|), old(|dat|), key, data, old(Appends(key, data, flag)))
      ensures rc != Done(0) && !old(CutShort(key, data, flag)) ==> idx == old(idx) && dat == old(dat)
      ensures forall o ::
                (&& key !in old(contents) && |old(ix).lists| == LISTS && o in old(ix).lists[0] && o in old(disk).recs
                 && |old(disk).recs[o].key| == |key| && old(disk).recs[o].datlen == |data| + 1) ==>
                |idx| == old(|idx|) && |dat| == old(|dat|)
      ensures old(Whole(ix)) ==>
                (Whole(ix) <==> !old(CutShort(key, data, flag) && Sizable(key, |dat|, data)))
    {
      hide Holds, WF, Reads, Placed, FreeSlot, Sizable, Loose, Fronts, Jammed, Whole, Length;
      if !ValidFlag(flag) {
        return Done(-1);
      }
      var keylen, newlen := |key|, |data| + 1;
      if newlen < DATALEN_MIN || newlen > DATALEN_MAX {
        return Stopped;
      }
      ListCount(disk, ix);
      var found, k :- FindAndLock(key);
      HeadCell(disk, ix, ListOf(key));
      if found < 0 {
        if flag == DB_REPLACE {
          return Done(-1);
        }
        var _ :- StoreNew(key, data);
      } else {
        if flag == DB_INSERT {
          return Done(1);
        }
        KnownLength(disk, ix, contents, key);
        if newlen != datlen {
          var _ :- StoreAnew(key, data, k);
        } else {
          OverwriteStep(disk, ix, contents, key, data);
          OverwriteFronts(ix, contents, key, data);
          WriteDat(data, datoff, SeekSet);
          contents := contents[key := data];
        }
      }
      rc := Done(0);
    }

    // ---------- reading all records in file order ----------

    ghost predicate Scanning()
      reads this
    {
      idxpos == |idx| || idxpos in disk.recs
    }

    ghost function Rest(): seq<(string, string)>
      reads this
    {
      Entries(disk, |idx|, idxpos)
    }

    /**
     The next record whose key is not blank, with its value; nothing at the end of the file.
     A key with a separator stops the program.
    */
    method NextRec() returns (r: Outcome<Option<(string, string)>>)
      requires Valid() && Scanning()
      modifies this`idxpos, this`idxbuf, this`datbuf, this`idxoff, this`datoff, this`datlen, this`ptrval
      ensures Valid()
      ensures r.Done? ==> Scanning()
      ensures old(Rest()) == [] ==> r == Done(None) && Rest() == []
      ensures old(Rest()) != [] ==>
                if SEP in old(Rest())[0].0 then r == Stopped
                else r == Done(Some(old(Rest())[0])) && Rest() == old(Rest())[1..]
      ensures r.Done? && r.value.Some? ==>
                && idxoff in disk.recs && r.value.value.0 == disk.recs[idxoff].key
                && disk.recs[idxoff].datoff in disk.ext && r.value.value.1 == disk.ext[disk.recs[idxoff].datoff]
                && exists i :: 0 <= i < |r.value.value.0| && r.value.value.0[i] != SPACE
      ensures r.Done? ==>
                var end := if r.value.Some? then idxoff else |idx|;
                forall o, i :: o in disk.recs && old(idxpos) <= o < end && 0 <= i < |disk.recs[o].key| ==>
                  disk.recs[o].key[i] == SPACE
    {
      hide Holds, WF, Reads, Placed, Fronts, ReadRecord, Size;
      ghost var before, from := Rest(), idxpos;
      while true
        invariant Scanning() && Rest() == before && from <= idxpos
        invariant forall o, i :: o in disk.recs && from <= o < idxpos && 0 <= i < |disk.recs[o].key| ==>
                    disk.recs[o].key[i] == SPACE
        decreases |idx| - idxpos
      {
        EntriesUnfold(idx, dat, disk, ix, idxpos);
        if idxpos in disk.recs { NextOffset(idx, dat, disk, idxpos); }
        var next :- ReadIdx(0);
        if next < 0 {
          return Done(None);
        }
        var i := 0;
        while i < |idxbuf| && idxbuf[i] == SPACE
          invariant 0 <= i <= |idxbuf| && forall j :: 0 <= j < i ==> idxbuf[j] == SPACE
        {
          i := i + 1;
        }
        if i < |idxbuf| {
          assert !IsBlank(idxbuf);
          break;
        }
      }
      RecordFacts(disk, ix, idxoff);
      var val := ReadDat();
      r := Done(Some((idxbuf, val)));
    }

    /** Rewinding and reading on until nothing comes, as the test program does. */
    method ReadAll() returns (r: Outcome<seq<(string, string)>>)
      requires Valid()
      modifies this`idxpos, this`idxbuf, this`datbuf, this`idxoff, this`datoff, this`datlen, this`ptrval
      ensures Valid()
      ensures r.Stopped? <==> exists e :: e in Entries(disk, |idx|, HEADER) && SEP in e.0
      ensures r.Done? ==> r.value == Entries(disk, |idx|, HEADER)
    {
      hide Holds, WF, Reads, Placed, Fronts, Entries;
      Rewind();
      FirstRecord(idx, dat, disk);
      ghost var entries := Entries(disk, |idx|, HEADER);
      var all: seq<(string, string)> := [];
      var e :- NextRec();
      while e.Some?
        invariant Valid() && Scanning()
        invariant entries == all + (if e.Some? then [e.value] else []) + Rest()
        invariant forall x :: x in all + (if e.Some? then [e.value] else []) ==> SEP !in x.0
        invariant e.None? ==> Rest() == []
        decreases |Rest()|, e.Some?
      {
        all := all + [e.value];
        e :- NextRec();
      }
      assert entries == all;
      r := Done(all);
    }

    /** Shown are the live keys and the records that an append without room has left behind. */
    method ScanAll() returns (r: Outcome<seq<(string, string)>>)
      requires Valid()
      modifies this`idxpos, this`idxbuf, this`datbuf, this`idxoff, this`datoff, this`datlen, this`ptrval
      ensures Valid()
      ensures r.Stopped? <==> exists key, val :: SEP in key && Shows(disk, ix, contents, key, val)
      ensures r.Done? ==> forall key, val ::
                (key, val) in r.value <==> !IsBlank(key) && Shows(disk, ix, contents, key, val)
      ensures r.Done? ==> forall key, i :: key in contents && 0 <= i < |key| && key[i] != SPACE ==>
                (key, contents[key]) in r.value
      ensures r.Done? ==> forall e :: e in r.value ==> exists i :: 0 <= i < |e.0| && e.0[i] != SPACE
      ensures Whole(ix) ==>
                && (forall key, val :: Shows(disk, ix, contents, key, val) <==> key in contents && contents[key] == val)
                && (r.Done? ==> forall i, j :: 0 <= i < j < |r.value| ==> r.value[i].0 != r.value[j].0)
    {
      hide Holds, WF, Reads, Placed, Fronts, Entries, IsBlank, Shows, Whole;
      r := ReadAll();
      ghost var entries := Entries(disk, |idx|, HEADER);
      ScanComplete(idx, dat, disk, ix, contents);
      NothingLost(disk, ix, contents);
      SeparatorsShow(disk, ix, contents, entries);
      VisibleShown(disk, ix, contents, entries);
    }
  }

  // ---------- several operations ----------

  /** What was stored is fetched, and other keys are fetched as before. */
  method StoreThenFetch(h: Handle, key: string, data: string, flag: int, other: string)
    returns (stored: Outcome<int>, own: Outcome<Option<string>>, before: Outcome<Option<string>>,
             after: Outcome<Option<string>>)
    requires h.Valid()
    modifies h
    ensures h.Valid()
    ensures stored == Done(0) && SEP !in key ==> own == Done(Some(data))
    ensures stored.Done? && SEP !in key && other != key ==> after == before
  {
    hide Handle.Valid, Touched, Whole, Jammed, Handle.Grown;
    before := h.Fetch(other);
    ghost var m := h.contents;
    stored := h.Store(key, data, flag);
    JamsOnly(m, key, data, key);
    JamsOnly(m, key, data, other);
    own := h.Fetch(key);
    after := h.Fetch(other);
  }

  /** The room of a deleted key is used again for a new key and value of the same lengths. */
  method Recycle(h: Handle, key: string, next: string, data: string)
    returns (deleted: Outcome<int>, stored: Outcome<int>)
    requires h.Valid() && key in h.contents
    requires next !in h.contents && |next| == |key| && |data| == |h.contents[key]|
    modifies h
    ensures h.Valid()
    ensures !Jammed(old(h.contents), key) && !Jammed(old(h.contents), next) && ValidLength(data) ==>
              && deleted == stored == Done(0) && h.contents == (old(h.contents) - {key})[next := data]
              && |h.idx| == old(|h.idx|) && |h.dat| == old(|h.dat|)
  {
    hide Handle.Valid, Touched, Whole, Jammed, FreeSlot;
    ghost var m := h.contents;
    deleted := h.Delete(key);
    JamsOnly(m, key, data, next);
    if |h.ix.lists| == LISTS { SlotsFit(h.disk, h.ix, |next|, |data| + 1); }
    stored := h.Store(next, data, DB_STORE);
  }

  // ---------- two inputs ----------

  /** A key with a separator is stored, and then neither it nor an innocent key of its chain can be read. */
  method SeparatorStops() returns (stored: Outcome<int>, own: Outcome<Option<string>>, other: Outcome<Option<string>>)
    ensures stored == Done(0) && own == Stopped && other == Stopped
  {
    hide Handle.Valid, Touched, Whole, Sizable;
    var h := new Handle();
    ShortFits();
    stored := h.Store(":b", "x", DB_STORE);
    SameChain(":b", "ab");
    assert ":b" in h.contents && ":b"[0] == SEP;
    own := h.Fetch(":b");
    h := new Handle.Open(h);
    other := h.Fetch("ab");
  }

  /** The first character of a key counts nothing in its hash. */
  lemma SameChain(a: string, b: string)
    requires |a| == |b| == 2 && a[1] == b[1]
    ensures ListOf(a) == ListOf(b)
  {
    assert HashFrom(a, 0, 0) == HashFrom(a, 1, 0) == HashFrom(b, 1, 0) == HashFrom(b, 0, 0);
  }

  lemma ShortFits()
    ensures Sizable(":b", 0, "x")
  {
  }

  /** A value replaced by a longer one for which its record has no room: key and value are gone. */
  method ReplaceLoses() returns (stored: Outcome<int>, replaced: Outcome<int>, found: Outcome<Option<string>>)
    ensures stored == Done(0) && replaced == Stopped && found == Done(None)
  {
    hide Handle.Valid, Touched, Whole, Sizable;
    var key := seq(1019, _ => 'k');
    var h := new Handle();
    LongKeys(key);
    stored := h.Store(key, "x", DB_STORE);
    assert h.contents == map[key := "x"];
    replaced := h.Store(key, "xxxxxxxxx", DB_REPLACE);
    h := new Handle.Open(h);
    found := h.Fetch(key);
  }

  lemma LongKeys(key: string)
    requires |key| == 1019
    ensures Sizable(key, 0, "x")
    ensures forall e :: 0 <= e < 10 ==> !Sizable(key, e, "xxxxxxxxx")
  {
  }
}
