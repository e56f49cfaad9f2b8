/**
 The two files of the database as text, and what they hold: a header of list
 heads followed by index records in one file, runs of data in the other.
*/
module DbDisk {
  import opened DbFormat

  /** Contents of the files: list heads, index records by offset, data by offset. */
  datatype Disk = Disk(heads: seq<nat>, recs: map<nat, Rec>, ext: map<nat, string>)

  // ---------- pointer cells ----------

  /** Offsets of the index file where a chain pointer lies: the heads and the records. */
  ghost predicate IsCell(d: Disk, off: nat) {
    off in d.recs || (off % PTR_SZ == 0 && off / PTR_SZ < |d.heads|)
  }

  function PtrAt(d: Disk, off: nat): nat
    requires IsCell(d, off)
  {
    if off in d.recs then d.recs[off].next else d.heads[off / PTR_SZ]
  }

  function SetPtr(d: Disk, off: nat, p: nat): Disk
    requires IsCell(d, off)
  {
    if off in d.recs then d.(recs := d.recs[off := d.recs[off].(next := p)])
    else d.(heads := d.heads[off / PTR_SZ := p])
  }

  function SetRec(d: Disk, off: nat, r: Rec): Disk {
    d.(recs := d.recs[off := r])
  }

  function SetExt(d: Disk, off: nat, val: string): Disk {
    d.(ext := d.ext[off := val])
  }

  // ---------- files ----------

  /** The effect of writing bytes at an offset of a file. */
  function Splice(file: string, off: nat, bytes: string): (r: string)
    requires off <= |file|
  {
    file[..off] + bytes + (if off + |bytes| <= |file| then file[off + |bytes|..] else "")
  }

  lemma SpliceSlices(file: string, off: nat, bytes: string, a: nat, b: nat)
    requires off <= |file| && a <= b <= |file| && (b <= off || off + |bytes| <= a)
    ensures b <= |Splice(file, off, bytes)| && Splice(file, off, bytes)[a..b] == file[a..b]
  {
  }

  lemma SpliceWritten(file: string, off: nat, bytes: string)
    requires off <= |file|
    ensures |Splice(file, off, bytes)| == if off + |bytes| <= |file| then |file| else off + |bytes|
    ensures Splice(file, off, bytes)[off..off + |bytes|] == bytes
  {
  }

  ghost predicate HeaderHolds(idx: string, heads: seq<nat>) {
    && |heads| == NHASH + 1
    && |idx| >= HEADER
    && idx[HEADER - 1] == NEWLINE
    && forall l :: 0 <= l <= NHASH ==>
         heads[l] <= PTR_MAX && idx[PTR_SZ * l..PTR_SZ * l + PTR_SZ] == Pad(PTR_SZ, Digits(heads[l]))
  }

  /** A record lies in the file at an offset. */
  ghost predicate RecHolds(idx: string, o: nat, r: Rec) {
    Fits(r) && HEADER <= o && o + Size(r) <= |idx| && idx[o..o + Size(r)] == Format(r)
  }

  /** Records lie one behind the other, without a gap, from the header to the end. */
  ghost predicate Tiled(recs: map<nat, Rec>, end: nat) {
    && (end == HEADER || HEADER in recs)
    && (forall o :: o in recs ==> o + Size(recs[o]) == end || o + Size(recs[o]) in recs)
    && (forall o, o' :: o in recs && o' in recs && o < o' ==> o + Size(recs[o]) <= o')
  }

  ghost predicate IdxHolds(idx: string, heads: seq<nat>, recs: map<nat, Rec>) {
    && HeaderHolds(idx, heads)
    && (forall o :: o in recs ==> RecHolds(idx, o, recs[o]))
    && Tiled(recs, |idx|)
  }

  ghost predicate ExtHolds(dat: string, e: nat, val: string) {
    e + |val| + 1 <= |dat| && dat[e..e + |val| + 1] == val + [NEWLINE]
  }

  ghost predicate DatHolds(dat: string, ext: map<nat, string>) {
    && (forall e :: e in ext ==> ExtHolds(dat, e, ext[e]))
    && (forall e, e' :: e in ext && e' in ext && e < e' ==> e + |ext[e]| + 1 <= e')
  }

  /** The files hold exactly these heads, records and data. */
  ghost predicate Holds(idx: string, dat: string, d: Disk) {
    IdxHolds(idx, d.heads, d.recs) && DatHolds(dat, d.ext)
  }

  // ---------- reading ----------

  /** Reading a pointer cell gives the pointer; the cell lies inside the file. */
  lemma ReadCell(idx: string, d: Disk, off: nat)
    requires IdxHolds(idx, d.heads, d.recs) && IsCell(d, off)
    ensures off + PTR_SZ <= |idx| && PtrAt(d, off) <= PTR_MAX
    ensures Atol(idx[off..off + PTR_SZ]) == PtrAt(d, off)
  {
    hide Digits, Tiled;
    var p := PtrAt(d, off);
    if off in d.recs {
      var r := d.recs[off];
      assert RecHolds(idx, off, r);
      PointerRoundTrip(p);
      assert idx[off..off + Size(r)][..PTR_SZ] == Format(r)[..PTR_SZ] == Pad(PTR_SZ, Digits(p));
      assert idx[off..off + Size(r)][..PTR_SZ] == idx[off..off + PTR_SZ];
    } else {
      var l := off / PTR_SZ;
      assert off == PTR_SZ * l;
      assert d.heads[l] <= PTR_MAX;
      PointerRoundTrip(p);
    }
  }

  /** Reading a record gives its fields, unless its key holds a separator; then the program stops. */
  lemma ReadBack(idx: string, o: nat, r: Rec)
    requires RecHolds(idx, o, r)
    ensures ReadRecord(idx, o)
            == if SEP in r.key then Corrupt else Parsed(r.next, r.key, r.datoff, r.datlen, o + Size(r))
  {
    assert idx == idx[..o] + Format(r) + idx[o + Size(r)..];
    RoundTrip(idx[..o], r, idx[o + Size(r)..]);
  }

  // ---------- writing ----------

  lemma HeaderKept(idx: string, heads: seq<nat>, off: nat, bytes: string)
    requires HeaderHolds(idx, heads) && HEADER <= off <= |idx|
    ensures HeaderHolds(Splice(idx, off, bytes), heads)
  {
    var s := Splice(idx, off, bytes);
    assert s[HEADER - 1] == idx[HEADER - 1];
    forall l | 0 <= l <= NHASH
      ensures s[PTR_SZ * l..PTR_SZ * l + PTR_SZ] == idx[PTR_SZ * l..PTR_SZ * l + PTR_SZ]
    {
      SpliceSlices(idx, off, bytes, PTR_SZ * l, PTR_SZ * l + PTR_SZ);
    }
  }

  lemma RecKept(idx: string, o: nat, r: Rec, off: nat, bytes: string)
    requires RecHolds(idx, o, r) && off <= |idx| && (o + Size(r) <= off || off + |bytes| <= o)
    ensures RecHolds(Splice(idx, off, bytes), o, r)
  {
    SpliceSlices(idx, off, bytes, o, o + Size(r));
  }

  /** Writing a record over one of the same size changes that record alone. */
  lemma WriteRec(idx: string, heads: seq<nat>, recs: map<nat, Rec>, o: nat, r: Rec)
    requires IdxHolds(idx, heads, recs) && o in recs
    requires Fits(r) && Size(r) == Size(recs[o])
    ensures o <= |idx| && IdxHolds(Splice(idx, o, Format(r)), heads, recs[o := r])
    ensures |Splice(idx, o, Format(r))| == |idx|
  {
    var s, recs' := Splice(idx, o, Format(r)), recs[o := r];
    assert RecHolds(idx, o, recs[o]);
    FormatSize(r);
    HeaderKept(idx, heads, o, Format(r));
    SpliceWritten(idx, o, Format(r));
    forall o' | o' in recs' ensures RecHolds(s, o', recs'[o']) {
      if o' != o {
        assert RecHolds(idx, o', recs[o']);
        RecKept(idx, o', recs[o'], o, Format(r));
      }
    }
    TiledKept(recs, |idx|, o, r);
  }

  lemma TiledKept(recs: map<nat, Rec>, end: nat, o: nat, r: Rec)
    requires Tiled(recs, end) && o in recs && Size(r) == Size(recs[o])
    ensures Tiled(recs[o := r], end)
  {
    var recs' := recs[o := r];
    forall p | p in recs' ensures p + Size(recs'[p]) == end || p + Size(recs'[p]) in recs' {
      assert p in recs;
    }
    forall p, p' | p in recs' && p' in recs' && p < p' ensures p + Size(recs'[p]) <= p' {
      assert p in recs && p' in recs;
    }
  }

  /** Appending a record adds it at the old end of the file. */
  lemma AppendRec(idx: string, heads: seq<nat>, recs: map<nat, Rec>, r: Rec)
    requires IdxHolds(idx, heads, recs) && Fits(r)
    ensures |idx| !in recs
    ensures IdxHolds(Splice(idx, |idx|, Format(r)), heads, recs[|idx| := r])
  {
    var o := |idx|;
    var s, recs' := Splice(idx, o, Format(r)), recs[o := r];
    FormatSize(r);
    HeaderKept(idx, heads, o, Format(r));
    SpliceWritten(idx, o, Format(r));
    forall o' | o' in recs' ensures RecHolds(s, o', recs'[o']) {
      if o' != o {
        assert RecHolds(idx, o', recs[o']);
        RecKept(idx, o', recs[o'], o, Format(r));
      }
    }
    TiledAppend(idx, recs, r);
  }

  lemma TiledAppend(idx: string, recs: map<nat, Rec>, r: Rec)
    requires Tiled(recs, |idx|) && |idx| >= HEADER
    requires forall o :: o in recs ==> RecHolds(idx, o, recs[o])
    ensures Tiled(recs[|idx| := r], |idx| + Size(r))
  {
    hide Format, Body, Fits;
    var recs' := recs[|idx| := r];
    forall p, p' | p in recs' && p' in recs' && p < p' ensures p + Size(recs'[p]) <= p' {
      if p in recs {
        assert RecHolds(idx, p, recs[p]);
      }
      if p' in recs {
        assert RecHolds(idx, p', recs[p']);
      }
    }
  }

  /** A record with another pointer differs in its first seven bytes only. */
  lemma FormatTail(r: Rec, p: nat)
    requires Fits(r) && p <= PTR_MAX
    ensures var r' := r.(next := p);
            && Fits(r') && Size(r') == Size(r) == |Format(r)|
            && Format(r') == Pad(PTR_SZ, Digits(p)) + Format(r)[PTR_SZ..]
  {
    hide Digits;
    var r' := r.(next := p);
    assert Body(r') == Body(r);
    FormatSize(r);
    PointerRoundTrip(r.next);
    assert Format(r)[PTR_SZ..] == Pad(IDXLEN_SZ, Digits(|Body(r)|)) + Body(r);
  }

  /** Overwriting the pointer field of a record is writing the record with that pointer. */
  lemma PointerField(idx: string, o: nat, r: Rec, p: nat)
    requires RecHolds(idx, o, r) && p <= PTR_MAX
    ensures var r' := r.(next := p);
            Fits(r') && Size(r') == Size(r) &&
            Splice(idx, o, Pad(PTR_SZ, Digits(p))) == Splice(idx, o, Format(r'))
  {
    FormatTail(r, p);
    PointerRoundTrip(p);
    var rest := Format(r)[PTR_SZ..];
    assert idx[o + PTR_SZ..o + Size(r)] == idx[o..o + Size(r)][PTR_SZ..] == rest;
    assert idx[o + PTR_SZ..] == rest + idx[o + Size(r)..];
  }

  lemma WriteHeader(idx: string, heads: seq<nat>, l: nat, p: nat)
    requires HeaderHolds(idx, heads) && l <= NHASH && p <= PTR_MAX
    ensures HeaderHolds(Splice(idx, PTR_SZ * l, Pad(PTR_SZ, Digits(p))), heads[l := p])
  {
    var bytes := Pad(PTR_SZ, Digits(p));
    PointerRoundTrip(p);
    var s, heads' := Splice(idx, PTR_SZ * l, bytes), heads[l := p];
    SpliceWritten(idx, PTR_SZ * l, bytes);
    SpliceSlices(idx, PTR_SZ * l, bytes, HEADER - 1, HEADER);
    assert s[HEADER - 1] == s[HEADER - 1..HEADER][0] == idx[HEADER - 1..HEADER][0];
    forall k | 0 <= k <= NHASH
      ensures s[PTR_SZ * k..PTR_SZ * k + PTR_SZ] == Pad(PTR_SZ, Digits(heads'[k]))
    {
      if k != l {
        SpliceSlices(idx, PTR_SZ * l, bytes, PTR_SZ * k, PTR_SZ * k + PTR_SZ);
      }
    }
  }

  lemma WriteHead(idx: string, heads: seq<nat>, recs: map<nat, Rec>, l: nat, p: nat)
    requires IdxHolds(idx, heads, recs) && l <= NHASH && p <= PTR_MAX
    ensures IdxHolds(Splice(idx, PTR_SZ * l, Pad(PTR_SZ, Digits(p))), heads[l := p], recs)
  {
    var bytes := Pad(PTR_SZ, Digits(p));
    PointerRoundTrip(p);
    WriteHeader(idx, heads, l, p);
    SpliceWritten(idx, PTR_SZ * l, bytes);
    forall o | o in recs ensures RecHolds(Splice(idx, PTR_SZ * l, bytes), o, recs[o]) {
      assert RecHolds(idx, o, recs[o]);
      RecKept(idx, o, recs[o], PTR_SZ * l, bytes);
    }
  }

  /** Writing a pointer cell changes that pointer alone. */
  lemma WriteCell(idx: string, d: Disk, off: nat, p: nat)
    requires IdxHolds(idx, d.heads, d.recs) && IsCell(d, off) && p <= PTR_MAX
    ensures off <= |idx|
    ensures var d' := SetPtr(d, off, p); IdxHolds(Splice(idx, off, Pad(PTR_SZ, Digits(p))), d'.heads, d'.recs)
    ensures |Splice(idx, off, Pad(PTR_SZ, Digits(p)))| == |idx|
  {
    PointerRoundTrip(p);
    ReadCell(idx, d, off);
    SpliceWritten(idx, off, Pad(PTR_SZ, Digits(p)));
    if off in d.recs {
      assert RecHolds(idx, off, d.recs[off]);
      PointerField(idx, off, d.recs[off], p);
      WriteRec(idx, d.heads, d.recs, off, d.recs[off].(next := p));
    } else {
      assert off == PTR_SZ * (off / PTR_SZ);
      WriteHead(idx, d.heads, d.recs, off / PTR_SZ, p);
    }
  }

  /** Writing data over data of the same length changes that data alone. */
  lemma WriteExt(dat: string, ext: map<nat, string>, e: nat, val: string)
    requires DatHolds(dat, ext) && e in ext && |val| == |ext[e]|
    ensures e <= |dat| && DatHolds(Splice(dat, e, val + [NEWLINE]), ext[e := val])
  {
    var bytes := val + [NEWLINE];
    assert ExtHolds(dat, e, ext[e]);
    var s, ext' := Splice(dat, e, bytes), ext[e := val];
    SpliceWritten(dat, e, bytes);
    forall e' | e' in ext' ensures ExtHolds(s, e', ext'[e']) {
      if e' != e {
        assert ExtHolds(dat, e', ext[e']);
        SpliceSlices(dat, e, bytes, e', e' + |ext[e']| + 1);
      }
    }
    forall a, b | a in ext' && b in ext' && a < b ensures a + |ext'[a]| + 1 <= b {
      assert a in ext && b in ext;
    }
  }

  lemma AppendExt(dat: string, ext: map<nat, string>, val: string)
    requires DatHolds(dat, ext)
    ensures |dat| !in ext
    ensures DatHolds(Splice(dat, |dat|, val + [NEWLINE]), ext[|dat| := val])
  {
    var e, bytes := |dat|, val + [NEWLINE];
    var s, ext' := Splice(dat, e, bytes), ext[e := val];
    SpliceWritten(dat, e, bytes);
    forall e' | e' in ext' ensures ExtHolds(s, e', ext'[e']) {
      if e' != e {
        assert ExtHolds(dat, e', ext[e']);
        SpliceSlices(dat, e, bytes, e', e' + |ext[e']| + 1);
      }
    }
    forall a, b | a in ext' && b in ext' && a < b ensures a + |ext'[a]| + 1 <= b {
      assert a in ext && ExtHolds(dat, a, ext[a]);
      if b != e {
        assert b in ext && ExtHolds(dat, b, ext[b]);
      }
    }
  }

  // ---------- the same for both files at once ----------

  lemma ReadCellBack(idx: string, dat: string, d: Disk, off: nat)
    requires Holds(idx, dat, d) && IsCell(d, off)
    ensures off + PTR_SZ <= |idx| && PtrAt(d, off) <= PTR_MAX
    ensures Atol(idx[off..off + PTR_SZ]) == PtrAt(d, off)
  {
    ReadCell(idx, d, off);
  }

  lemma ReadRecBack(idx: string, dat: string, d: Disk, o: nat)
    requires Holds(idx, dat, d) && o in d.recs
    ensures var r := d.recs[o];
            ReadRecord(idx, o)
            == if SEP in r.key then Corrupt else Parsed(r.next, r.key, r.datoff, r.datlen, o + Size(r))
  {
    assert RecHolds(idx, o, d.recs[o]);
    ReadBack(idx, o, d.recs[o]);
  }

  lemma RecFits(idx: string, dat: string, d: Disk, o: nat)
    requires Holds(idx, dat, d) && o in d.recs
    ensures Fits(d.recs[o])
  {
    assert RecHolds(idx, o, d.recs[o]);
  }

  /** A key of the same length makes a record of the same size. */
  lemma SameSize(r: Rec, r': Rec)
    requires Fits(r) && |r'.key| == |r.key| && r'.datoff == r.datoff && r'.datlen == r.datlen
    requires r'.next <= PTR_MAX
    ensures Fits(r') && Size(r') == Size(r)
  {
  }

  lemma ReadEnd(idx: string, dat: string, d: Disk)
    requires Holds(idx, dat, d)
    ensures |idx| !in d.recs && ReadRecord(idx, |idx|).Eof?
  {
    assert forall o :: o in d.recs ==> RecHolds(idx, o, d.recs[o]);
  }

  lemma WriteRecBack(idx: string, dat: string, d: Disk, o: nat, r: Rec)
    requires Holds(idx, dat, d) && Fits(r)
    requires o == |idx| || (o in d.recs && Size(r) == Size(d.recs[o]))
    ensures HEADER <= o <= |idx|
    ensures Holds(Splice(idx, o, Format(r)), dat, SetRec(d, o, r))
    ensures o == |idx| ==> o !in d.recs
    ensures |Splice(idx, o, Format(r))| == if o == |idx| then |idx| + Size(r) else |idx|
  {
    FormatSize(r);
    if o in d.recs {
      assert RecHolds(idx, o, d.recs[o]);
      WriteRec(idx, d.heads, d.recs, o, r);
    } else {
      AppendRec(idx, d.heads, d.recs, r);
    }
  }

  lemma WriteCellBack(idx: string, dat: string, d: Disk, off: nat, p: nat)
    requires Holds(idx, dat, d) && IsCell(d, off) && p <= PTR_MAX
    ensures off <= |idx| && Holds(Splice(idx, off, Pad(PTR_SZ, Digits(p))), dat, SetPtr(d, off, p))
    ensures |Splice(idx, off, Pad(PTR_SZ, Digits(p)))| == |idx|
  {
    WriteCell(idx, d, off, p);
  }

  lemma WriteExtBack(idx: string, dat: string, d: Disk, e: nat, val: string)
    requires Holds(idx, dat, d)
    requires e == |dat| || (e in d.ext && |val| == |d.ext[e]|)
    ensures e <= |dat| && Holds(idx, Splice(dat, e, val + [NEWLINE]), SetExt(d, e, val))
    ensures e == |dat| ==> e !in d.ext
    ensures |Splice(dat, e, val + [NEWLINE])| == if e == |dat| then |dat| + |val| + 1 else |dat|
  {
    if e in d.ext {
      assert ExtHolds(dat, e, d.ext[e]);
      WriteExt(dat, d.ext, e, val);
      SpliceWritten(dat, e, val + [NEWLINE]);
    } else {
      AppendExt(dat, d.ext, val);
    }
  }

  lemma ReadExtBack(idx: string, dat: string, d: Disk, e: nat)
    requires Holds(idx, dat, d) && e in d.ext
    ensures e + |d.ext[e]| + 1 <= |dat| && dat[e..e + |d.ext[e]| + 1] == d.ext[e] + [NEWLINE]
  {
    assert ExtHolds(dat, e, d.ext[e]);
  }

  // ---------- an empty database ----------

  /** The header a new index file starts with: every pointer is zero. */
  function EmptyHeader(n: nat): string {
    if n == 0 then "" else EmptyHeader(n - 1) + Pad(PTR_SZ, Digits(0))
  }

  function EmptyDisk(): Disk { Disk(seq(NHASH + 1, _ => 0), map[], map[]) }

  lemma {:induction false} EmptyHeaderCells(n: nat)
    ensures |EmptyHeader(n)| == PTR_SZ * n
    ensures forall l :: 0 <= l < n ==> EmptyHeader(n)[PTR_SZ * l..PTR_SZ * l + PTR_SZ] == Pad(PTR_SZ, Digits(0))
  {
    PointerRoundTrip(0);
    if n > 0 {
      EmptyHeaderCells(n - 1);
      forall l | 0 <= l < n
        ensures EmptyHeader(n)[PTR_SZ * l..PTR_SZ * l + PTR_SZ] == Pad(PTR_SZ, Digits(0))
      {
        if l < n - 1 {
          assert EmptyHeader(n)[PTR_SZ * l..PTR_SZ * l + PTR_SZ]
              == EmptyHeader(n - 1)[PTR_SZ * l..PTR_SZ * l + PTR_SZ];
        }
      }
    }
  }

  /** The header written at creation stands for an empty free list and empty chains. */
  lemma EmptyHolds()
    ensures Holds(EmptyHeader(NHASH + 1) + [NEWLINE], "", EmptyDisk())
    ensures |EmptyHeader(NHASH + 1) + [NEWLINE]| == HEADER
  {
    var h := EmptyHeader(NHASH + 1);
    EmptyHeaderCells(NHASH + 1);
    forall l | 0 <= l <= NHASH
      ensures (h + [NEWLINE])[PTR_SZ * l..PTR_SZ * l + PTR_SZ] == Pad(PTR_SZ, Digits(0))
    {
      assert (h + [NEWLINE])[PTR_SZ * l..PTR_SZ * l + PTR_SZ] == h[PTR_SZ * l..PTR_SZ * l + PTR_SZ];
    }
  }
}
