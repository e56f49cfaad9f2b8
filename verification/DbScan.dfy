/**
 The index file read from front to back: which keys and values a scan meets.
*/
module DbScan {
  import opened DbFormat
  import opened DbDisk
  import opened DbIndex
  import opened DbSteps

  /** Keys and values of the records from an offset on, without those of blank keys. */
  ghost function Entries(d: Disk, end: nat, from: nat): seq<(string, string)>
    decreases if from < end then end - from else 0
  {
    if from in d.recs && from + Size(d.recs[from]) <= end then
      EntryAt(d, from) + Entries(d, end, from + Size(d.recs[from]))
    else []
  }

  ghost function EntryAt(d: Disk, o: nat): seq<(string, string)>
    requires o in d.recs
  {
    var r := d.recs[o];
    if IsBlank(r.key) || r.datoff !in d.ext then [] else [(r.key, d.ext[r.datoff])]
  }

  lemma FirstRecord(idx: string, dat: string, d: Disk)
    requires Holds(idx, dat, d)
    ensures HEADER == |idx| || HEADER in d.recs
  {
  }

  /** Behind a record lies the next one, or the end of the file. */
  lemma NextOffset(idx: string, dat: string, d: Disk, o: nat)
    requires Holds(idx, dat, d) && o in d.recs
    ensures var n := o + Size(d.recs[o]);
            && o < n <= |idx| && (n == |idx| || n in d.recs)
            && forall x :: x in d.recs && o < x ==> n <= x
  {
    hide DatHolds, HeaderHolds, Format, Digits, Body;
    assert RecHolds(idx, o, d.recs[o]);
  }

  /** One step of the scan stays inside the run of records. */
  lemma EntriesUnfold(idx: string, dat: string, d: Disk, g: Index, o: nat)
    requires Holds(idx, dat, d) && WF(d, g, {}) && (o == |idx| || o in d.recs)
    ensures o == |idx| ==> o !in d.recs && Entries(d, |idx|, o) == []
    ensures o in d.recs ==>
              var r := d.recs[o]; var n := o + Size(r);
              && o < n <= |idx| && (n == |idx| || n in d.recs)
              && r.datoff in d.ext
              && Entries(d, |idx|, o)
                 == (if IsBlank(r.key) then [] else [(r.key, d.ext[r.datoff])]) + Entries(d, |idx|, n)
  {
    hide Holds, WF, Size, ReadRecord;
    ReadEnd(idx, dat, d);
    if o in d.recs {
      NextOffset(idx, dat, d, o);
      RecordFacts(d, g, o);
    }
  }

  /** A live key and its value. */
  ghost predicate Live(g: Index, m: map<string, string>, from: nat, key: string, val: string) {
    key in m && m[key] == val && key in g.at && from <= g.at[key]
  }

  /** Key and value of a record that is on no list. */
  ghost predicate LostAt(d: Disk, g: Index, o: nat, key: string, val: string) {
    o in g.owner && !g.owner[o].On? && HasKey(d, o, key) && HasValue(d, o, val)
  }

  ghost predicate Lost(d: Disk, g: Index, from: nat, key: string, val: string) {
    exists o :: from <= o && LostAt(d, g, o, key, val)
  }

  /** A key shows up among the entries from an offset on. */
  ghost predicate Meets(d: Disk, g: Index, m: map<string, string>, from: nat, key: string, val: string) {
    !IsBlank(key) && (Live(g, m, from, key, val) || Lost(d, g, from, key, val))
  }

  lemma {:induction false} EntriesMeet(idx: string, dat: string, d: Disk, g: Index, m: map<string, string>, o: nat)
    requires Holds(idx, dat, d) && WF(d, g, {}) && Reads(d, g, m)
    requires o == |idx| || o in d.recs
    ensures forall key, val :: (key, val) in Entries(d, |idx|, o) <==> Meets(d, g, m, o, key, val)
    decreases |idx| - o
  {
    hide Holds, WF, Reads, Size, ReadRecord, Meets;
    EntriesUnfold(idx, dat, d, g, o);
    if o in d.recs {
      NextOffset(idx, dat, d, o);
      EntriesMeet(idx, dat, d, g, m, o + Size(d.recs[o]));
      EntryMeets(idx, dat, d, g, m, o);
    } else {
      NothingLater(idx, dat, d, g, m);
    }
  }

  lemma NothingLater(idx: string, dat: string, d: Disk, g: Index, m: map<string, string>)
    requires Holds(idx, dat, d) && WF(d, g, {})
    ensures forall key, val :: !Meets(d, g, m, |idx|, key, val)
  {
    hide Holds;
    forall o | o in d.recs ensures o < |idx| { NextOffset(idx, dat, d, o); }
    forall key | key in g.at ensures g.at[key] < |idx| {
      assert KeyOK(d, g, key);
    }
  }

  /** The first record's share of the entries. */
  lemma EntryMeets(idx: string, dat: string, d: Disk, g: Index, m: map<string, string>, o: nat)
    requires Holds(idx, dat, d) && WF(d, g, {}) && Reads(d, g, m) && o in d.recs
    ensures var n := o + Size(d.recs[o]); forall key, val ::
              Meets(d, g, m, o, key, val) <==> (key, val) in EntryAt(d, o) || Meets(d, g, m, n, key, val)
  {
    hide Holds, Size, ReadRecord, WF, Reads, IsBlank;
    var n := o + Size(d.recs[o]);
    NextOffset(idx, dat, d, o);
    forall key, val
      ensures Meets(d, g, m, o, key, val) <==> (key, val) in EntryAt(d, o) || Meets(d, g, m, n, key, val)
    {
      LaterLive(d, g, m, o, n, key, val);
      LaterLost(d, g, o, n, key, val);
      RecordShows(d, g, m, o, key, val);
    }
  }

  lemma LaterLive(d: Disk, g: Index, m: map<string, string>, o: nat, n: nat, key: string, val: string)
    requires WF(d, g, {}) && o in d.recs && o < n && forall x :: x in d.recs && o < x ==> n <= x
    ensures Live(g, m, o, key, val) <==> Live(g, m, n, key, val) || (Live(g, m, o, key, val) && g.at[key] == o)
  {
    if key in g.at { assert KeyOK(d, g, key); }
  }

  lemma LaterLost(d: Disk, g: Index, o: nat, n: nat, key: string, val: string)
    requires o in d.recs && o < n && forall x :: x in d.recs && o < x ==> n <= x
    ensures Lost(d, g, o, key, val) <==> Lost(d, g, n, key, val) || LostAt(d, g, o, key, val)
  {
    if Lost(d, g, o, key, val) && !LostAt(d, g, o, key, val) {
      var x :| o <= x && LostAt(d, g, x, key, val);
      assert n <= x;
    }
  }

  /** The record at an offset is live or lost, unless its key is blank. */
  lemma RecordShows(d: Disk, g: Index, m: map<string, string>, o: nat, key: string, val: string)
    requires WF(d, g, {}) && Reads(d, g, m) && o in d.recs
    ensures (key, val) in EntryAt(d, o) <==>
              !IsBlank(key) && ((Live(g, m, o, key, val) && g.at[key] == o) || LostAt(d, g, o, key, val))
  {
    var r := d.recs[o];
    assert RecOK(d, g, o);
    if key in g.at {
      assert KeyOK(d, g, key);
      assert HasValue(d, g.at[key], m[key]);
    }
  }

  /** A key on a list shows up once. */
  lemma {:induction false} EntriesOnce(idx: string, dat: string, d: Disk, g: Index, o: nat)
    requires Holds(idx, dat, d) && WF(d, g, {}) && Whole(g)
    requires o == |idx| || o in d.recs
    ensures var e := Entries(d, |idx|, o);
            && (forall i :: 0 <= i < |e| ==> e[i].0 in g.at && o <= g.at[e[i].0])
            && (forall i, j :: 0 <= i < j < |e| ==> e[i].0 != e[j].0)
    decreases |idx| - o
  {
    hide Holds, WF, Size, ReadRecord, IsBlank;
    EntriesUnfold(idx, dat, d, g, o);
    if o in d.recs {
      NextOffset(idx, dat, d, o);
      EntriesOnce(idx, dat, d, g, o + Size(d.recs[o]));
      OwnKey(d, g, o);
    }
  }

  lemma OwnKey(d: Disk, g: Index, o: nat)
    requires WF(d, g, {}) && Whole(g) && o in d.recs
    ensures var key := d.recs[o].key; IsBlank(key) || (key in g.at && g.at[key] == o)
  {
    assert RecOK(d, g, o);
  }

  /** What a scan shows: the live keys with their values, and records that are on no list. */
  ghost predicate Shows(d: Disk, g: Index, m: map<string, string>, key: string, val: string) {
    (key in m && m[key] == val) || Lost(d, g, 0, key, val)
  }

  /**
   A complete scan meets every live key that is not blank, with its value, and nothing else but
   records that are on no list; if there are none, it meets each key once.
  */
  lemma ScanComplete(idx: string, dat: string, d: Disk, g: Index, m: map<string, string>)
    requires Holds(idx, dat, d) && WF(d, g, {}) && Reads(d, g, m)
    ensures var e := Entries(d, |idx|, HEADER);
            && (forall key, val :: (key, val) in e <==> !IsBlank(key) && Shows(d, g, m, key, val))
            && (Whole(g) ==> forall i, j :: 0 <= i < j < |e| ==> e[i].0 != e[j].0)
  {
    hide Holds, Entries, IsBlank;
    FirstRecord(idx, dat, d);
    EntriesMeet(idx, dat, d, g, m, HEADER);
    if Whole(g) { EntriesOnce(idx, dat, d, g, HEADER); }
    forall key, val ensures Meets(d, g, m, HEADER, key, val) <==> !IsBlank(key) && Shows(d, g, m, key, val) {
      BehindHeader(d, g, m, key, val);
    }
  }

  lemma BehindHeader(d: Disk, g: Index, m: map<string, string>, key: string, val: string)
    requires WF(d, g, {}) && Reads(d, g, m)
    ensures Live(g, m, HEADER, key, val) <==> key in m && m[key] == val
    ensures Lost(d, g, HEADER, key, val) <==> Lost(d, g, 0, key, val)
  {
    if key in g.at {
      assert KeyOK(d, g, key) && RecOK(d, g, g.at[key]);
    }
    if o :| LostAt(d, g, o, key, val) {
      assert RecOK(d, g, o);
    }
  }

  /** On a list are all records: then a scan shows just the live keys. */
  lemma NothingLost(d: Disk, g: Index, m: map<string, string>)
    ensures Whole(g) ==> forall key, val :: Shows(d, g, m, key, val) <==> key in m && m[key] == val
  {
  }

  /** A scan is stopped when one of its entries has a key with a separator. */
  lemma SeparatorsShow(d: Disk, g: Index, m: map<string, string>, entries: seq<(string, string)>)
    requires forall key, val :: (key, val) in entries <==> !IsBlank(key) && Shows(d, g, m, key, val)
    ensures (exists e :: e in entries && SEP in e.0) <==> exists key, val :: SEP in key && Shows(d, g, m, key, val)
  {
    hide Shows;
    if key, val :| SEP in key && Shows(d, g, m, key, val) {
      assert (key, val) in entries;
    }
    if e :| e in entries && SEP in e.0 {
      assert (e.0, e.1) in entries;
    }
  }

  /** What shows are the keys with a character other than a space. */
  lemma VisibleShown(d: Disk, g: Index, m: map<string, string>, entries: seq<(string, string)>)
    requires forall key, val :: (key, val) in entries <==> !IsBlank(key) && Shows(d, g, m, key, val)
    ensures forall key, i :: key in m && 0 <= i < |key| && key[i] != SPACE ==> (key, m[key]) in entries
    ensures forall e :: e in entries ==> exists i :: 0 <= i < |e.0| && e.0[i] != SPACE
  {
    forall e | e in entries ensures exists i :: 0 <= i < |e.0| && e.0[i] != SPACE {
      assert (e.0, e.1) in entries;
    }
  }
}
