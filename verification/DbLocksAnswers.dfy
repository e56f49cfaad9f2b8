/**
 What the operations of a run answer, told from the earlier operations alone: a fetch gives
 the data of the last store of its key, unless that was deleted since.
*/
module DbLocksAnswers {
  import opened DbFormat
  import opened DbLocks
  import opened DbLocksInv
  import opened DbLocksProof
  import opened DbLocksRuns
  import opened DbLocksHistory
  import Db

  /** A store of this value under the key that was carried out. */
  ghost predicate Stored(e: Entry, key: string, val: string) {
    e.op.Store? && e.op.key == key && e.op.data == val && e.res == Code(0)
  }

  /** A store or a deletion of the key that was carried out. */
  ghost predicate Changes(e: Entry, key: string) {
    (e.op.Store? || e.op.Delete?) && e.op.key == key && e.res == Code(0)
  }

  /** The last of the first i operations to change the key, if any, stored this value. */
  ghost predicate Holding(log: seq<Entry>, i: nat, key: string, val: string)
    requires i <= |log|
  {
    exists j :: 0 <= j < i && Stored(log[j], key, val) && forall k :: j < k < i ==> !Changes(log[k], key)
  }

  /** What an operation answers when key and value of the map are as given. */
  lemma SpecCases(m: map<string, string>, op: Op)
    ensures var (m', res) := Spec(m, op); var key := op.key;
            match op {
              case Fetch(_) => m' == m && res == Val(if key in m then Db.Some(m[key]) else Db.None)
              case Delete(_) => m' == m - {key} && res == Code(if key in m then 0 else -1)
              case Store(_, data, flag) =>
                && (key in m && (flag == 2 || flag == 3) ==> res == Code(0) && m' == m[key := data])
                && (key !in m && (flag == 1 || flag == 3) ==> res == Code(0) && m' == m[key := data])
                && (key in m && flag == 1 ==> res == Code(1) && m' == m)
                && (key !in m && flag == 2 ==> res == Code(-1) && m' == m)
                && (flag != 1 && flag != 2 && flag != 3 ==> res == Code(-1) && m' == m)
            }
  {
  }

  /** One operation changes the map at its key only, and only if it was carried out. */
  lemma OneChange(m: map<string, string>, e: Entry, key: string)
    requires e.res == Spec(m, e.op).1
    ensures var m' := Spec(m, e.op).0;
            if Changes(e, key) then
              if e.op.Store? then key in m' && m'[key] == e.op.data else key !in m'
            else (key in m' <==> key in m) && (key in m ==> m'[key] == m[key])
  {
    SpecCases(m, e.op);
  }

  lemma HoldingMore(log: seq<Entry>, i: nat, key: string, val: string)
    requires i < |log|
    ensures Holding(log, i + 1, key, val) <==>
              if Changes(log[i], key) then Stored(log[i], key, val) else Holding(log, i, key, val)
  {
    if Stored(log[i], key, val) {
      assert Changes(log[i], key);
    }
    if !Changes(log[i], key) && Holding(log, i, key, val) {
      var j :| 0 <= j < i && Stored(log[j], key, val) && forall k :: j < k < i ==> !Changes(log[k], key);
      assert forall k :: j < k < i + 1 ==> !Changes(log[k], key);
    }
  }

  /** The map is the last values stored. */
  lemma {:induction false} MapHolds(log: seq<Entry>, i: nat, key: string)
    requires Legal(log) && i <= |log|
    ensures forall val ::
              Holding(log, i, key, val) <==> key in Replay(log[..i]) && Replay(log[..i])[key] == val
  {
    if i > 0 {
      MapHolds(log, i - 1, key);
      assert log[..i][..i - 1] == log[..i - 1];
      OneChange(Replay(log[..i - 1]), log[i - 1], key);
      hide Spec, Changes, Holding, Legal;
      forall val
        ensures Holding(log, i, key, val) <==> key in Replay(log[..i]) && Replay(log[..i])[key] == val
      {
        HoldingMore(log, i - 1, key, val);
        StoredChanges(log[i - 1], key, val);
      }
    }
  }

  lemma StoredChanges(e: Entry, key: string, val: string)
    ensures Stored(e, key, val) <==> Changes(e, key) && e.op.Store? && e.op.data == val
  {
  }

  /** Some value is held. */
  ghost predicate Present(log: seq<Entry>, i: nat, key: string)
    requires i <= |log|
  {
    exists val :: Holding(log, i, key, val)
  }

  /** The answer of the i-th operation. */
  ghost predicate Right(log: seq<Entry>, i: nat)
    requires i < |log|
  {
    var key := log[i].op.key;
    match log[i].op {
      case Fetch(_) =>
        && (forall val :: log[i].res == Val(Db.Some(val)) <==> Holding(log, i, key, val))
        && (log[i].res == Val(Db.None) <==> !Present(log, i, key))
      case Delete(_) => log[i].res == Code(if Present(log, i, key) then 0 else -1)
      case Store(_, _, flag) =>
        log[i].res == Code(if flag != 1 && flag != 2 && flag != 3 then -1
                           else if Present(log, i, key) && flag == 1 then 1
                           else if !Present(log, i, key) && flag == 2 then -1
                           else 0)
    }
  }

  lemma LegalRight(log: seq<Entry>, i: nat)
    requires Legal(log) && i < |log|
    ensures Right(log, i)
  {
    var m, key := Replay(log[..i]), log[i].op.key;
    MapHolds(log, i, key);
    SpecCases(m, log[i].op);
    assert log[i].res == Spec(m, log[i].op).1;
    hide Spec, Holding, Legal, Replay;
    assert Present(log, i, key) <==> key in m by {
      if key in m { assert Holding(log, i, key, m[key]); }
    }
  }

  /**
   In every run each answer follows from the answers before it: a fetch gives exactly the data
   of the last store of its key that no deletion followed, and nothing if there is none; a
   deletion succeeds exactly if there is one; an insertion returns 1 and a replacement -1
   exactly when they must. What the files stand for is what a fetch would give now.
  */
  lemma Answers(states: seq<Sys>, moves: seq<Move>, n: nat)
    requires IsRun(states, moves) && n <= |moves|
    ensures var log := states[n].mem.log;
            && (forall i :: 0 <= i < |log| ==> Right(log, i))
            && forall key, val ::
                 key in states[n].mem.m && states[n].mem.m[key] == val <==> Holding(log, |log|, key, val)
  {
    RunKeeps(states, moves, n);
    var mem := states[n].mem;
    var log := mem.log;
    assert log[..|log|] == log;
    hide Right, Holding, Legal;
    forall i | 0 <= i < |log| ensures Right(log, i) { LegalRight(log, i); }
    forall key, val ensures key in mem.m && mem.m[key] == val <==> Holding(log, |log|, key, val) {
      MapHolds(log, |log|, key);
    }
  }

  // ---------- when operations take effect ----------

  /** A move adds to the log and takes nothing back. */
  lemma LogGrows(s: Sys, mv: Move)
    requires Can(s, mv) && (mv.Go? ==> !Hd1(s.mem, mv.handle, s.hs[mv.handle]).pc.Crash?)
    ensures s.mem.log <= Do(s, mv).mem.log
  {
    hide Next;
    if mv.Go? { MoveLogs(s.mem, mv.handle, s.hs[mv.handle]); }
  }

  lemma {:induction false} LogKept(states: seq<Sys>, moves: seq<Move>, b: nat, n: nat)
    requires IsRun(states, moves) && b <= n <= |moves|
    ensures states[b].mem.log <= states[n].mem.log
  {
    if b < n {
      hide Can, Do, Next;
      LogKept(states, moves, b, n - 1);
      Reached(states, moves, n);
      LogGrows(states[n - 1], moves[n - 1]);
    }
  }

  /** The handle's operation began with move b and has been its only one since. */
  ghost predicate BeganAt(states: seq<Sys>, moves: seq<Move>, b: nat, n: nat, h: nat, op: Op)
    requires IsRun(states, moves) && b < n <= |moves|
  {
    moves[b] == Begin(h, op) && forall i :: b < i < n ==> moves[i].handle != h || moves[i].Go?
  }

  /** A handle in the middle of an operation: where that began, and the log as it was then. */
  lemma {:induction false} StartedAt(states: seq<Sys>, moves: seq<Move>, n: nat, h: nat) returns (b: nat)
    requires IsRun(states, moves) && n <= |moves| && h in states[n].hs && !states[n].hs[h].pc.Idle?
    ensures b < n && BeganAt(states, moves, b, n, h, states[n].hs[h].op)
    ensures states[n].hs[h].start == |states[b].mem.log| && states[b].mem.log <= states[n].mem.log
  {
    Reached(states, moves, n);
    if moves[n - 1].Begin? && moves[n - 1].handle == h {
      b := n - 1;
    } else {
      b := StartedAt(states, moves, n - 1, h);
    }
    LogKept(states, moves, b, n);
  }

  /**
   An operation that has taken effect did so after it began: its entry, with its answer, is
   behind the whole log of that moment.
  */
  lemma TakesEffectInside(states: seq<Sys>, moves: seq<Move>, n: nat, h: nat) returns (b: nat)
    requires IsRun(states, moves) && n <= |moves| && h in states[n].hs && Effective(states[n].hs[h].pc)
    ensures b < n && BeganAt(states, moves, b, n, h, states[n].hs[h].op)
    ensures var mem, hd := states[n].mem, states[n].hs[h];
            && states[b].mem.log <= mem.log && |states[b].mem.log| <= hd.pc.i < |mem.log|
            && mem.log[hd.pc.i].handle == h && mem.log[hd.pc.i].op == hd.op && Right(mem.log, hd.pc.i)
  {
    b := StartedAt(states, moves, n, h);
    Linearizable(states, moves, n, h);
    Answers(states, moves, n);
  }
}
