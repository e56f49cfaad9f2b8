/**
 The thread pool as a state machine: any number of threads appending requests and any
 number of workers taking them, one system call or one access to the shared queue a step.
 A wait for the semaphore may fail without taking a token; its result is not looked at.
*/
module ThreadPool {

  /** The largest value of a semaphore; posting to one that has it fails. */
  const SEM_MAX: nat := 0x7fff_ffff

  /** A request is a pointer and may be null. */
  datatype Req = Null | Task(id: nat)

  datatype Mutex = Free | By(t: nat)

  /**
   Where a thread is. Appenders: outside, before the lock, before the size test, before the
   push, before unlocking with either answer, before the post. Workers: before the test of the
   stop flag, before the wait, then with or without a token before the lock, before the test for
   an empty queue and before the pop; before unlocking without or with the i-th popped request,
   before processing it; gone.
  */
  datatype Pc =
    | Out | ALock(r: Req) | ACheck(r: Req) | APush(r: Req) | ANo | AYes | APost
    | WTop | WWait | WLock(token: bool) | WCheck(token: bool) | WPop(token: bool) | WBack
    | WGot(i: nat) | WRun(i: nat) | WGone

  /**
   The shared state and its history: the requests accepted and popped so far, in order; the
   positions of the popped requests that were processed; how many pops had no token, how
   many tokens met an empty queue, how many posts failed.
  */
  datatype Pool = Pool(max: nat, queue: seq<Req>, sem: nat, owner: Mutex, stop: bool, threads: map<nat, Pc>,
                       accepted: seq<Req>, popped: seq<Req>, done: set<nat>, bare: nat, wasted: nat, lost: nat)

  function To(p: Pool, t: nat, pc: Pc): Pool { p.(threads := p.threads[t := pc]) }

  /** A post adds a token unless the semaphore is full. */
  function Posted(p: Pool): Pool { if p.sem < SEM_MAX then p.(sem := p.sem + 1) else p.(lost := p.lost + 1) }

  /** The constructor refuses a queue size that is not positive and starts at least one worker. */
  ghost predicate Init(p: Pool) {
    && p.max > 0 && p.queue == [] && p.sem == 0 && p.owner == Free && !p.stop
    && p.accepted == [] && p.popped == [] && p.done == {} && p.bare == p.wasted == p.lost == 0
    && (forall t :: t in p.threads ==> p.threads[t] == Out || p.threads[t] == WTop)
    && exists t :: t in p.threads && p.threads[t] == WTop
  }

  ghost predicate Calls(a: Pool, b: Pool, t: nat) { exists r :: b == To(a, t, ALock(r)) }

  predicate Appends(a: Pool, b: Pool, t: nat)
    requires t in a.threads
  {
    match a.threads[t]
    case ALock(r) => a.owner == Free && b == To(a, t, ACheck(r)).(owner := By(t))
    case ACheck(r) => b == To(a, t, if |a.queue| > a.max then ANo else APush(r))
    case APush(r) => b == To(a, t, AYes).(queue := a.queue + [r], accepted := a.accepted + [r])
    case ANo => b == To(a, t, Out).(owner := Free)
    case AYes => b == To(a, t, APost).(owner := Free)
    case APost => b == Posted(To(a, t, Out))
    case _ => false
  }

  predicate Works(a: Pool, b: Pool, t: nat)
    requires t in a.threads
  {
    match a.threads[t]
    case WTop => b == To(a, t, if a.stop then WGone else WWait)
    case WWait => a.sem > 0 && b == To(a, t, WLock(true)).(sem := a.sem - 1)
    case WLock(token) => a.owner == Free && b == To(a, t, WCheck(token)).(owner := By(t))
    case WCheck(token) =>
      b == if a.queue == [] then To(a, t, WBack).(wasted := a.wasted + if token then 1 else 0)
           else To(a, t, WPop(token))
    case WPop(token) =>
      a.queue != [] &&
      b == To(a, t, WGot(|a.popped|)).(queue := a.queue[1..], popped := a.popped + [a.queue[0]],
                                       bare := a.bare + if token then 0 else 1)
    case WBack => b == To(a, t, WTop).(owner := Free)
    case WGot(i) => i < |a.popped| && b == To(a, t, if a.popped[i] == Null then WTop else WRun(i)).(owner := Free)
    case WRun(i) => b == To(a, t, WTop).(done := a.done + {i})
    case _ => false
  }

  predicate FailsToWait(a: Pool, b: Pool, t: nat) {
    t in a.threads && a.threads[t] == WWait && b == To(a, t, WLock(false))
  }

  /** A thread that is not waiting for something to come moves on by itself. */
  predicate Moves(a: Pool, b: Pool, t: nat) { t in a.threads && (Appends(a, b, t) || Works(a, b, t)) }

  ghost predicate Steps(a: Pool, b: Pool, t: nat) {
    Moves(a, b, t) || FailsToWait(a, b, t) || (t in a.threads && a.threads[t] == Out && Calls(a, b, t))
  }

  /** Besides the threads' steps, the pool may be told to stop. */
  ghost predicate Next(a: Pool, b: Pool) {
    b == a.(stop := true) || exists t :: Steps(a, b, t)
  }

  ghost predicate Follows(ps: seq<Pool>, i: int)
    requires 0 < i < |ps|
  {
    Next(ps[i - 1], ps[i])
  }

  ghost predicate Run(ps: seq<Pool>) {
    |ps| > 0 && Init(ps[0]) && forall i :: 0 < i < |ps| ==> Follows(ps, i)
  }

  // ---------- the invariant ----------

  predicate Inside(pc: Pc) {
    pc.ACheck? || pc.APush? || pc.ANo? || pc.AYes? || pc.WCheck? || pc.WPop? || pc.WBack? || pc.WGot?
  }

  /** Between the wait that took a token and the pop it pays for. */
  predicate Holder(pc: Pc) { (pc.WLock? || pc.WCheck? || pc.WPop?) && pc.token }

  /** Between the push and the post. */
  predicate Poster(pc: Pc) { pc.AYes? || pc.APost? }

  ghost function Holders(ts: map<nat, Pc>): set<nat> { set t | t in ts && Holder(ts[t]) }

  ghost function Posters(ts: map<nat, Pc>): set<nat> { set t | t in ts && Poster(ts[t]) }

  /** Tokens taken and not yet paid with, and tokens owed. */
  ghost function OnTheWay(ts: map<nat, Pc>): nat { |Holders(ts)| + |Posters(ts)| }

  /** One thread at a time works on the queue, and it is the one that holds the lock. */
  ghost predicate Exclusive(p: Pool) {
    && (forall t :: t in p.threads ==> (Inside(p.threads[t]) <==> p.owner == By(t)))
    && (p.owner.By? ==> p.owner.t in p.threads)
  }

  ghost predicate Bounded(p: Pool) {
    && p.max > 0 && |p.queue| <= p.max + 1
    && forall t :: t in p.threads ==>
         (p.threads[t].APush? ==> |p.queue| <= p.max) && (p.threads[t].WPop? ==> p.queue != [])
  }

  /** Every request in the queue has its token, but for pops without a token and tokens spent on nothing. */
  ghost predicate Balanced(p: Pool) {
    && |p.queue| + p.bare == p.sem + OnTheWay(p.threads) + p.wasted + p.lost
    && p.wasted <= p.bare
    && (p.lost > 0 ==> p.bare > 0 || p.max >= SEM_MAX)
  }

  /** Worker t has the i-th popped request in hand. */
  predicate InHand(p: Pool, t: nat, i: nat) {
    t in p.threads && (p.threads[t] == WGot(i) || p.threads[t] == WRun(i))
  }

  ghost predicate Handed(p: Pool) {
    && (forall i :: i in p.done ==> i < |p.popped| && p.popped[i] != Null)
    && (forall t, i: nat :: InHand(p, t, i) ==>
      i < |p.popped| && i !in p.done && (p.threads[t].WRun? ==> p.popped[i] != Null))
    && (forall t, u, i :: InHand(p, t, i) && InHand(p, u, i) ==> t == u)
    && (forall i :: 0 <= i < |p.popped| && p.popped[i] != Null ==> i in p.done || exists t :: InHand(p, t, i))
  }

  ghost predicate Inv(p: Pool) {
    && p.popped + p.queue == p.accepted
    && Exclusive(p) && Bounded(p) && Balanced(p) && Handed(p)
  }

  lemma HolderCount(ts: map<nat, Pc>, t: nat, pc: Pc)
    requires t in ts
    ensures |Holders(ts[t := pc])| + (if Holder(ts[t]) then 1 else 0) == |Holders(ts)| + if Holder(pc) then 1 else 0
  {
    var rest := Holders(ts) - {t};
    assert Holders(ts) == if Holder(ts[t]) then rest + {t} else rest;
    assert Holders(ts[t := pc]) == if Holder(pc) then rest + {t} else rest;
  }

  lemma PosterCount(ts: map<nat, Pc>, t: nat, pc: Pc)
    requires t in ts
    ensures |Posters(ts[t := pc])| + (if Poster(ts[t]) then 1 else 0) == |Posters(ts)| + if Poster(pc) then 1 else 0
  {
    var rest := Posters(ts) - {t};
    assert Posters(ts) == if Poster(ts[t]) then rest + {t} else rest;
    assert Posters(ts[t := pc]) == if Poster(pc) then rest + {t} else rest;
  }

  lemma AppendExclusive(a: Pool, b: Pool, t: nat)
    requires Exclusive(a) && t in a.threads && Appends(a, b, t)
    ensures Exclusive(b)
  {
  }

  lemma WorkExclusive(a: Pool, b: Pool, t: nat)
    requires Exclusive(a) && t in a.threads && Works(a, b, t)
    ensures Exclusive(b)
  {
  }

  lemma ExclusiveKept(a: Pool, b: Pool, t: nat)
    requires Exclusive(a) && Moves(a, b, t)
    ensures Exclusive(b)
  {
    hide Exclusive, Appends, Works;
    if Appends(a, b, t) { AppendExclusive(a, b, t); } else { WorkExclusive(a, b, t); }
  }

  lemma BoundedKept(a: Pool, b: Pool, t: nat)
    requires Exclusive(a) && Bounded(a) && Moves(a, b, t)
    ensures Bounded(b)
  {
    if Appends(a, b, t) { AppendBound(a, b, t); } else { WorkBound(a, b, t); }
    hide Moves, Appends, Works;
  }

  lemma AppendBound(a: Pool, b: Pool, t: nat)
    requires Bounded(a) && t in a.threads && Appends(a, b, t)
    ensures b.max == a.max && t in b.threads && b.threads == a.threads[t := b.threads[t]]
    ensures |b.queue| <= b.max + 1 && (b.threads[t].APush? ==> |b.queue| <= b.max) && !b.threads[t].WPop?
    ensures b.queue != a.queue ==> Inside(a.threads[t])
  {
  }

  lemma WorkBound(a: Pool, b: Pool, t: nat)
    requires Bounded(a) && t in a.threads && Works(a, b, t)
    ensures b.max == a.max && t in b.threads && b.threads == a.threads[t := b.threads[t]]
    ensures |b.queue| <= b.max + 1 && (b.threads[t].WPop? ==> b.queue != []) && !b.threads[t].APush?
    ensures b.queue != a.queue ==> Inside(a.threads[t])
  {
  }

  lemma WayCount(ts: map<nat, Pc>, t: nat, pc: Pc)
    requires t in ts
    ensures OnTheWay(ts[t := pc]) + (if Holder(ts[t]) || Poster(ts[t]) then 1 else 0)
            == OnTheWay(ts) + if Holder(pc) || Poster(pc) then 1 else 0
  {
    HolderCount(ts, t, pc);
    PosterCount(ts, t, pc);
  }

  function One(b: bool): nat { if b then 1 else 0 }

  /** What the queue and the history still owe the semaphore and the threads. */
  function Slack(p: Pool): int { |p.queue| + p.bare - p.sem - p.wasted - p.lost }

  lemma AppendSlack(a: Pool, b: Pool, t: nat)
    requires t in a.threads && Appends(a, b, t)
    ensures t in b.threads && b.threads == a.threads[t := b.threads[t]] && b.max == a.max
    ensures Slack(b) - One(Poster(b.threads[t])) == Slack(a) - One(Poster(a.threads[t]))
    ensures !Holder(a.threads[t]) && !Holder(b.threads[t]) && b.bare == a.bare && b.wasted == a.wasted
    ensures b.lost != a.lost ==> a.threads[t].APost? && a.sem >= SEM_MAX
  {
  }

  lemma WorkPlace(a: Pool, b: Pool, t: nat)
    requires t in a.threads && Works(a, b, t)
    ensures t in b.threads && b.threads == a.threads[t := b.threads[t]] && b.max == a.max && b.lost == a.lost
    ensures !Poster(a.threads[t]) && !Poster(b.threads[t])
  {
  }

  lemma WorkSlack(a: Pool, b: Pool, t: nat)
    requires t in a.threads && Works(a, b, t)
    ensures t in b.threads && Slack(b) - One(Holder(b.threads[t])) == Slack(a) - One(Holder(a.threads[t]))
    ensures b.bare >= a.bare
    ensures b.wasted != a.wasted ==> b.wasted == a.wasted + 1 && Holder(a.threads[t]) && a.queue == []
  {
  }

  lemma BalancedKept(a: Pool, b: Pool, t: nat)
    requires Bounded(a) && Balanced(a) && Moves(a, b, t)
    ensures Balanced(b)
  {
    if Appends(a, b, t) {
      AppendSlack(a, b, t);
    } else {
      WorkSlack(a, b, t);
      WorkPlace(a, b, t);
    }
    hide Moves, Appends, Works, OnTheWay, Holder, Poster;
    WayCount(a.threads, t, b.threads[t]);
  }

  lemma AppendAccount(a: Pool, b: Pool, t: nat)
    requires t in a.threads && Appends(a, b, t)
    ensures b.popped == a.popped
    ensures if a.threads[t].APush?
            then b.queue == a.queue + [a.threads[t].r] && b.accepted == a.accepted + [a.threads[t].r]
            else b.queue == a.queue && b.accepted == a.accepted
  {
  }

  lemma WorkAccount(a: Pool, b: Pool, t: nat)
    requires t in a.threads && Works(a, b, t)
    ensures b.accepted == a.accepted
    ensures if a.threads[t].WPop? then a.queue != [] && b.queue == a.queue[1..] && b.popped == a.popped + [a.queue[0]]
            else b.queue == a.queue && b.popped == a.popped
  {
  }

  lemma AccountKept(a: Pool, b: Pool, t: nat)
    requires a.popped + a.queue == a.accepted && Moves(a, b, t)
    ensures b.popped + b.queue == b.accepted
  {
    hide Appends, Works;
    if Appends(a, b, t) { AppendAccount(a, b, t); } else { WorkAccount(a, b, t); }
  }

  /** A step that neither pops nor processes anything leaves the requests where they are. */
  lemma HandsKept(a: Pool, b: Pool, t: nat)
    requires Handed(a) && t in a.threads && t in b.threads && b.threads == a.threads[t := b.threads[t]]
    requires b.popped == a.popped && b.done == a.done
    requires !a.threads[t].WGot? && !a.threads[t].WRun? && !b.threads[t].WGot? && !b.threads[t].WRun?
    ensures Handed(b)
  {
    assert forall u, i :: InHand(b, u, i) <==> InHand(a, u, i);
  }

  lemma HandedKept(a: Pool, b: Pool, t: nat)
    requires Handed(a) && Moves(a, b, t)
    ensures Handed(b)
  {
    hide Handed;
    match a.threads[t]
    case WPop(token) => PopHands(a, b, t);
    case WGot(i) => GotHands(a, b, t, i);
    case WRun(i) => RunHands(a, b, t, i);
    case _ => HandsKept(a, b, t);
  }

  lemma PopHands(a: Pool, b: Pool, t: nat)
    requires Handed(a) && t in a.threads && a.threads[t].WPop? && Works(a, b, t)
    ensures Handed(b)
  {
    var n := |a.popped|;
    assert InHand(b, t, n);
    assert forall u, i :: InHand(b, u, i) <==> InHand(a, u, i) || (u == t && i == n);
    forall i | 0 <= i < |b.popped| && b.popped[i] != Null ensures i in b.done || exists u :: InHand(b, u, i) {
      if i < n && i !in a.done {
        var u :| InHand(a, u, i);
        assert InHand(b, u, i);
      }
    }
  }

  lemma GotHands(a: Pool, b: Pool, t: nat, i: nat)
    requires Handed(a) && t in a.threads && a.threads[t] == WGot(i) && Works(a, b, t)
    ensures Handed(b)
  {
    assert InHand(a, t, i);
    assert forall u, j :: InHand(b, u, j) <==> InHand(a, u, j) && (u != t || a.popped[i] != Null);
    forall j | 0 <= j < |b.popped| && b.popped[j] != Null ensures j in b.done || exists u :: InHand(b, u, j) {
      if j !in a.done {
        var u :| InHand(a, u, j);
        assert InHand(b, u, j);
      }
    }
  }

  lemma RunHands(a: Pool, b: Pool, t: nat, i: nat)
    requires Handed(a) && t in a.threads && a.threads[t] == WRun(i) && Works(a, b, t)
    ensures Handed(b)
  {
    assert InHand(a, t, i);
    assert forall u, j :: InHand(b, u, j) <==> InHand(a, u, j) && u != t;
    forall j | 0 <= j < |b.popped| && b.popped[j] != Null ensures j in b.done || exists u :: InHand(b, u, j) {
      if j !in a.done && j != i {
        var u :| InHand(a, u, j);
        assert InHand(b, u, j);
      }
    }
  }

  lemma MoveKeeps(a: Pool, b: Pool, t: nat)
    requires Inv(a) && Moves(a, b, t)
    ensures Inv(b)
  {
    hide Exclusive, Bounded, Balanced, Handed, Moves;
    ExclusiveKept(a, b, t);
    BoundedKept(a, b, t);
    BalancedKept(a, b, t);
    HandedKept(a, b, t);
    AccountKept(a, b, t);
  }

  lemma StepKeeps(a: Pool, b: Pool)
    requires Inv(a) && Next(a, b)
    ensures Inv(b)
  {
    hide Moves, OnTheWay;
    if b == a.(stop := true) {
      assert forall t, i :: InHand(b, t, i) <==> InHand(a, t, i);
    } else {
      var t :| Steps(a, b, t);
      if Moves(a, b, t) {
        MoveKeeps(a, b, t);
      } else {
        WayCount(a.threads, t, b.threads[t]);
        HandsKept(a, b, t);
      }
    }
  }

  lemma RunPrefix(ps: seq<Pool>, n: nat)
    requires Run(ps) && 0 < n <= |ps|
    ensures Run(ps[..n])
  {
    forall i | 0 < i < n ensures Follows(ps[..n], i) { assert Follows(ps, i); }
  }

  lemma {:induction false} RunKeeps(ps: seq<Pool>)
    requires Run(ps)
    ensures Inv(ps[|ps| - 1])
  {
    var n := |ps| - 1;
    if n == 0 {
      assert Holders(ps[0].threads) == {} && Posters(ps[0].threads) == {};
    } else {
      RunPrefix(ps, n);
      assert Follows(ps, n);
      RunKeeps(ps[..n]);
      StepKeeps(ps[n - 1], ps[n]);
    }
  }

  // ---------- every run ----------

  function Last(ps: seq<Pool>): Pool
    requires ps != []
  {
    ps[|ps| - 1]
  }

  /** Requests leave the queue in the order they came, none twice; one more than the maximum may be queued. */
  lemma Conserved(ps: seq<Pool>)
    requires Run(ps)
    ensures var p := Last(ps); p.popped + p.queue == p.accepted && |p.queue| <= p.max + 1
  {
    RunKeeps(ps);
  }

  /** Each popped request that is not null is processed once: it was, or exactly one worker has it in hand. */
  lemma HandledOnce(ps: seq<Pool>, i: nat)
    requires Run(ps) && i < |Last(ps).popped|
    ensures var p := Last(ps);
            && (i in p.done ==> p.popped[i] != Null && forall t :: !InHand(p, t, i))
            && (p.popped[i] != Null ==> i in p.done || exists t :: InHand(p, t, i))
            && forall t, u :: InHand(p, t, i) && InHand(p, u, i) ==> t == u
  {
    RunKeeps(ps);
  }

  /** At most one thread is at work on the queue. */
  lemma MutualExclusion(ps: seq<Pool>, t: nat, u: nat)
    requires Run(ps) && t in Last(ps).threads && u in Last(ps).threads
    requires Inside(Last(ps).threads[t]) && Inside(Last(ps).threads[u])
    ensures t == u
  {
    RunKeeps(ps);
  }

  /** A request is turned away exactly when one more than the maximum is queued. */
  lemma Refused(ps: seq<Pool>, b: Pool, t: nat)
    requires Run(ps) && t in Last(ps).threads && Last(ps).threads[t].ACheck? && Appends(Last(ps), b, t)
    ensures t in b.threads && (b.threads[t] == ANo <==> |Last(ps).queue| == Last(ps).max + 1)
  {
    RunKeeps(ps);
  }

  /** Tokens that met an empty queue are no more than pops that had no token. */
  lemma TokensPaid(ps: seq<Pool>)
    requires Run(ps)
    ensures var p := Last(ps);
            |p.queue| + p.bare == p.sem + OnTheWay(p.threads) + p.wasted + p.lost && p.wasted <= p.bare
  {
    RunKeeps(ps);
  }

  ghost predicate NoneFails(a: Pool, b: Pool) { forall t :: !FailsToWait(a, b, t) }

  ghost predicate NoFailure(ps: seq<Pool>, i: int)
    requires 0 < i < |ps|
  {
    NoneFails(ps[i - 1], ps[i])
  }

  ghost predicate WaitsSucceed(ps: seq<Pool>) {
    forall i :: 0 < i < |ps| ==> NoFailure(ps, i)
  }

  predicate Unpaid(pc: Pc) { (pc.WLock? || pc.WCheck? || pc.WPop?) && !pc.token }

  ghost predicate AllPaid(p: Pool) {
    p.bare == 0 && forall t :: t in p.threads ==> !Unpaid(p.threads[t])
  }

  lemma PaidMove(a: Pool, b: Pool, t: nat)
    requires Moves(a, b, t)
    ensures t in b.threads && b.threads == a.threads[t := b.threads[t]]
    ensures (Unpaid(b.threads[t]) || b.bare != a.bare) ==> Unpaid(a.threads[t])
  {
    if Appends(a, b, t) {
      AppendSlack(a, b, t);
      assert !b.threads[t].WLock? && !b.threads[t].WCheck? && !b.threads[t].WPop?;
      hide Moves, Appends, Works;
    } else {
      WorkPlace(a, b, t);
      WorkPaid(a, b, t);
      hide Moves, Appends, Works;
    }
  }

  lemma WorkPaid(a: Pool, b: Pool, t: nat)
    requires t in a.threads && Works(a, b, t)
    ensures t in b.threads && ((Unpaid(b.threads[t]) || b.bare != a.bare) ==> Unpaid(a.threads[t]))
  {
  }

  lemma PaidKept(a: Pool, b: Pool, t: nat)
    requires AllPaid(a) && Steps(a, b, t) && !FailsToWait(a, b, t)
    ensures AllPaid(b)
  {
    if Moves(a, b, t) {
      PaidMove(a, b, t);
      hide Moves;
    }
  }

  lemma {:induction false} RunPaid(ps: seq<Pool>)
    requires Run(ps) && WaitsSucceed(ps)
    ensures AllPaid(Last(ps))
  {
    var n := |ps| - 1;
    if n > 0 {
      RunPrefix(ps, n);
      assert Follows(ps, n);
      assert NoFailure(ps, n);
      forall i | 0 < i < n ensures NoFailure(ps[..n], i) { assert NoFailure(ps, i); }
      RunPaid(ps[..n]);
      if ps[n] != ps[n - 1].(stop := true) {
        var t :| Steps(ps[n - 1], ps[n], t);
        PaidKept(ps[n - 1], ps[n], t);
      }
    }
  }

  /**
   While every wait succeeds, no worker that got the lock finds the queue empty, and no post of a
   smaller pool is lost.
  */
  lemma TokenFindsWork(ps: seq<Pool>)
    requires Run(ps) && WaitsSucceed(ps)
    ensures var p := Last(ps);
            && (forall t :: t in p.threads && (p.threads[t].WCheck? || p.threads[t].WPop?) ==> p.queue != [])
            && (p.max < SEM_MAX ==> p.lost == 0 && |p.queue| == p.sem + OnTheWay(p.threads))
  {
    RunKeeps(ps);
    RunPaid(ps);
    var p := Last(ps);
    forall t | t in p.threads && (p.threads[t].WCheck? || p.threads[t].WPop?) ensures p.queue != [] {
      WayCount(p.threads, t, Out);
    }
  }

  // ---------- progress ----------

  ghost predicate CanMove(p: Pool, t: nat) { exists b :: Moves(p, b, t) }

  /** Inside the lock, after the lock is free, and before a post nothing holds a thread up. */
  lemma Unhindered(p: Pool, t: nat)
    requires Inv(p) && t in p.threads
    requires var pc := p.threads[t];
             || Inside(pc) || pc.APost? || pc.WTop? || pc.WRun?
             || ((pc.ALock? || pc.WLock?) && p.owner == Free) || (pc.WWait? && p.sem > 0)
    ensures CanMove(p, t)
  {
    var b := match p.threads[t]
      case ALock(r) => To(p, t, ACheck(r)).(owner := By(t))
      case ACheck(r) => To(p, t, if |p.queue| > p.max then ANo else APush(r))
      case APush(r) => To(p, t, AYes).(queue := p.queue + [r], accepted := p.accepted + [r])
      case ANo => To(p, t, Out).(owner := Free)
      case AYes => To(p, t, APost).(owner := Free)
      case APost => Posted(To(p, t, Out))
      case WTop => To(p, t, if p.stop then WGone else WWait)
      case WWait => To(p, t, WLock(true)).(sem := p.sem - 1)
      case WLock(token) => To(p, t, WCheck(token)).(owner := By(t))
      case WCheck(token) =>
        if p.queue == [] then To(p, t, WBack).(wasted := p.wasted + if token then 1 else 0) else To(p, t, WPop(token))
      case WPop(token) =>
        To(p, t, WGot(|p.popped|)).(queue := p.queue[1..], popped := p.popped + [p.queue[0]],
          bare := p.bare + if token then 0 else 1)
      case WBack => To(p, t, WTop).(owner := Free)
      case WGot(i) =>
        assert InHand(p, t, i);
        To(p, t, if p.popped[i] == Null then WTop else WRun(i)).(owner := Free)
      case WRun(i) => To(p, t, WTop).(done := p.done + {i})
      case _ => p;
    assert Moves(p, b, t);
  }

  predicate Worker(pc: Pc) {
    pc.WTop? || pc.WWait? || pc.WLock? || pc.WCheck? || pc.WPop? || pc.WBack? || pc.WGot? || pc.WRun?
  }

  /**
   No request is stranded: while one is queued, a worker is alive and no post was lost, some
   thread can move without a new call and without a failing wait.
  */
  lemma NoDeadlock(ps: seq<Pool>, worker: nat)
    requires Run(ps) && Last(ps).queue != [] && Last(ps).lost == 0
    requires worker in Last(ps).threads && Worker(Last(ps).threads[worker])
    ensures exists t :: CanMove(Last(ps), t)
  {
    RunKeeps(ps);
    var p := Last(ps);
    if p.owner.By? {
      Unhindered(p, p.owner.t);
    } else if t :| t in p.threads && (p.threads[t].WLock? || p.threads[t].APost?) {
      Unhindered(p, t);
    } else {
      assert Holders(p.threads) == {} && Posters(p.threads) == {};
      Unhindered(p, worker);
    }
  }

  // ---------- order ----------

  /** What one step does to the history: a push by a thread about to push, a pop from the front, or nothing. */
  ghost predicate Recorded(a: Pool, b: Pool) {
    || (b.accepted == a.accepted && b.popped == a.popped && a.done <= b.done)
    || (b.popped == a.popped && b.done == a.done && exists t, r ::
          && t in a.threads && a.threads[t] == APush(r) && b.threads == a.threads[t := AYes]
          && b.accepted == a.accepted + [r] && b.queue == a.queue + [r])
    || (b.accepted == a.accepted && b.done == a.done && a.queue != []
        && b.popped == a.popped + [a.queue[0]] && b.queue == a.queue[1..])
  }

  lemma AppendRecorded(a: Pool, b: Pool, t: nat)
    requires t in a.threads && Appends(a, b, t)
    ensures Recorded(a, b)
  {
    if a.threads[t].APush? {
      assert a.threads[t] == APush(a.threads[t].r) && b.threads == a.threads[t := AYes];
    }
  }

  lemma WorkRecorded(a: Pool, b: Pool, t: nat)
    requires t in a.threads && Works(a, b, t)
    ensures Recorded(a, b)
  {
  }

  lemma StepRecorded(a: Pool, b: Pool)
    requires Next(a, b)
    ensures Recorded(a, b)
  {
    if b != a.(stop := true) {
      var t :| Steps(a, b, t);
      if Moves(a, b, t) {
        if Appends(a, b, t) { AppendRecorded(a, b, t); } else { WorkRecorded(a, b, t); }
      }
    }
  }

  /** The history is never rewritten: requests are accepted and popped one behind the other. */
  lemma {:induction false} InOrder(ps: seq<Pool>, i: nat, j: nat)
    requires Run(ps) && i <= j < |ps|
    ensures ps[i].accepted <= ps[j].accepted && ps[i].popped <= ps[j].popped && ps[i].done <= ps[j].done
    ensures i < j ==> Recorded(ps[j - 1], ps[j])
    decreases j
  {
    if i < j {
      assert Follows(ps, j);
      InOrder(ps, i, j - 1);
      StepRecorded(ps[j - 1], ps[j]);
      hide Run, Next;
    }
  }

  // ---------- stopping ----------

  /** A worker at the top of its loop looks at the flag: it leaves if the pool was stopped, and waits if not. */
  lemma LooksAtStop(a: Pool, b: Pool, t: nat)
    requires t in a.threads && a.threads[t] == WTop && Moves(a, b, t)
    ensures b == a.(threads := a.threads[t := if a.stop then WGone else WWait])
  {
  }

  lemma StopStep(a: Pool, b: Pool, t: nat)
    requires Next(a, b) && t in a.threads
    ensures t in b.threads && (a.stop ==> b.stop)
    ensures a.stop && (a.threads[t].WTop? || a.threads[t].WGone?) ==> b.threads[t].WTop? || b.threads[t].WGone?
    ensures a.threads[t].WGone? ==> b.threads[t].WGone?
    ensures b.threads[t].WGone? ==> a.threads[t].WGone? || (a.threads[t].WTop? && a.stop)
  {
    if b != a.(stop := true) {
      var u :| Steps(a, b, u);
      if Moves(a, b, u) { MovedOne(a, b, u); }
    }
  }

  lemma MovedOne(a: Pool, b: Pool, u: nat)
    requires Moves(a, b, u)
    ensures u in b.threads && b.threads == a.threads[u := b.threads[u]] && b.stop == a.stop
    ensures a.threads[u].WTop? ==> b.threads[u] == if a.stop then WGone else WWait
    ensures b.threads[u].WGone? ==> a.threads[u].WTop?
    ensures !a.threads[u].WGone?
  {
    if Appends(a, b, u) { AppendedOne(a, b, u); } else { WorkedOne(a, b, u); }
    hide Appends, Works;
  }

  lemma AppendedOne(a: Pool, b: Pool, u: nat)
    requires u in a.threads && Appends(a, b, u)
    ensures u in b.threads && b.threads == a.threads[u := b.threads[u]] && b.stop == a.stop
    ensures !b.threads[u].WGone? && !a.threads[u].WTop? && !a.threads[u].WGone?
  {
  }

  lemma WorkedOne(a: Pool, b: Pool, u: nat)
    requires u in a.threads && Works(a, b, u)
    ensures u in b.threads && b.threads == a.threads[u := b.threads[u]] && b.stop == a.stop
    ensures a.threads[u].WTop? ==> b.threads[u] == if a.stop then WGone else WWait
    ensures b.threads[u].WGone? ==> a.threads[u].WTop?
    ensures !a.threads[u].WGone?
  {
  }

  /** Once the pool is stopped, a worker that is back at the top never waits again, and who is gone stays gone. */
  lemma {:induction false} NeverWaitsAgain(ps: seq<Pool>, i: nat, j: nat, t: nat)
    requires Run(ps) && i <= j < |ps| && t in ps[i].threads && ps[i].stop
    requires ps[i].threads[t].WTop? || ps[i].threads[t].WGone?
    ensures t in ps[j].threads && ps[j].stop && (ps[j].threads[t].WTop? || ps[j].threads[t].WGone?)
    ensures ps[i].threads[t].WGone? ==> ps[j].threads[t].WGone?
    decreases j
  {
    if i < j {
      assert Follows(ps, j);
      NeverWaitsAgain(ps, i, j - 1, t);
      StopStep(ps[j - 1], ps[j], t);
    }
  }

  lemma {:induction false} SameThreads(ps: seq<Pool>, j: nat)
    requires Run(ps) && j < |ps|
    ensures ps[j].threads.Keys == ps[0].threads.Keys
  {
    if j > 0 {
      assert Follows(ps, j);
      SameThreads(ps, j - 1);
      if ps[j] != ps[j - 1].(stop := true) {
        var u :| Steps(ps[j - 1], ps[j], u);
        if Moves(ps[j - 1], ps[j], u) { MovedOne(ps[j - 1], ps[j], u); }
      }
    }
  }

  /** No worker leaves before the pool is stopped. */
  lemma {:induction false} LeavesOnlyStopped(ps: seq<Pool>, j: nat, t: nat)
    requires Run(ps) && j < |ps| && t in ps[j].threads && ps[j].threads[t].WGone?
    ensures ps[j].stop
  {
    if j > 0 {
      assert Follows(ps, j);
      SameThreads(ps, j);
      SameThreads(ps, j - 1);
      StopStep(ps[j - 1], ps[j], t);
      if ps[j - 1].threads[t].WGone? { LeavesOnlyStopped(ps, j - 1, t); }
    }
  }

  // ---------- two runs ----------

  lemma Extend(ps: seq<Pool>, b: Pool, t: nat) returns (qs: seq<Pool>)
    requires Run(ps) && Steps(Last(ps), b, t)
    ensures qs != [] && Run(qs) && Last(qs) == b
  {
    qs := ps + [b];
    forall i | 0 < i < |qs| ensures Follows(qs, i) {
      if i < |ps| { assert Follows(ps, i); }
    }
  }

  lemma Again(p: Pool, t: nat, x: Pc, y: Pc)
    ensures To(To(p, t, x), t, y) == To(p, t, y)
  {
    assert p.threads[t := x][t := y] == p.threads[t := y];
  }

  lemma LockAppender(ps: seq<Pool>, t: nat, r: Req) returns (qs: seq<Pool>)
    requires Run(ps) && t in Last(ps).threads && Last(ps).threads[t] == Out && Last(ps).owner == Free
    ensures qs != [] && Run(qs) && Last(qs) == To(Last(ps), t, ACheck(r)).(owner := By(t))
  {
    var p := Last(ps);
    hide Run;
    Again(p, t, ALock(r), ACheck(r));
    assert Calls(p, To(p, t, ALock(r)), t);
    qs := Extend(ps, To(p, t, ALock(r)), t);
    qs := Extend(qs, To(p, t, ACheck(r)).(owner := By(t)), t);
  }

  lemma Tests(ps: seq<Pool>, t: nat, r: Req) returns (qs: seq<Pool>)
    requires Run(ps) && t in Last(ps).threads && Last(ps).threads[t] == ACheck(r) && |Last(ps).queue| <= Last(ps).max
    ensures qs != [] && Run(qs) && Last(qs) == To(Last(ps), t, APush(r))
  {
    qs := Extend(ps, To(Last(ps), t, APush(r)), t);
  }

  lemma Pushes(ps: seq<Pool>, t: nat, r: Req) returns (qs: seq<Pool>)
    requires Run(ps) && t in Last(ps).threads && Last(ps).threads[t] == APush(r)
    ensures qs != [] && Run(qs)
    ensures var p := Last(ps); Last(qs) == To(p, t, AYes).(queue := p.queue + [r], accepted := p.accepted + [r])
  {
    qs := Extend(ps, To(Last(ps), t, AYes).(queue := Last(ps).queue + [r], accepted := Last(ps).accepted + [r]), t);
  }

  lemma UnlocksAppender(ps: seq<Pool>, t: nat) returns (qs: seq<Pool>)
    requires Run(ps) && t in Last(ps).threads && Last(ps).threads[t] == AYes
    ensures qs != [] && Run(qs) && Last(qs) == To(Last(ps), t, APost).(owner := Free)
  {
    qs := Extend(ps, To(Last(ps), t, APost).(owner := Free), t);
  }

  lemma Posts(ps: seq<Pool>, t: nat) returns (qs: seq<Pool>)
    requires Run(ps) && t in Last(ps).threads && Last(ps).threads[t] == APost
    ensures qs != [] && Run(qs) && Last(qs) == Posted(To(Last(ps), t, Out))
  {
    qs := Extend(ps, Posted(To(Last(ps), t, Out)), t);
  }

  lemma Enters(ps: seq<Pool>, t: nat, r: Req) returns (qs: seq<Pool>)
    requires Run(ps)
    requires var p := Last(ps); t in p.threads && p.threads[t] == Out && p.owner == Free && |p.queue| <= p.max
    ensures qs != [] && Run(qs) && Last(qs) == To(Last(ps), t, APush(r)).(owner := By(t))
  {
    var p := Last(ps);
    hide Run;
    qs := LockAppender(ps, t, r);
    qs := Tests(qs, t, r);
    Again(p, t, ACheck(r), APush(r));
  }

  lemma Leaves(ps: seq<Pool>, t: nat, r: Req) returns (qs: seq<Pool>)
    requires Run(ps) && t in Last(ps).threads && Last(ps).threads[t] == APush(r)
    ensures qs != [] && Run(qs)
    ensures var p := Last(ps);
            Last(qs) == Posted(To(p, t, Out).(owner := Free, queue := p.queue + [r], accepted := p.accepted + [r]))
  {
    var p := Last(ps);
    hide Run;
    qs := Pushes(ps, t, r);
    Again(p, t, AYes, APost);
    qs := UnlocksAppender(qs, t);
    Again(p, t, APost, Out);
    qs := Posts(qs, t);
  }

  /** One append from the call to the return, with nothing in between. */
  lemma AppendAlone(ps: seq<Pool>, t: nat, r: Req) returns (qs: seq<Pool>)
    requires Run(ps)
    requires var p := Last(ps); t in p.threads && p.threads[t] == Out && p.owner == Free && |p.queue| <= p.max
    ensures qs != [] && Run(qs)
    ensures var p := Last(ps); Last(qs) == Posted(p.(queue := p.queue + [r], accepted := p.accepted + [r]))
  {
    var p := Last(ps);
    hide Run;
    qs := Enters(ps, t, r);
    qs := Leaves(qs, t, r);
    Again(p, t, APush(r), Out);
    assert p.threads[t := Out] == p.threads;
  }

  ghost function Start(max: nat, workers: map<nat, Pc>): Pool {
    Pool(max, [], 0, Free, false, map[0 := Out] + workers, [], [], {}, 0, 0, 0)
  }

  lemma Started(max: nat)
    requires max > 0
    ensures Run([Start(max, map[1 := WTop])]) && Start(max, map[1 := WTop]).threads == map[0 := Out, 1 := WTop]
  {
    var p := Start(max, map[1 := WTop]);
    assert p.threads[1] == WTop && p.threads == map[0 := Out, 1 := WTop];
  }

  lemma {:induction false} Fill(max: nat, n: nat) returns (ps: seq<Pool>)
    requires 0 < max && n <= max + 1
    ensures ps != [] && Run(ps) && |Last(ps).queue| == n && Last(ps).max == max
    ensures Last(ps).owner == Free && Last(ps).threads == map[0 := Out, 1 := WTop]
  {
    if n == 0 {
      Started(max);
      ps := [Start(max, map[1 := WTop])];
    } else {
      hide Run;
      ps := Fill(max, n - 1);
      ps := AppendAlone(ps, 0, Null);
    }
  }

  /** The bound is met: whatever the maximum, one request more can be queued. */
  lemma OneTooMany(max: nat)
    requires 0 < max
    ensures exists ps :: Run(ps) && Last(ps).max == max && |Last(ps).queue| == max + 1
  {
    var ps := Fill(max, max + 1);
  }

  lemma Turns(ps: seq<Pool>, t: nat) returns (qs: seq<Pool>)
    requires Run(ps) && t in Last(ps).threads && Last(ps).threads[t] == WTop && !Last(ps).stop
    ensures qs != [] && Run(qs) && Last(qs) == To(Last(ps), t, WWait)
  {
    qs := Extend(ps, To(Last(ps), t, WWait), t);
  }

  lemma Waits(ps: seq<Pool>, t: nat, token: bool) returns (qs: seq<Pool>)
    requires Run(ps) && t in Last(ps).threads && Last(ps).threads[t] == WWait && (token ==> Last(ps).sem > 0)
    ensures qs != [] && Run(qs)
    ensures Last(qs) == To(Last(ps), t, WLock(token)).(sem := if token then Last(ps).sem - 1 else Last(ps).sem)
  {
    qs := Extend(ps, To(Last(ps), t, WLock(token)).(sem := if token then Last(ps).sem - 1 else Last(ps).sem), t);
  }

  lemma LockWorker(ps: seq<Pool>, t: nat, token: bool) returns (qs: seq<Pool>)
    requires Run(ps) && t in Last(ps).threads && Last(ps).threads[t] == WLock(token) && Last(ps).owner == Free
    ensures qs != [] && Run(qs) && Last(qs) == To(Last(ps), t, WCheck(token)).(owner := By(t))
  {
    qs := Extend(ps, To(Last(ps), t, WCheck(token)).(owner := By(t)), t);
  }

  lemma Looks(ps: seq<Pool>, t: nat, token: bool) returns (qs: seq<Pool>)
    requires Run(ps) && t in Last(ps).threads && Last(ps).threads[t] == WCheck(token)
    ensures qs != [] && Run(qs)
    ensures Last(qs) == if Last(ps).queue == [] then To(Last(ps), t, WBack).(wasted := Last(ps).wasted + One(token))
                        else To(Last(ps), t, WPop(token))
  {
    qs := Extend(ps, if Last(ps).queue == [] then To(Last(ps), t, WBack).(wasted := Last(ps).wasted + One(token))
                     else To(Last(ps), t, WPop(token)), t);
  }

  lemma Pops(ps: seq<Pool>, t: nat) returns (qs: seq<Pool>)
    requires Run(ps) && t in Last(ps).threads && Last(ps).threads[t] == WPop(false) && Last(ps).queue != []
    ensures qs != [] && Run(qs)
    ensures var p := Last(ps);
            Last(qs) == To(p, t, WGot(|p.popped|)).(queue := p.queue[1..], popped := p.popped + [p.queue[0]],
              bare := p.bare + 1)
  {
    var p := Last(ps);
    qs := Extend(ps, To(p, t, WGot(|p.popped|)).(queue := p.queue[1..], popped := p.popped + [p.queue[0]],
      bare := p.bare + 1), t);
  }

  lemma SkipsNull(ps: seq<Pool>, t: nat, i: nat) returns (qs: seq<Pool>)
    requires Run(ps) && t in Last(ps).threads && Last(ps).threads[t] == WGot(i) && i < |Last(ps).popped|
    requires Last(ps).popped[i] == Null
    ensures qs != [] && Run(qs) && Last(qs) == To(Last(ps), t, WTop).(owner := Free)
  {
    qs := Extend(ps, To(Last(ps), t, WTop).(owner := Free), t);
  }

  /**
   After a failed wait a token can meet an empty queue, whatever the maximum: one append, and a
   worker that waits twice, first in vain.
  */
  lemma TokenForNothing(max: nat)
    requires 0 < max
    ensures exists ps :: Run(ps) && Last(ps).max == max && Last(ps).bare == 1 && Last(ps).wasted == 1
  {
    hide Run, To;
    var ps := [Start(max, map[1 := WTop])];
    assert Run(ps) by { Started(max); }
    ps := AppendAlone(ps, 0, Null);
    ps := PopsUnpaid(ps, 1);
    ps := GoesAway(ps, 1);
  }

  /** A worker whose wait failed gets as far as the pop. */
  lemma WaitsInVain(ps: seq<Pool>, t: nat) returns (qs: seq<Pool>)
    requires Run(ps)
    requires var p := Last(ps); t in p.threads && p.threads[t] == WTop && !p.stop && p.owner == Free && p.queue != []
    ensures qs != [] && Run(qs) && Last(qs) == To(Last(ps), t, WPop(false)).(owner := By(t))
  {
    var p := Last(ps);
    hide Run;
    qs := Turns(ps, t);
    Again(p, t, WWait, WLock(false));
    qs := Waits(qs, t, false);
    Again(p, t, WLock(false), WCheck(false));
    qs := LockWorker(qs, t, false);
    Again(p, t, WCheck(false), WPop(false));
    qs := Looks(qs, t, false);
  }

  lemma PopsUnpaid(ps: seq<Pool>, t: nat) returns (qs: seq<Pool>)
    requires Run(ps)
    requires var p := Last(ps);
             t in p.threads && p.threads[t] == WTop && !p.stop && p.owner == Free && p.queue != [] && p.queue[0] == Null
    ensures qs != [] && Run(qs)
    ensures var p := Last(ps); Last(qs) == p.(queue := p.queue[1..], popped := p.popped + [Null], bare := p.bare + 1)
  {
    var p := Last(ps);
    hide Run;
    qs := WaitsInVain(ps, t);
    Again(p, t, WPop(false), WGot(|p.popped|));
    qs := Pops(qs, t);
    Again(p, t, WGot(|p.popped|), WTop);
    qs := SkipsNull(qs, t, |p.popped|);
    assert p.threads[t := WTop] == p.threads;
  }

  /** A worker with a token, and an empty queue. */
  lemma GoesAway(ps: seq<Pool>, t: nat) returns (qs: seq<Pool>)
    requires Run(ps)
    requires var p := Last(ps);
             t in p.threads && p.threads[t] == WTop && !p.stop && p.owner == Free && p.queue == [] && p.sem > 0
    ensures qs != [] && Run(qs) && Last(qs).wasted == Last(ps).wasted + 1
    ensures Last(qs).max == Last(ps).max && Last(qs).bare == Last(ps).bare
  {
    hide Run;
    qs := Turns(ps, t);
    qs := Waits(qs, t, true);
    qs := LockWorker(qs, t, true);
    qs := Looks(qs, t, true);
  }

  /** A request handed in is served, whatever it is and however small the pool: one append, one worker. */
  lemma Served(max: nat, id: nat)
    requires 0 < max
    ensures exists ps :: Run(ps) && Last(ps).max == max && Last(ps).accepted == Last(ps).popped == [Task(id)] &&
                         Last(ps).done == {0} && Last(ps).threads == map[0 := Out, 1 := WTop]
  {
    hide Run, To;
    var ps := [Start(max, map[1 := WTop])];
    assert Run(ps) by { Started(max); }
    ps := AppendAlone(ps, 0, Task(id));
    ps := Serves(ps, 1, id);
  }

  lemma Serves(ps: seq<Pool>, t: nat, id: nat) returns (qs: seq<Pool>)
    requires Run(ps)
    requires var p := Last(ps); t in p.threads && p.threads[t] == WTop && !p.stop && p.owner == Free && p.sem > 0
    requires Last(ps).queue == [Task(id)]
    ensures qs != [] && Run(qs)
    ensures var p := Last(ps);
            Last(qs) == p.(queue := [], sem := p.sem - 1, popped := p.popped + [Task(id)],
                           done := p.done + {|p.popped|})
  {
    var p := Last(ps);
    var i := |p.popped|;
    hide Run;
    qs := WaitsWell(ps, t);
    Again(p, t, WPop(true), WGot(i));
    qs := PopsPaid(qs, t);
    Again(p, t, WGot(i), WTop);
    qs := Processes(qs, t, i);
    assert p.threads[t := WTop] == p.threads;
  }

  lemma Processes(ps: seq<Pool>, t: nat, i: nat) returns (qs: seq<Pool>)
    requires Run(ps) && t in Last(ps).threads && Last(ps).threads[t] == WGot(i) && i < |Last(ps).popped|
    requires Last(ps).popped[i] != Null
    ensures qs != [] && Run(qs) && Last(qs) == To(Last(ps), t, WTop).(owner := Free, done := Last(ps).done + {i})
  {
    var p := Last(ps);
    qs := Extend(ps, To(p, t, WRun(i)).(owner := Free), t);
    Again(p, t, WRun(i), WTop);
    qs := Extend(qs, To(Last(qs), t, WTop).(done := p.done + {i}), t);
  }

  lemma WaitsWell(ps: seq<Pool>, t: nat) returns (qs: seq<Pool>)
    requires Run(ps)
    requires var p := Last(ps); t in p.threads && p.threads[t] == WTop && !p.stop && p.owner == Free && p.sem > 0
    requires Last(ps).queue != []
    ensures qs != [] && Run(qs) && Last(qs) == To(Last(ps), t, WPop(true)).(owner := By(t), sem := Last(ps).sem - 1)
  {
    var p := Last(ps);
    hide Run;
    qs := Turns(ps, t);
    Again(p, t, WWait, WLock(true));
    qs := Waits(qs, t, true);
    Again(p, t, WLock(true), WCheck(true));
    qs := LockWorker(qs, t, true);
    Again(p, t, WCheck(true), WPop(true));
    qs := Looks(qs, t, true);
  }

  lemma PopsPaid(ps: seq<Pool>, t: nat) returns (qs: seq<Pool>)
    requires Run(ps) && t in Last(ps).threads && Last(ps).threads[t] == WPop(true) && Last(ps).queue != []
    ensures qs != [] && Run(qs)
    ensures var p := Last(ps);
            Last(qs) == To(p, t, WGot(|p.popped|)).(queue := p.queue[1..], popped := p.popped + [p.queue[0]])
  {
    var p := Last(ps);
    qs := Extend(ps, To(p, t, WGot(|p.popped|)).(queue := p.queue[1..], popped := p.popped + [p.queue[0]]), t);
  }
}
