/**
 Where the cycle of a linked list starts: a slow and a fast pointer, then two slow ones.
*/
module CycleStart {

  class ListNode {
    var val: int
    var next: ListNode?

    constructor (x: int)
      ensures val == x && next == null
    {
      val, next := x, null;
    }
  }

  /** The nodes of a list: whatever they point to is one of them. */
  ghost predicate Closed(nodes: set<ListNode>)
    reads nodes
  {
    forall n :: n in nodes ==> n.next == null || n.next in nodes
  }

  /** k steps from x, null if the list ends on the way. */
  ghost function Walk(x: ListNode?, k: nat, nodes: set<ListNode>): (y: ListNode?)
    requires Closed(nodes) && (x == null || x in nodes)
    reads nodes
    ensures y == null || y in nodes
  {
    if k == 0 || x == null then x else Walk(x.next, k - 1, nodes)
  }

  /** The walk comes back to x. */
  ghost predicate OnCycle(x: ListNode, nodes: set<ListNode>)
    requires Closed(nodes) && x in nodes
    reads nodes
  {
    exists p: nat :: p > 0 && Walk(x, p, nodes) == x
  }

  ghost predicate Ends(head: ListNode?, nodes: set<ListNode>)
    requires Closed(nodes) && (head == null || head in nodes)
    reads nodes
  {
    exists k: nat :: Walk(head, k, nodes) == null
  }

  lemma {:induction false} WalkOn(x: ListNode?, j: nat, k: nat, nodes: set<ListNode>)
    requires Closed(nodes) && (x == null || x in nodes)
    ensures Walk(x, j + k, nodes) == Walk(Walk(x, j, nodes), k, nodes)
    decreases j
  {
    if j > 0 && x != null { WalkOn(x.next, j - 1, k, nodes); }
  }

  /** Equal places lead to equal places. */
  lemma Onward(x: ListNode?, i: nat, j: nat, k: nat, nodes: set<ListNode>)
    requires Closed(nodes) && (x == null || x in nodes) && Walk(x, i, nodes) == Walk(x, j, nodes)
    ensures Walk(x, i + k, nodes) == Walk(x, j + k, nodes)
  {
    WalkOn(x, i, k, nodes);
    WalkOn(x, j, k, nodes);
  }

  /** A place that is met again after p steps is met again after m times p. */
  lemma {:induction false} Rounds(x: ListNode?, i: nat, p: nat, m: nat, nodes: set<ListNode>)
    requires Closed(nodes) && (x == null || x in nodes) && Walk(x, i + p, nodes) == Walk(x, i, nodes)
    ensures Walk(x, i + m * p, nodes) == Walk(x, i, nodes)
    decreases m
  {
    if m > 0 {
      Rounds(x, i, p, m - 1, nodes);
      Onward(x, i + p, i, (m - 1) * p, nodes);
      assert i + m * p == i + p + (m - 1) * p;
    }
  }

  /** Ended stays ended. */
  lemma Past(x: ListNode?, j: nat, k: nat, nodes: set<ListNode>)
    requires Closed(nodes) && (x == null || x in nodes) && j <= k && Walk(x, j, nodes) == null
    ensures Walk(x, k, nodes) == null
  {
    WalkOn(x, j, k - j, nodes);
  }

  // ---------- the pointers meet ----------

  ghost function Steps(x: ListNode?, n: nat, nodes: set<ListNode>): (s: seq<ListNode?>)
    requires Closed(nodes) && (x == null || x in nodes)
    reads nodes
    ensures |s| == n && forall i :: 0 <= i < n ==> s[i] == Walk(x, i, nodes)
  {
    seq(n, i requires 0 <= i < n && Closed(nodes) && (x == null || x in nodes) reads nodes => Walk(x, i, nodes))
  }

  /** More places than nodes: one comes twice. */
  lemma {:induction false} Pigeons(s: seq<ListNode?>, nodes: set<ListNode>)
    requires |s| > |nodes| && forall i :: 0 <= i < |s| ==> s[i] != null && s[i] in nodes
    ensures exists i, j :: 0 <= i < j < |s| && s[i] == s[j]
    decreases |s|
  {
    var x := s[|s| - 1];
    var r := s[..|s| - 1];
    if i :| 0 <= i < |r| && s[i] == x {
    } else {
      forall i | 0 <= i < |r| ensures r[i] != null && r[i] in nodes - {x} { assert r[i] == s[i]; }
      Pigeons(r, nodes - {x});
      var i, j :| 0 <= i < j < |r| && r[i] == r[j];
      assert s[i] == s[j];
    }
  }

  /** After some number of rounds the fast pointer is where the slow one is. */
  lemma Meeting(head: ListNode?, nodes: set<ListNode>) returns (m: nat)
    requires Closed(nodes) && (head == null || head in nodes)
    ensures m > 0 && Walk(head, 2 * m, nodes) == Walk(head, m, nodes)
  {
    var n := |nodes| + 1;
    if k: nat :| Walk(head, k, nodes) == null {
      m := k + 1;
      Past(head, k, m, nodes);
      Past(head, k, 2 * m, nodes);
    } else {
      var s := Steps(head, n, nodes);
      Pigeons(s, nodes);
      var i, j :| 0 <= i < j < |s| && s[i] == s[j];
      m := Multiple(head, i, j - i, nodes);
    }
  }

  lemma Multiple(head: ListNode?, i: nat, p: nat, nodes: set<ListNode>) returns (m: nat)
    requires Closed(nodes) && (head == null || head in nodes) && p > 0
    requires Walk(head, i + p, nodes) == Walk(head, i, nodes)
    ensures m > 0 && Walk(head, 2 * m, nodes) == Walk(head, m, nodes)
  {
    m := (i + 1) * p;
    assert m >= i + 1;
    Onward(head, i + p, i, m - i, nodes);
    Rounds(head, m, p, i + 1, nodes);
  }

  /** A place that is met again is never followed by the end. */
  lemma {:induction false} Endless(x: ListNode?, i: nat, p: nat, k: nat, nodes: set<ListNode>)
    requires Closed(nodes) && (x == null || x in nodes)
    requires p > 0 && Walk(x, i, nodes) != null && Walk(x, i + p, nodes) == Walk(x, i, nodes)
    ensures Walk(x, k, nodes) != null
    decreases k
  {
    if k <= i {
      if Walk(x, k, nodes) == null { Past(x, k, i, nodes); }
    } else if k <= i + p {
      if Walk(x, k, nodes) == null { Past(x, k, i + p, nodes); }
    } else {
      Endless(x, i, p, k - p, nodes);
      Onward(x, i + p, i, k - p - i, nodes);
    }
  }

  // ---------- and meet again ----------

  /** A node of the walk that is on the cycle comes again after any distance at which a later one does. */
  lemma SameRound(head: ListNode?, j: nat, s: nat, nodes: set<ListNode>)
    requires Closed(nodes) && (head == null || head in nodes)
    requires Walk(head, j, nodes) != null && OnCycle(Walk(head, j, nodes), nodes)
    requires s > 0 && Walk(head, 2 * s, nodes) == Walk(head, s, nodes)
    ensures Walk(head, j + s, nodes) == Walk(head, j, nodes)
  {
    var p: nat :| p > 0 && Walk(Walk(head, j, nodes), p, nodes) == Walk(head, j, nodes);
    WalkOn(head, j, p, nodes);
    Rounds(head, j, p, s, nodes);
    var far := j + s * p;
    assert far >= s;
    Onward(head, 2 * s, s, far - s, nodes);
    Onward(head, far, j, s, nodes);
  }

  /**
   Null exactly when the list ends; otherwise the first node of the walk from head that lies
   on the cycle.
  */
  method DetectCycle(head: ListNode?, ghost nodes: set<ListNode>) returns (r: ListNode?)
    requires Closed(nodes) && (head == null || head in nodes)
    ensures r == null <==> Ends(head, nodes)
    ensures r != null ==>
              r in nodes && OnCycle(r, nodes) &&
              exists k: nat :: Walk(head, k, nodes) == r &&
                               forall j: nat :: j < k ==>
                                 Walk(head, j, nodes) != null && !OnCycle(Walk(head, j, nodes), nodes)
  {
    var fast, slow := head, head;
    ghost var bound := Meeting(head, nodes);
    ghost var s: nat := 0;
    while true
      invariant s < bound && fast == Walk(head, 2 * s, nodes) && slow == Walk(head, s, nodes)
      decreases bound - s
    {
      WalkOn(head, 2 * s, 1, nodes);
      if fast == null || fast.next == null {
        assert Ends(head, nodes);
        return null;
      }
      WalkOn(head, 2 * s, 2, nodes);
      assert Walk(fast, 2, nodes) == Walk(fast.next, 1, nodes) == Walk(fast.next.next, 0, nodes);
      WalkOn(head, s, 1, nodes);
      if slow == null { Past(head, s, 2 * s, nodes); }
      fast := fast.next.next;
      slow := slow.next;
      s := s + 1;
      if slow == null { Past(head, s, 2 * s - 1, nodes); }
      if fast == slow { break; }
    }
    forall k: nat ensures Walk(head, k, nodes) != null { Endless(head, s, s, k, nodes); }
    fast := head;
    ghost var k: nat := 0;
    while fast != slow
      invariant k <= s && fast == Walk(head, k, nodes) && slow == Walk(head, s + k, nodes)
      invariant forall j: nat :: j < k ==> Walk(head, j, nodes) != Walk(head, s + j, nodes)
      decreases s - k
    {
      WalkOn(head, k, 1, nodes);
      WalkOn(head, s + k, 1, nodes);
      fast := fast.next;
      slow := slow.next;
      k := k + 1;
    }
    WalkOn(head, k, s, nodes);
    assert OnCycle(slow, nodes);
    forall j: nat | j < k ensures !OnCycle(Walk(head, j, nodes), nodes) {
      if OnCycle(Walk(head, j, nodes), nodes) { SameRound(head, j, s, nodes); }
    }
    return slow;
  }
}
