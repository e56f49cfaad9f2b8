/**
 Red-black trees as values: the tree and, for a place inside it, the context around that
 place. Each tree node names the heap node it stands for.
*/
module RbModel {

  type Key = x: int | 0 <= x < 0x1_0000_0000
  type Pair = (Key, int)

  datatype Color = Red | Black

  /** A node of the tree; a missing child is the sentinel node. */
  class Node {
    var key: Key
    var color: Color
    var value: int
    var left: Node
    var right: Node
    var parent: Node

    /** A new node, linked to the sentinel on all sides. */
    constructor Create(key: Key, value: int, color: Color, nil: Node)
      ensures this.key == key && this.value == value && this.color == color
      ensures left == nil && right == nil && parent == nil
    {
      this.key, this.value, this.color := key, value, color;
      left, right, parent := nil, nil, nil;
    }

    /** The sentinel. Its links are not set by the source; nothing below relies on them. */
    constructor Sentinel()
      ensures color == Black
    {
      key, value, color := 0, 0, Black;
      left, right, parent := this, this, this;
    }
  }

  datatype Side = Lf | Rt

  function Opp(s: Side): Side { if s == Lf then Rt else Lf }

  datatype Tree = Leaf | T(n: Node, c: Color, k: Key, v: int, l: Tree, r: Tree)

  /** The way from a place up to the root: which child each node passed was left by, and its other subtree. */
  datatype Ctx = Top | Up(side: Side, n: Node, c: Color, k: Key, v: int, sib: Tree, up: Ctx)

  ghost function Depth(ctx: Ctx): nat { if ctx.Top? then 0 else 1 + Depth(ctx.up) }

  /** A node with one subtree on a side and one on the other. */
  ghost function Join(side: Side, n: Node, c: Color, k: Key, v: int, inner: Tree, sib: Tree): Tree {
    if side == Lf then T(n, c, k, v, inner, sib) else T(n, c, k, v, sib, inner)
  }

  // ---------- contents ----------

  ghost function Inorder(t: Tree): seq<Pair> {
    match t
    case Leaf => []
    case T(_, _, k, v, l, r) => Inorder(l) + [(k, v)] + Inorder(r)
  }

  /** The sequence of the whole tree when the place holds s. */
  ghost function Flat(ctx: Ctx, s: seq<Pair>): seq<Pair> {
    match ctx
    case Top => s
    case Up(side, _, _, k, v, sib, up) =>
      Flat(up, if side == Lf then s + [(k, v)] + Inorder(sib) else Inorder(sib) + [(k, v)] + s)
  }

  ghost function Plug(ctx: Ctx, t: Tree): Tree {
    match ctx
    case Top => t
    case Up(side, n, c, k, v, sib, up) => Plug(up, Join(side, n, c, k, v, t, sib))
  }

  ghost predicate Sorted(s: seq<Pair>) {
    forall i, j :: 0 <= i < j < |s| ==> s[i].0 < s[j].0
  }

  /** The pairs of s are exactly the entries of m. */
  ghost predicate Spells(s: seq<Pair>, m: map<Key, int>) {
    && (forall p :: p in s ==> p.0 in m && m[p.0] == p.1)
    && (forall key :: key in m ==> (key, m[key]) in s)
  }

  lemma {:induction false} FlatPlug(ctx: Ctx, t: Tree)
    ensures Inorder(Plug(ctx, t)) == Flat(ctx, Inorder(t))
    decreases ctx
  {
    match ctx
    case Top =>
    case Up(side, n, c, k, v, sib, up) => FlatPlug(up, Join(side, n, c, k, v, t, sib));
  }

  // ---------- red-black conditions ----------

  predicate IsBlack(t: Tree) { t.Leaf? || t.c == Black }

  function Weight(c: Color): nat { if c == Black then 1 else 0 }

  /** Black nodes on the way from the root of t to the sentinel, its leftmost way. */
  ghost function Bh(t: Tree): nat {
    match t
    case Leaf => 0
    case T(_, c, _, _, l, _) => Bh(l) + Weight(c)
  }

  /** No red node has a red child, and all ways down pass as many black nodes. */
  ghost predicate IsRB(t: Tree) {
    match t
    case Leaf => true
    case T(_, c, _, _, l, r) =>
      IsRB(l) && IsRB(r) && Bh(l) == Bh(r) && (c == Red ==> IsBlack(l) && IsBlack(r))
  }

  predicate UnderRed(ctx: Ctx) { !ctx.Top? && ctx.c == Red }

  /**
   The context of a place that calls for black height bh: with a tree of that height in it,
   no condition is broken but perhaps a red node below a red parent at the place itself.
  */
  ghost predicate CtxRB(ctx: Ctx, bh: nat) {
    match ctx
    case Top => true
    case Up(_, _, c, _, _, sib, up) =>
      && IsRB(sib) && Bh(sib) == bh && (c == Red ==> IsBlack(sib) && !up.Top? && up.c == Black)
      && CtxRB(up, bh + Weight(c))
  }

  /** A fitting tree in a fitting context makes a red-black tree. */
  lemma {:induction false} PlugRB(ctx: Ctx, t: Tree)
    requires IsRB(t) && CtxRB(ctx, Bh(t)) && (UnderRed(ctx) ==> IsBlack(t))
    ensures IsRB(Plug(ctx, t))
    ensures IsBlack(Plug(ctx, t)) || (ctx.Top? && !IsBlack(t))
    decreases ctx
  {
    match ctx
    case Top =>
    case Up(side, n, c, k, v, sib, up) => PlugRB(up, Join(side, n, c, k, v, t, sib));
  }

  // ---------- height ----------

  ghost function Height(t: Tree): nat {
    if t.Leaf? then 0 else 1 + (if Height(t.l) > Height(t.r) then Height(t.l) else Height(t.r))
  }

  ghost function Size(t: Tree): nat {
    if t.Leaf? then 0 else 1 + Size(t.l) + Size(t.r)
  }

  ghost function Pow2(k: nat): nat {
    if k == 0 then 1 else 2 * Pow2(k - 1)
  }

  lemma {:induction false} HeightBound(t: Tree)
    requires IsRB(t)
    ensures Height(t) <= 2 * Bh(t) + (if IsBlack(t) then 0 else 1) && Size(t) + 1 >= Pow2(Bh(t))
  {
    if t.T? {
      HeightBound(t.l);
      HeightBound(t.r);
    }
  }

  lemma {:induction false} Pow2Grows(a: nat, b: nat)
    requires a <= b
    ensures Pow2(a) <= Pow2(b)
  {
    if a < b { Pow2Grows(a, b - 1); }
  }

  lemma Pow2Ten()
    ensures Pow2(10) == 1024
  {
    assert Pow2(5) == 32;
  }

  /** A red-black tree with a black root and height h has at least 2^(h/2) - 1 nodes. */
  lemma BalancedHeight(t: Tree)
    requires IsRB(t) && IsBlack(t)
    ensures Size(t) + 1 >= Pow2(Height(t) / 2)
  {
    HeightBound(t);
    Pow2Grows(Height(t) / 2, Bh(t));
  }

  lemma {:induction false} DepthHeight(ctx: Ctx, t: Tree)
    ensures Depth(ctx) + Height(t) <= Height(Plug(ctx, t))
    decreases ctx
  {
    if ctx.Up? { DepthHeight(ctx.up, Join(ctx.side, ctx.n, ctx.c, ctx.k, ctx.v, t, ctx.sib)); }
  }

  // ---------- searching ----------

  /** The pairs before and behind a place. */
  ghost function Before(ctx: Ctx): seq<Pair> {
    match ctx
    case Top => []
    case Up(side, _, _, k, v, sib, up) => if side == Lf then Before(up) else Before(up) + Inorder(sib) + [(k, v)]
  }

  ghost function After(ctx: Ctx): seq<Pair> {
    match ctx
    case Top => []
    case Up(side, _, _, k, v, sib, up) => if side == Lf then [(k, v)] + Inorder(sib) + After(up) else After(up)
  }

  lemma {:induction false} FlatSplit(ctx: Ctx, s: seq<Pair>)
    ensures Flat(ctx, s) == Before(ctx) + s + After(ctx)
    decreases ctx
  {
    match ctx
    case Top =>
    case Up(side, _, _, k, v, sib, up) =>
      var s' := if side == Lf then s + [(k, v)] + Inorder(sib) else Inorder(sib) + [(k, v)] + s;
      FlatSplit(up, s');
      assert Flat(ctx, s) == Before(up) + s' + After(up);
  }

  ghost predicate AllBelow(s: seq<Pair>, key: Key) { forall i :: 0 <= i < |s| ==> s[i].0 < key }

  ghost predicate AllAbove(s: seq<Pair>, key: Key) { forall i :: 0 <= i < |s| ==> s[i].0 > key }

  /** The key can only be at the place: everything before is smaller, everything behind greater. */
  ghost predicate Narrowed(ctx: Ctx, key: Key) {
    AllBelow(Before(ctx), key) && AllAbove(After(ctx), key)
  }

  /** The way down from a node whose key differs. */
  ghost function Down(ctx: Ctx, t: Tree, side: Side): Ctx
    requires t.T?
  {
    Up(side, t.n, t.c, t.k, t.v, if side == Lf then t.r else t.l, ctx)
  }

  lemma NarrowDown(ctx: Ctx, t: Tree, key: Key)
    requires t.T? && t.k != key && Narrowed(ctx, key) && Sorted(Flat(ctx, Inorder(t)))
    ensures Narrowed(Down(ctx, t, if t.k < key then Rt else Lf), key)
  {
    FlatSplit(ctx, Inorder(t));
    var b, a, l, r := Before(ctx), After(ctx), Inorder(t.l), Inorder(t.r);
    MiddleSorted(b, l, (t.k, t.v), r, a);
    if t.k < key {
      assert Before(Down(ctx, t, Rt)) == b + l + [(t.k, t.v)];
    } else {
      assert After(Down(ctx, t, Lf)) == [(t.k, t.v)] + r + a;
    }
  }

  lemma MiddleSorted(b: seq<Pair>, l: seq<Pair>, p: Pair, r: seq<Pair>, a: seq<Pair>)
    requires Sorted(b + (l + [p] + r) + a)
    ensures AllBelow(l, p.0) && AllAbove(r, p.0)
  {
    var s, m := b + (l + [p] + r) + a, |b| + |l|;
    assert s[m] == p;
    forall i | 0 <= i < |l| ensures l[i].0 < p.0 { assert s[|b| + i] == l[i]; }
    forall i | 0 <= i < |r| ensures r[i].0 > p.0 { assert s[m + 1 + i] == r[i]; }
  }

  /** A pair in the sequence is in the map; a key passed on both sides is not. */
  lemma InMap(a: seq<Pair>, key: Key, v: int, b: seq<Pair>, m: map<Key, int>)
    requires Spells(a + [(key, v)] + b, m)
    ensures key in m && m[key] == v
  {
    assert (key, v) in a + [(key, v)] + b;
  }

  /** The node at a place is in the map. */
  lemma InMapAt(ctx: Ctx, t: Tree, m: map<Key, int>)
    requires t.T? && Spells(Flat(ctx, Inorder(t)), m)
    ensures t.k in m && m[t.k] == t.v
  {
    FlatSplit(ctx, Inorder(t));
    var a, b := Before(ctx) + Inorder(t.l), Inorder(t.r) + After(ctx);
    assert Flat(ctx, Inorder(t)) == a + [(t.k, t.v)] + b;
    InMap(a, t.k, t.v, b, m);
  }

  lemma NotInMap(a: seq<Pair>, key: Key, b: seq<Pair>, m: map<Key, int>)
    requires AllBelow(a, key) && AllAbove(b, key) && Spells(a + b, m)
    ensures key !in m
  {
    forall p | p in a + b ensures p.0 != key {
      assert p in a || p in b;
    }
  }

  ghost predicate Under(a: seq<Pair>, b: seq<Pair>) {
    forall i, j :: 0 <= i < |a| && 0 <= j < |b| ==> a[i].0 < b[j].0
  }

  lemma SortedConcat(a: seq<Pair>, b: seq<Pair>)
    ensures Sorted(a + b) <==> Sorted(a) && Sorted(b) && Under(a, b)
  {
    var s := a + b;
    if Sorted(s) {
      forall i, j | 0 <= i < j < |a| ensures a[i].0 < a[j].0 { assert s[i].0 < s[j].0; }
      forall i, j | 0 <= i < j < |b| ensures b[i].0 < b[j].0 { assert s[|a| + i].0 < s[|a| + j].0; }
      forall i, j | 0 <= i < |a| && 0 <= j < |b| ensures a[i].0 < b[j].0 { assert s[i].0 < s[|a| + j].0; }
    }
  }

  /** A pair stands between the pairs with smaller and the pairs with greater keys. */
  lemma SortedAround(a: seq<Pair>, key: Key, v: int, b: seq<Pair>)
    ensures Sorted(a + [(key, v)] + b) <==> Sorted(a + b) && AllBelow(a, key) && AllAbove(b, key)
  {
    SortedConcat(a, b);
    SortedConcat(a, [(key, v)]);
    SortedConcat(a + [(key, v)], b);
    var s := a + [(key, v)];
    assert s[|a|] == (key, v);
    assert Under(s, b) <==> Under(a, b) && AllAbove(b, key) by {
      if Under(s, b) {
        forall j | 0 <= j < |b| ensures b[j].0 > key { assert s[|a|].0 < b[j].0; }
        forall i, j | 0 <= i < |a| && 0 <= j < |b| ensures a[i].0 < b[j].0 { assert s[i].0 < b[j].0; }
      }
    }
    assert Under(a, [(key, v)]) <==> AllBelow(a, key) by {
      if Under(a, [(key, v)]) {
        forall i | 0 <= i < |a| ensures a[i].0 < key { assert a[i].0 < [(key, v)][0].0; }
      }
    }
  }

  lemma SpellsAround(a: seq<Pair>, key: Key, v: int, b: seq<Pair>, m: map<Key, int>)
    requires forall p :: p in a + b ==> p.0 != key
    ensures Spells(a + b, m) && key !in m ==> Spells(a + [(key, v)] + b, m[key := v])
    ensures Spells(a + [(key, v)] + b, m) ==> Spells(a + b, m - {key})
  {
    assert forall p :: p in a + [(key, v)] + b <==> p in a + b || p == (key, v);
  }

  /** A pair put where its key belongs. */
  lemma PutInMap(a: seq<Pair>, key: Key, v: int, b: seq<Pair>, m: map<Key, int>)
    requires AllBelow(a, key) && AllAbove(b, key) && Sorted(a + b) && Spells(a + b, m)
    ensures Sorted(a + [(key, v)] + b) && Spells(a + [(key, v)] + b, m[key := v])
  {
    NotInMap(a, key, b, m);
    SortedAround(a, key, v, b);
    SpellsAround(a, key, v, b, m);
  }

  /** A pair taken out. */
  lemma DropFromMap(a: seq<Pair>, key: Key, v: int, b: seq<Pair>, m: map<Key, int>)
    requires Sorted(a + [(key, v)] + b) && Spells(a + [(key, v)] + b, m)
    ensures Sorted(a + b) && Spells(a + b, m - {key})
  {
    SortedAround(a, key, v, b);
    forall p | p in a + b ensures p.0 != key {
      assert p in a || p in b;
    }
    SpellsAround(a, key, v, b, m);
  }

  /** A key added at its empty place. */
  lemma InsertedMap(ctx: Ctx, tree: Tree, key: Key, v: int, m: map<Key, int>)
    requires Plug(ctx, Leaf) == tree && Narrowed(ctx, key) && Sorted(Inorder(tree)) && Spells(Inorder(tree), m)
    ensures key !in m
    ensures Sorted(Before(ctx) + [(key, v)] + After(ctx)) && Spells(Before(ctx) + [(key, v)] + After(ctx), m[key := v])
  {
    hide Sorted, Spells, AllBelow, AllAbove, Plug, Flat;
    FlatPlug(ctx, Leaf);
    FlatSplit(ctx, []);
    assert Inorder(tree) == Before(ctx) + After(ctx);
    NotInMap(Before(ctx), key, After(ctx), m);
    PutInMap(Before(ctx), key, v, After(ctx), m);
  }

  lemma {:induction false} SizeInorder(t: Tree)
    ensures Size(t) == |Inorder(t)|
  {
    if t.T? {
      SizeInorder(t.l);
      SizeInorder(t.r);
    }
  }

  lemma DropFirst(s: seq<Pair>, m: map<Key, int>)
    requires s != [] && Sorted(s) && Spells(s, m)
    ensures s[0].0 in m && Sorted(s[1..]) && Spells(s[1..], m - {s[0].0})
  {
    assert s[0] in s && forall p :: p in s <==> p == s[0] || p in s[1..];
  }

  /** As many pairs as keys. */
  lemma {:induction false} CountKeys(s: seq<Pair>, m: map<Key, int>)
    requires Sorted(s) && Spells(s, m)
    ensures |s| == |m|
  {
    if s == [] {
      assert m.Keys == {};
    } else {
      DropFirst(s, m);
      hide Sorted, Spells;
      CountKeys(s[1..], m - {s[0].0});
      assert m.Keys == (m - {s[0].0}).Keys + {s[0].0};
    }
  }
}
