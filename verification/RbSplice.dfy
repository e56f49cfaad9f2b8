/**
 Taking a node with at most one child out of the tree, and giving its key and value to the
 node whose right subtree it was the minimum of.
*/
module RbSplice {
  import opened RbModel
  import opened RbShape
  import opened RbInsert
  import opened RbDelete

  // ---------- the minimum of a subtree ----------

  /** ctx is reached from base by left steps only. */
  ghost predicate Spine(ctx: Ctx, base: Ctx) {
    ctx == base || (ctx.Up? && ctx.side == Lf && Spine(ctx.up, base))
  }

  /** n is one of the nodes above the place. */
  ghost predicate OnPath(ctx: Ctx, n: Node) {
    ctx.Up? && (ctx.n == n || OnPath(ctx.up, n))
  }

  // ---------- taking a node out ----------

  /** What is left below a node with at most one child. */
  ghost function Kept(t: Tree): Tree
    requires t.T?
  {
    if t.l.T? then t.l else t.r
  }

  /** h' is h without y: its child x hangs where y hung. */
  ghost predicate Spliced(h: Heap, h': Heap, nil: Node, ctx: Ctx, y: Node, x: Node) {
    && h'.Keys == h.Keys - {y} && x in h && x in h'
    && h'[x] == h[x].(parent := Par(ctx, nil))
    && (ctx.Up? ==> ctx.n in h && ctx.n in h' && h'[ctx.n] == SetKid(h[ctx.n], ctx.side, x))
    && forall n :: n in h' && n != x && (ctx.Top? || n != ctx.n) ==> h'[n] == h[n]
  }

  /** Before the node is taken out: its child, and its parent. */
  lemma SpliceReady(h: Heap, nil: Node, root: Node, ctx: Ctx, t: Tree, y: Node)
    requires Around(h, nil, root, ctx, t, y) && t.T? && (t.l.Leaf? || t.r.Leaf?)
    ensures y in h && y != nil && h[y].parent == Par(ctx, nil) && h[y].color == t.c
    ensures h[y].left in h && h[y].right in h && (h[y].left != nil <==> t.l.T?) && (h[y].right != nil <==> t.r.T?)
    ensures h[y].left != y && h[y].right != y
    ensures ctx.Up? ==> ctx.n in h && ctx.n != nil && ctx.n != y && ctx.n != h[y].left && ctx.n != h[y].right
                        && (y == h[ctx.n].left <==> ctx.side == Lf)
  {
    StepDown(h, nil, root, ctx, t, y, Lf);
    StepDown(h, nil, root, ctx, t, y, Rt);
    ParentIs(h, nil, root, ctx, t, y);
    ShapeNodes(h, nil, t.l, h[y].left, y);
    ShapeNodes(h, nil, t.r, h[y].right, y);
    if ctx.Up? { OneSide(h, nil, root, ctx, t, y); }
  }

  lemma SpliceOut(h: Heap, h': Heap, nil: Node, root: Node, root': Node, ctx: Ctx, t: Tree, y: Node, x: Node)
    requires Around(h, nil, root, ctx, t, y) && t.T? && (t.l.Leaf? || t.r.Leaf?)
    requires y in h && x == (if h[y].left != nil then h[y].left else h[y].right)
    requires Spliced(h, h', nil, ctx, y, x) && root' == if ctx.Top? then x else root
    ensures Around(h', nil, root', ctx, Kept(t), x) && h'[nil].color == h[nil].color
    ensures x in h' && h'[x].parent == Par(ctx, nil)
    ensures y !in Nodes(Kept(t)) + CtxNodes(ctx) && Nodes(Kept(t)) + CtxNodes(ctx) == Nodes(t) + CtxNodes(ctx) - {y}
  {
    hide CtxShape, CtxDistinct;
    SpliceReady(h, nil, root, ctx, t, y);
    CtxNodesIn(h, nil, root, ctx, y);
    var k := Kept(t);
    ShapeNodes(h, nil, k, x, y);
    assert SameOn(h, h', Nodes(k) - {x});
    Rehung(h, h', nil, k, x, y, Par(ctx, nil));
    Repointed(h, h', nil, root, root', ctx, y, x);
  }

  // ---------- another key for a node above ----------

  ghost function Rekey(ctx: Ctx, n: Node, k: Key, v: int): Ctx {
    match ctx
    case Top => Top
    case Up(side, m, c, k0, v0, sib, up) =>
      if m == n then Up(side, m, c, k, v, sib, up) else Up(side, m, c, k0, v0, sib, Rekey(up, n, k, v))
  }

  /** The context of the node taken out, with its pair handed to the node that had the key. */
  ghost function Taken(ctx: Ctx, t: Tree, node: Node): Ctx
    requires t.T?
  {
    if t.n == node then ctx else Rekey(ctx, node, t.k, t.v)
  }

  lemma {:induction false} RekeyNodes(ctx: Ctx, n: Node, k: Key, v: int)
    ensures CtxNodes(Rekey(ctx, n, k, v)) == CtxNodes(ctx)
    ensures CtxDistinct(Rekey(ctx, n, k, v)) == CtxDistinct(ctx)
    ensures forall nil :: Par(Rekey(ctx, n, k, v), nil) == Par(ctx, nil)
  {
    if ctx.Up? { RekeyNodes(ctx.up, n, k, v); }
  }

  lemma {:induction false} RekeyRB(ctx: Ctx, n: Node, k: Key, v: int, bh: nat)
    ensures CtxRB(Rekey(ctx, n, k, v), bh) == CtxRB(ctx, bh)
    ensures UnderRed(Rekey(ctx, n, k, v)) == UnderRed(ctx) && (Rekey(ctx, n, k, v).Top? <==> ctx.Top?)
    decreases ctx
  {
    if ctx.Up? { RekeyRB(ctx.up, n, k, v, bh + Weight(ctx.c)); }
  }

  lemma {:induction false} PathNodes(ctx: Ctx, n: Node)
    requires OnPath(ctx, n)
    ensures n in CtxNodes(ctx)
  {
    if ctx.n != n { PathNodes(ctx.up, n); }
  }

  lemma {:induction false} RekeyShape(h: Heap, nil: Node, root: Node, ctx: Ctx, x: Node, n: Node, k: Key, v: int)
    requires CtxShape(h, nil, root, ctx, x) && CtxDistinct(ctx) && OnPath(ctx, n) && n in h
    ensures CtxShape(h[n := h[n].(key := k, value := v)], nil, root, Rekey(ctx, n, k, v), x)
  {
    var h' := h[n := h[n].(key := k, value := v)];
    RekeyNodes(ctx.up, n, k, v);
    if ctx.n != n {
      PathNodes(ctx.up, n);
      RekeyShape(h, nil, root, ctx.up, ctx.n, n, k, v);
    } else {
      CtxKept(h, h', nil, root, ctx.up, ctx.n);
    }
    ShapeKept(h, h', nil, ctx.sib, Kid(h[ctx.n], Opp(ctx.side)), ctx.n);
  }

  lemma RekeyAround(h: Heap, nil: Node, root: Node, ctx: Ctx, t: Tree, x: Node, n: Node, k: Key, v: int)
    requires Around(h, nil, root, ctx, t, x) && OnPath(ctx, n) && n in h
    ensures Around(h[n := h[n].(key := k, value := v)], nil, root, Rekey(ctx, n, k, v), t, x)
    ensures CtxNodes(Rekey(ctx, n, k, v)) == CtxNodes(ctx)
  {
    RekeyNodes(ctx, n, k, v);
    PathNodes(ctx, n);
    RekeyShape(h, nil, root, ctx, x, n, k, v);
    ShapeKept(h, h[n := h[n].(key := k, value := v)], nil, t, x, Par(ctx, nil));
  }

  /** Left steps below a node leave what is before the place, and its key is the last of it. */
  lemma {:induction false} SpineKeys(ctx: Ctx, base: Ctx, k: Key, v: int)
    requires Spine(ctx, base) && base.Up? && base.side == Rt && CtxDistinct(ctx)
    ensures OnPath(ctx, base.n)
    ensures var a := Before(base.up) + Inorder(base.sib);
            Before(ctx) == a + [(base.k, base.v)] && Before(Rekey(ctx, base.n, k, v)) == a + [(k, v)]
    ensures After(Rekey(ctx, base.n, k, v)) == After(ctx)
    decreases ctx
  {
    if ctx != base {
      SpineKeys(ctx.up, base, k, v);
      PathNodes(ctx.up, base.n);
    }
  }

  // ---------- the sequence and the map ----------

  /** A node with at most one child is taken out. */
  lemma PlainDrop(ctx: Ctx, t: Tree, m: map<Key, int>)
    requires t.T? && (t.l.Leaf? || t.r.Leaf?)
    requires Sorted(Inorder(Plug(ctx, t))) && Spells(Inorder(Plug(ctx, t)), m)
    ensures Sorted(Flat(ctx, Inorder(Kept(t)))) && Spells(Flat(ctx, Inorder(Kept(t))), m - {t.k})
  {
    hide Sorted, Spells;
    FlatPlug(ctx, t);
    FlatSplit(ctx, Inorder(t));
    FlatSplit(ctx, Inorder(Kept(t)));
    var a, b := Before(ctx) + Inorder(t.l), Inorder(t.r) + After(ctx);
    assert Inorder(Plug(ctx, t)) == a + [(t.k, t.v)] + b;
    assert Flat(ctx, Inorder(Kept(t))) == a + b;
    DropFromMap(a, t.k, t.v, b, m);
  }

  /** Of two neighbours in the sequence the second has the least key of the map above the first's. */
  lemma NextPair(a: seq<Pair>, k: Key, v: int, k': Key, v': int, b: seq<Pair>, m: map<Key, int>)
    requires var s := a + [(k, v)] + ([(k', v')] + b); Sorted(s) && Spells(s, m)
    ensures k' in m && m[k'] == v' && k < k' && forall x :: x in m && k < x ==> k' <= x
  {
    var s, n := a + [(k, v)] + ([(k', v')] + b), |a|;
    assert s[n] == (k, v) && s[n + 1] == (k', v');
    assert (k', v') in s;
    forall x | x in m && k < x ensures k' <= x {
      assert (x, m[x]) in s;
      var i :| 0 <= i < |s| && s[i] == (x, m[x]);
      assert !(i < n);
    }
  }

  /** The minimum of the right subtree is taken out, and its pair replaces that of the node above. */
  lemma SuccessorDrop(ctx: Ctx, t: Tree, base: Ctx, m: map<Key, int>)
    requires t.T? && t.l.Leaf? && Spine(ctx, base) && base.Up? && base.side == Rt && CtxDistinct(ctx)
    requires Sorted(Inorder(Plug(ctx, t))) && Spells(Inorder(Plug(ctx, t)), m)
    ensures var s := Flat(Rekey(ctx, base.n, t.k, t.v), Inorder(Kept(t)));
            Sorted(s) && Spells(s, m - {base.k})
    ensures t.k in m && m[t.k] == t.v && base.k < t.k && forall x :: x in m && base.k < x ==> t.k <= x
  {
    hide Sorted, Spells, Plug, Flat, Before, After, Rekey, Spine, CtxDistinct, OnPath;
    var ctx' := Rekey(ctx, base.n, t.k, t.v);
    SpineKeys(ctx, base, t.k, t.v);
    FlatPlug(ctx, t);
    FlatSplit(ctx, Inorder(t));
    FlatSplit(ctx', Inorder(Kept(t)));
    assert Inorder(t) == [(t.k, t.v)] + Inorder(t.r);
    hide Inorder;
    var a, b, r := Before(base.up) + Inorder(base.sib), After(ctx), Inorder(t.r);
    assert a + [(base.k, base.v)] + ([(t.k, t.v)] + r) + b == a + [(base.k, base.v)] + ([(t.k, t.v)] + r + b);
    assert a + [(t.k, t.v)] + r + b == a + ([(t.k, t.v)] + r + b);
    assert a + [(base.k, base.v)] + ([(t.k, t.v)] + r + b) == a + [(base.k, base.v)] + ([(t.k, t.v)] + (r + b));
    DropFromMap(a, base.k, base.v, [(t.k, t.v)] + r + b, m);
    NextPair(a, base.k, base.v, t.k, t.v, r + b, m);
  }

  // ---------- the red-black conditions ----------

  /** What taking out a node does to the conditions: nothing when it is red, one black node too few when it is black. */
  lemma SplicedRB(ctx: Ctx, t: Tree)
    requires t.T? && (t.l.Leaf? || t.r.Leaf?) && IsRB(Plug(ctx, t)) && IsBlack(Plug(ctx, t))
    ensures IsRB(Kept(t))
    ensures t.c == Black ==> CtxRB(ctx, Bh(Kept(t)) + 1)
    ensures t.c == Red ==> CtxRB(ctx, Bh(Kept(t))) && ctx.Up? && ctx.c == Black
  {
    CtxOfRB(ctx, t);
  }

  /** The minimum of the right subtree is below the node it is to replace. */
  lemma MiniBelow(h: Heap, nil: Node, root: Node, ctx: Ctx, t: Tree, y: Node, base: Ctx, m: map<Key, int>)
    requires Around(h, nil, root, ctx, t, y) && t.T? && t.l.Leaf? && Spine(ctx, base) && base.Up? && base.side == Rt
    requires Sorted(Inorder(Plug(ctx, t))) && Spells(Inorder(Plug(ctx, t)), m)
    ensures OnPath(ctx, base.n) && base.n in h && base.n != nil && y != base.n
    ensures var s := Flat(Rekey(ctx, base.n, t.k, t.v), Inorder(Kept(t)));
            Sorted(s) && Spells(s, m - {base.k})
    ensures t.k in m && m[t.k] == t.v && base.k < t.k && forall x :: x in m && base.k < x ==> t.k <= x
  {
    SpineKeys(ctx, base, t.k, t.v);
    PathNodes(ctx, base.n);
    CtxNodesIn(h, nil, root, ctx, y);
    SuccessorDrop(ctx, t, base, m);
  }

  lemma TakenRB(ctx: Ctx, t: Tree, node: Node)
    requires t.T?
    ensures forall bh: nat :: CtxRB(Taken(ctx, t, node), bh) == CtxRB(ctx, bh)
    ensures CtxNodes(Taken(ctx, t, node)) == CtxNodes(ctx)
    ensures forall nil :: Par(Taken(ctx, t, node), nil) == Par(ctx, nil)
    ensures ctx.Up? ==> Taken(ctx, t, node).Up? && Taken(ctx, t, node).c == ctx.c
  {
    forall bh: nat ensures CtxRB(Taken(ctx, t, node), bh) == CtxRB(ctx, bh) { RekeyRB(ctx, node, t.k, t.v, bh); }
    RekeyNodes(ctx, node, t.k, t.v);
  }
}
