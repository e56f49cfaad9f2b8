/**
 The cases of the insertion fix-up: what each does to the heap, to the red-black
 conditions and to the sequence of keys.
*/
module RbInsert {
  import opened RbModel
  import opened RbShape

  /**
   The state of the fix-up loop: the only condition that may fail is that the red node at
   the place has a red parent. Sequence and set of nodes are as at the start.
  */
  ghost predicate Inserting(h: Heap, nil: Node, root: Node, ctx: Ctx, t: Tree, z: Node, s: seq<Pair>, all: set<Node>) {
    && Around(h, nil, root, ctx, t, z) && h[nil].color == Black
    && t.T? && t.c == Red && IsRB(t) && CtxRB(ctx, Bh(t))
    && Flat(ctx, Inorder(t)) == s && Nodes(t) + CtxNodes(ctx) == all
  }

  /** Below a red parent: parent, grandparent and uncle. */
  lemma Family(h: Heap, nil: Node, root: Node, ctx: Ctx, t: Tree, z: Node)
    requires Around(h, nil, root, ctx, t, z) && t.T?
    requires ctx.Up? && ctx.up.Up?
    ensures ctx.up.n in h
    ensures var p, g := ctx.n, ctx.up.n; var u := Kid(h[g], Opp(ctx.up.side));
            && z in h && p in h && g in h && u in h && z != nil && p != nil && g != nil
            && h[z].parent == p && h[p].parent == g && h[p].color == ctx.c && h[g].color == ctx.up.c
            && (z == h[p].left <==> ctx.side == Lf) && (z == h[p].right <==> ctx.side == Rt)
            && (p == h[g].left <==> ctx.up.side == Lf) && (p == h[g].right <==> ctx.up.side == Rt)
            && (if ctx.up.sib.Leaf? then u == nil else u == ctx.up.sib.n && u != nil && h[u].color == ctx.up.sib.c)
            && z != p && z != g && p != g && u != z && u != p && u != g
  {
    OneSide(h, nil, root, ctx, t, z);
    Zoom(h, nil, root, ctx, t, z);
    OneSide(h, nil, root, ctx.up, Folded(ctx, t), ctx.n);
  }

  /** A red parent has a parent of its own. */
  lemma RedParent(h: Heap, nil: Node, root: Node, ctx: Ctx, t: Tree, z: Node, s: seq<Pair>, all: set<Node>)
    requires Inserting(h, nil, root, ctx, t, z, s, all)
    ensures z in h && h[z].parent in h
    ensures h[h[z].parent].color == Red <==> UnderRed(ctx)
    ensures UnderRed(ctx) ==> ctx.up.Up? && ctx.up.c == Black
  {
    ParentIs(h, nil, root, ctx, t, z);
  }

  /** The same relatives, as the fix-up loop meets them. */
  lemma FamilyHere(h: Heap, nil: Node, root: Node, ctx: Ctx, t: Tree, z: Node, s: seq<Pair>, all: set<Node>)
    requires Inserting(h, nil, root, ctx, t, z, s, all) && UnderRed(ctx)
    ensures ctx.up.Up? && ctx.up.n in h && t.T? && t.c == Red
    ensures var p, g := ctx.n, ctx.up.n; var u := Kid(h[g], Opp(ctx.up.side));
            && z in h && p in h && g in h && u in h && nil in h && z != nil && p != nil && g != nil
            && h[z].parent == p && h[p].parent == g
            && (z == h[p].left <==> ctx.side == Lf) && (z == h[p].right <==> ctx.side == Rt)
            && (p == h[g].left <==> ctx.up.side == Lf) && (p == h[g].right <==> ctx.up.side == Rt)
            && (h[u].color == Red <==> !IsBlack(ctx.up.sib)) && (ctx.up.sib.T? ==> u == ctx.up.sib.n)
            && z != p && z != g && p != g && u != z && u != p && u != g
  {
    Family(h, nil, root, ctx, t, z);
  }

  /** What is left to do: the root turns black. */
  lemma Settle(h: Heap, nil: Node, root: Node, ctx: Ctx, t: Tree, z: Node, s: seq<Pair>, all: set<Node>)
    requires Inserting(h, nil, root, ctx, t, z, s, all) && !UnderRed(ctx)
    ensures root in h && root != nil
    ensures var t' := Plug(ctx, t);
            && t'.T? && Around(Recolored(h, root, Black), nil, root, Top, t'.(c := Black), root)
            && nil in h && nil != root && h[nil].color == Black && IsRB(t'.(c := Black))
            && Inorder(t'.(c := Black)) == s && Nodes(t'.(c := Black)) == all
  {
    ZoomAll(h, nil, root, ctx, t, z);
    PlugRB(ctx, t);
    FlatPlug(ctx, t);
    PlugNode(ctx, t);
    Recolor(h, nil, root, Top, Plug(ctx, t), root, Black);
  }

  lemma {:induction false} PlugNode(ctx: Ctx, t: Tree)
    requires t.T?
    ensures Plug(ctx, t).T?
    decreases ctx
  {
    if ctx.Up? {
      PlugNode(ctx.up, Join(ctx.side, ctx.n, ctx.c, ctx.k, ctx.v, t, ctx.sib));
    }
  }

  /** A new red node below a place of a red-black tree is where the fix-up starts. */
  lemma StartInserting(h: Heap, nil: Node, root: Node, ctx: Ctx, tree: Tree, node: Node, key: Key, v: int)
    requires var t := T(node, Red, key, v, Leaf, Leaf); Around(h, nil, root, ctx, t, node) && h[nil].color == Black
    requires Plug(ctx, Leaf) == tree && IsRB(tree) && IsBlack(tree)
    ensures Inserting(h, nil, root, ctx, T(node, Red, key, v, Leaf, Leaf), node,
                      Before(ctx) + [(key, v)] + After(ctx), {node} + CtxNodes(ctx))
  {
    FlatSplit(ctx, [(key, v)]);
    assert Inorder(T(node, Red, key, v, Leaf, Leaf)) == [(key, v)];
    CtxOfRB(ctx, Leaf);
  }

  /** The context of a place in a red-black tree with a black root. */
  lemma {:induction false} CtxOfRB(ctx: Ctx, t: Tree)
    requires IsRB(Plug(ctx, t)) && IsBlack(Plug(ctx, t))
    ensures IsRB(t) && CtxRB(ctx, Bh(t)) && (UnderRed(ctx) ==> IsBlack(t)) && (ctx.Top? ==> IsBlack(t))
    decreases ctx
  {
    if ctx.Up? {
      CtxOfRB(ctx.up, Join(ctx.side, ctx.n, ctx.c, ctx.k, ctx.v, t, ctx.sib));
    }
  }

  // ---------- a red uncle ----------

  ghost function Lifted(ctx: Ctx, t: Tree): Tree
    requires ctx.Up? && ctx.up.Up? && ctx.up.sib.T?
  {
    var g := ctx.up;
    Join(g.side, g.n, Red, g.k, g.v, Join(ctx.side, ctx.n, Black, ctx.k, ctx.v, t, ctx.sib), g.sib.(c := Black))
  }

  /** Parent and uncle turn black, the grandparent red, and the loop goes on there. */
  lemma RedUncleShape(h: Heap, nil: Node, root: Node, ctx: Ctx, t: Tree, z: Node)
    requires Around(h, nil, root, ctx, t, z) && t.T? && ctx.Up? && ctx.up.Up? && ctx.up.sib.T?
    ensures ctx.up.n in h
    ensures var p, g, u := ctx.n, ctx.up.n, ctx.up.sib.n;
            && p in h && u in h
            && Around(Recolored(Recolored(Recolored(h, p, Black), u, Black), g, Red), nil, root,
                      ctx.up.up, Lifted(ctx, t), g)
  {
    var gs := ctx.up.side;
    var tp := Folded(ctx, t);
    var tg := Folded(ctx.up, tp);
    var p, g, u := ctx.n, ctx.up.n, ctx.up.sib.n;
    Zoom(h, nil, root, ctx, t, z);
    Zoom(h, nil, root, ctx.up, tp, p);
    RecolorKid(h, nil, root, ctx.up.up, tg, g, gs, Black);
    var h1, t1 := Recolored(h, p, Black), WithKid(tg, gs, tp.(c := Black));
    RecolorKid(h1, nil, root, ctx.up.up, t1, g, Opp(gs), Black);
    var h2, t2 := Recolored(h1, u, Black), WithKid(t1, Opp(gs), ctx.up.sib.(c := Black));
    Recolor(h2, nil, root, ctx.up.up, t2, g, Red);
    assert t2.(c := Red) == Lifted(ctx, t);
  }

  lemma RedUncle(h: Heap, nil: Node, root: Node, ctx: Ctx, t: Tree, z: Node, s: seq<Pair>, all: set<Node>)
    requires Inserting(h, nil, root, ctx, t, z, s, all) && UnderRed(ctx) && !IsBlack(ctx.up.sib)
    ensures ctx.up.n in h
    ensures var p, g, u := ctx.n, ctx.up.n, ctx.up.sib.n;
            && p in h && u in h
            && Inserting(Recolored(Recolored(Recolored(h, p, Black), u, Black), g, Red), nil, root,
                         ctx.up.up, Lifted(ctx, t), g, s, all)
  {
    RedUncleShape(h, nil, root, ctx, t, z);
    Family(h, nil, root, ctx, t, z);
    LiftedSame(ctx, t);
    LiftedRB(ctx, t);
  }

  lemma LiftedRB(ctx: Ctx, t: Tree)
    requires IsRB(t) && CtxRB(ctx, Bh(t)) && UnderRed(ctx) && !IsBlack(ctx.up.sib)
    ensures IsRB(Lifted(ctx, t)) && CtxRB(ctx.up.up, Bh(Lifted(ctx, t)))
  {
    assert CtxRB(ctx.up, Bh(t));
    var p := Join(ctx.side, ctx.n, Black, ctx.k, ctx.v, t, ctx.sib);
    assert IsRB(p) && Bh(p) == Bh(t) + 1;
    assert IsRB(ctx.up.sib.(c := Black)) && Bh(ctx.up.sib.(c := Black)) == Bh(t) + 1;
  }

  /** Recolouring moves no node and no key. */
  lemma LiftedSame(ctx: Ctx, t: Tree)
    requires ctx.Up? && ctx.up.Up? && ctx.up.sib.T?
    ensures Flat(ctx.up.up, Inorder(Lifted(ctx, t))) == Flat(ctx, Inorder(t))
    ensures Nodes(Lifted(ctx, t)) + CtxNodes(ctx.up.up) == Nodes(t) + CtxNodes(ctx)
  {
    var tp := Folded(ctx, t);
    assert Inorder(Lifted(ctx, t)) == Inorder(Folded(ctx.up, tp));
  }

  // ---------- a black uncle ----------

  /** An inner grandchild: the parent is rotated, and the loop goes on with the parent, now the child. */
  lemma InnerChild(h: Heap, h': Heap, nil: Node, root: Node, root': Node, ctx: Ctx, t: Tree, z: Node, s: seq<Pair>,
                   all: set<Node>)
    requires Inserting(h, nil, root, ctx, t, z, s, all) && UnderRed(ctx) && ctx.side != ctx.up.side
    ensures CanRotate(h, nil, ctx.up.side, ctx.n)
    ensures Rotated(h, h', nil, ctx.up.side, ctx.n) && root' == (if h[ctx.n].parent == nil then z else root) ==>
              Inserting(h', nil, root', Outer(ctx, t), Swapped(ctx, t), ctx.n, s, all)
  {
    Zoom(h, nil, root, ctx, t, z);
    var side, tp := ctx.up.side, Folded(ctx, t);
    TurnCells(h, nil, root, side, ctx.up, tp, ctx.n);
    if Rotated(h, h', nil, side, ctx.n) && root' == (if h[ctx.n].parent == nil then z else root) {
      Rotate(h, h', nil, root, root', side, ctx.up, tp, ctx.n);
      var turned := Turn(side, tp);
      assert turned == Folded(Outer(ctx, t), Swapped(ctx, t));
      Zoom(h', nil, root', Outer(ctx, t), Swapped(ctx, t), ctx.n);
      SwappedSame(ctx, t);
    }
  }

  /** The old parent with its new children. */
  ghost function Swapped(ctx: Ctx, t: Tree): Tree
    requires t.T? && ctx.Up? && ctx.up.Up?
  {
    Join(ctx.up.side, ctx.n, ctx.c, ctx.k, ctx.v, ctx.sib, TreeKid(t, ctx.up.side))
  }

  /** Its context: the old child above it. */
  ghost function Outer(ctx: Ctx, t: Tree): Ctx
    requires t.T? && ctx.Up? && ctx.up.Up?
  {
    Up(ctx.up.side, t.n, t.c, t.k, t.v, TreeKid(t, Opp(ctx.up.side)), ctx.up)
  }

  lemma SwappedSame(ctx: Ctx, t: Tree)
    requires t.T? && ctx.Up? && ctx.up.Up? && ctx.side != ctx.up.side
    ensures Flat(Outer(ctx, t), Inorder(Swapped(ctx, t))) == Flat(ctx, Inorder(t))
    ensures Nodes(Swapped(ctx, t)) + CtxNodes(Outer(ctx, t)) == Nodes(t) + CtxNodes(ctx)
  {
    assert Inorder(Folded(Outer(ctx, t), Swapped(ctx, t))) == Inorder(Folded(ctx, t));
  }

  /** The context once the grandparent hangs below the parent. */
  ghost function Capped(ctx: Ctx): Ctx
    requires ctx.Up? && ctx.up.Up?
  {
    var g := ctx.up;
    Up(ctx.side, ctx.n, Black, ctx.k, ctx.v, Join(Opp(ctx.side), g.n, Red, g.k, g.v, g.sib, ctx.sib), g.up)
  }

  ghost function Swatched(h: Heap, ctx: Ctx): Heap
    requires ctx.Up? && ctx.up.Up? && ctx.n in h && ctx.up.n in h
  {
    Recolored(Recolored(h, ctx.n, Black), ctx.up.n, Red)
  }

  /** The grandparent's subtree with the new colours. */
  ghost function Tinted(ctx: Ctx, t: Tree): Tree
    requires ctx.Up? && ctx.up.Up?
  {
    var g := ctx.up;
    Join(g.side, g.n, Red, g.k, g.v, Join(ctx.side, ctx.n, Black, ctx.k, ctx.v, t, ctx.sib), g.sib)
  }

  /** An outer grandchild: the parent turns black, the grandparent red. */
  lemma OuterColors(h: Heap, nil: Node, root: Node, ctx: Ctx, t: Tree, z: Node)
    requires Around(h, nil, root, ctx, t, z) && t.T? && ctx.Up? && ctx.up.Up?
    ensures ctx.n in h && ctx.up.n in h
    ensures Around(Swatched(h, ctx), nil, root, ctx.up.up, Tinted(ctx, t), ctx.up.n)
  {
    var gs, tp := ctx.up.side, Folded(ctx, t);
    Zoom(h, nil, root, ctx, t, z);
    Zoom(h, nil, root, ctx.up, tp, ctx.n);
    RecolorKid(h, nil, root, ctx.up.up, Folded(ctx.up, tp), ctx.up.n, gs, Black);
    var h1, t1 := Recolored(h, ctx.n, Black), WithKid(Folded(ctx.up, tp), gs, tp.(c := Black));
    Recolor(h1, nil, root, ctx.up.up, t1, ctx.up.n, Red);
  }

  /** Then the grandparent is rotated away from the child, and nothing is wrong any more. */
  lemma OuterChild(h: Heap, h': Heap, nil: Node, root: Node, root': Node, ctx: Ctx, t: Tree, z: Node, s: seq<Pair>,
                   all: set<Node>)
    requires Inserting(h, nil, root, ctx, t, z, s, all) && UnderRed(ctx) && ctx.side == ctx.up.side
    requires IsBlack(ctx.up.sib)
    ensures ctx.n in h && ctx.up.n in h && CanRotate(Swatched(h, ctx), nil, Opp(ctx.side), ctx.up.n)
    ensures Rotated(Swatched(h, ctx), h', nil, Opp(ctx.side), ctx.up.n) &&
            root' == (if h[ctx.up.n].parent == nil then ctx.n else root) ==>
              Inserting(h', nil, root', Capped(ctx), t, z, s, all)
  {
    var side, g := ctx.side, ctx.up.n;
    OuterColors(h, nil, root, ctx, t, z);
    var h2 := Swatched(h, ctx);
    var tg := Tinted(ctx, t);
    TurnCells(h2, nil, root, Opp(side), ctx.up.up, tg, g);
    Family(h, nil, root, ctx, t, z);
    if Rotated(h2, h', nil, Opp(side), g) && root' == (if h[g].parent == nil then ctx.n else root) {
      Rotate(h2, h', nil, root, root', Opp(side), ctx.up.up, tg, g);
      assert Turn(Opp(side), tg) == Folded(Capped(ctx), t);
      Zoom(h', nil, root', Capped(ctx), t, z);
      CappedSame(ctx, t);
      CappedRB(ctx, t);
    }
  }

  lemma CappedRB(ctx: Ctx, t: Tree)
    requires CtxRB(ctx, Bh(t)) && UnderRed(ctx) && IsBlack(ctx.up.sib)
    ensures CtxRB(Capped(ctx), Bh(t))
  {
    assert CtxRB(ctx.up, Bh(t));
    assert IsRB(Capped(ctx).sib) && Bh(Capped(ctx).sib) == Bh(t);
  }

  lemma CappedSame(ctx: Ctx, t: Tree)
    requires ctx.Up? && ctx.up.Up? && ctx.side == ctx.up.side
    ensures Flat(Capped(ctx), Inorder(t)) == Flat(ctx, Inorder(t))
    ensures Nodes(t) + CtxNodes(Capped(ctx)) == Nodes(t) + CtxNodes(ctx)
  {
    assert Inorder(Folded(Capped(ctx), t)) == Inorder(Folded(ctx.up, Folded(ctx, t)));
  }
}
