/**
 The cases of the deletion fix-up. A place is short of one black node; each case either
 passes that on to the parent or settles it.
*/
module RbDelete {
  import opened RbModel
  import opened RbShape
  import opened RbInsert

  /** Right but for the colour of its root. */
  ghost predicate AlmostRB(t: Tree) {
    t.T? ==> IsRB(t.l) && IsRB(t.r) && Bh(t.l) == Bh(t.r)
  }

  /**
   The state of the fix-up loop: the tree at the place is one black node short of what its
   context calls for. The node at the place, the sentinel included, knows its parent.
  */
  ghost predicate Deleting(h: Heap, nil: Node, root: Node, ctx: Ctx, t: Tree, x: Node, s: seq<Pair>, all: set<Node>) {
    && Around(h, nil, root, ctx, t, x) && h[nil].color == Black
    && x in h && h[x].parent == Par(ctx, nil)
    && AlmostRB(t) && CtxRB(ctx, Bh(t) + 1)
    && Flat(ctx, Inorder(t)) == s && Nodes(t) + CtxNodes(ctx) == all
  }

  lemma {:induction false} RootAbove(h: Heap, nil: Node, root: Node, ctx: Ctx, x: Node)
    requires CtxShape(h, nil, root, ctx, x) && ctx.Up?
    ensures root in CtxNodes(ctx)
  {
    if ctx.up.Up? { RootAbove(h, nil, root, ctx.up, ctx.n); }
  }

  /**
   The sibling of a place that is short of a black node is no sentinel, and neither is anything it
   is compared with.
  */
  lemma Sibling(h: Heap, nil: Node, root: Node, ctx: Ctx, t: Tree, x: Node, s: seq<Pair>, all: set<Node>)
    requires Deleting(h, nil, root, ctx, t, x, s, all)
    ensures x in h && nil in h && (x != root <==> ctx.Up?)
    ensures h[x].color == if t.T? then t.c else Black
    ensures ctx.Up? ==>
              var p := h[x].parent;
              && p == ctx.n && p in h && p != nil && p != x && h[p].color == ctx.c
              && ctx.sib.T?
              && var w := Kid(h[p], Opp(ctx.side));
                 && w == ctx.sib.n && w in h && w != nil && w != p && w != x && h[w].color == ctx.sib.c
                 && (x == h[p].left <==> ctx.side == Lf)
                 && Kid(h[w], Lf) in h && Kid(h[w], Rt) in h
                 && (h[Kid(h[w], Lf)].color == Black <==> IsBlack(ctx.sib.l))
                 && (h[Kid(h[w], Rt)].color == Black <==> IsBlack(ctx.sib.r))
                 && h[w].left != p && h[w].right != p && h[w].left != w && h[w].right != w
  {
    if ctx.Up? {
      RootAbove(h, nil, root, ctx, x);
      var w := Kid(h[ctx.n], Opp(ctx.side));
      ShapeNodes(h, nil, t, x, ctx.n);
      ShapeNodes(h, nil, ctx.sib, w, ctx.n);
      KidShape(h, nil, ctx.sib, w, ctx.n, Lf);
      KidShape(h, nil, ctx.sib, w, ctx.n, Rt);
      ShapeNodes(h, nil, ctx.sib.l, h[w].left, w);
      ShapeNodes(h, nil, ctx.sib.r, h[w].right, w);
      CtxNodesIn(h, nil, root, ctx, x);
    }
  }

  /** The nephews that are no sentinels. */
  lemma Nephews(h: Heap, nil: Node, root: Node, ctx: Ctx, t: Tree, x: Node, s: seq<Pair>, all: set<Node>)
    requires Deleting(h, nil, root, ctx, t, x, s, all) && ctx.Up?
    ensures ctx.sib.T? && ctx.sib.n in h
    ensures ctx.sib.l.T? ==> h[ctx.sib.n].left == ctx.sib.l.n
    ensures ctx.sib.r.T? ==> h[ctx.sib.n].right == ctx.sib.r.n
  {
    var w := h[ctx.sib.n];
    assert Shape(h, nil, ctx.sib.l, w.left, ctx.sib.n) && Shape(h, nil, ctx.sib.r, w.right, ctx.sib.n);
  }

  // ---------- looking at the sibling ----------

  /** The context of the sibling. */
  ghost function Flip(ctx: Ctx, t: Tree): Ctx
    requires ctx.Up?
  {
    Up(Opp(ctx.side), ctx.n, ctx.c, ctx.k, ctx.v, t, ctx.up)
  }

  lemma FlipAround(h: Heap, nil: Node, root: Node, ctx: Ctx, t: Tree, x: Node)
    requires ctx.Up? && Around(h, nil, root, ctx, t, x)
    ensures ctx.n in h && Around(h, nil, root, Flip(ctx, t), ctx.sib, Kid(h[ctx.n], Opp(ctx.side)))
  {
    Zoom(h, nil, root, ctx, t, x);
    assert Folded(Flip(ctx, t), ctx.sib) == Folded(ctx, t);
    Zoom(h, nil, root, Flip(ctx, t), ctx.sib, Kid(h[ctx.n], Opp(ctx.side)));
  }

  // ---------- a red sibling ----------

  /** The context after the sibling turned black and took the parent's place. */
  ghost function Lowered(ctx: Ctx): Ctx
    requires ctx.Up? && ctx.sib.T?
  {
    var w := ctx.sib;
    Up(ctx.side, ctx.n, Red, ctx.k, ctx.v, TreeKid(w, ctx.side),
       Up(ctx.side, w.n, Black, w.k, w.v, TreeKid(w, Opp(ctx.side)), ctx.up))
  }

  ghost function RedSiblingColors(h: Heap, ctx: Ctx): Heap
    requires ctx.Up? && ctx.sib.T? && ctx.n in h && ctx.sib.n in h
  {
    Recolored(Recolored(h, ctx.sib.n, Black), ctx.n, Red)
  }

  lemma RedSiblingShape(h: Heap, h': Heap, nil: Node, root: Node, root': Node, ctx: Ctx, t: Tree, x: Node)
    requires Around(h, nil, root, ctx, t, x) && ctx.Up? && ctx.sib.T?
    ensures ctx.n in h && ctx.sib.n in h && nil in h && ctx.n != nil && ctx.sib.n != nil
    ensures CanRotate(RedSiblingColors(h, ctx), nil, ctx.side, ctx.n)
    ensures Rotated(RedSiblingColors(h, ctx), h', nil, ctx.side, ctx.n) &&
            root' == (if h[ctx.n].parent == nil then ctx.sib.n else root) ==>
              && Around(h', nil, root', Lowered(ctx), t, x) && nil in h' && h'[nil] == h[nil]
  {
    var side, p, tp := ctx.side, ctx.n, Folded(ctx, t);
    Zoom(h, nil, root, ctx, t, x);
    RecolorKid(h, nil, root, ctx.up, tp, p, Opp(side), Black);
    var h1, t1 := Recolored(h, ctx.sib.n, Black), WithKid(tp, Opp(side), ctx.sib.(c := Black));
    Recolor(h1, nil, root, ctx.up, t1, p, Red);
    var h2, t2 := RedSiblingColors(h, ctx), t1.(c := Red);
    TurnCells(h2, nil, root, side, ctx.up, t2, p);
    if Rotated(h2, h', nil, side, p) && root' == (if h[p].parent == nil then ctx.sib.n else root) {
      Rotate(h2, h', nil, root, root', side, ctx.up, t2, p);
      assert Turn(side, t2) == Folded(Lowered(ctx).up, Folded(Lowered(ctx), t));
      Zoom(h', nil, root', Lowered(ctx).up, Folded(Lowered(ctx), t), p);
      Zoom(h', nil, root', Lowered(ctx), t, x);
    }
  }

  lemma LoweredSame(ctx: Ctx, t: Tree)
    requires ctx.Up? && ctx.sib.T?
    ensures Flat(Lowered(ctx), Inorder(t)) == Flat(ctx, Inorder(t))
    ensures CtxNodes(Lowered(ctx)) == CtxNodes(ctx)
  {
    assert Inorder(Folded(Lowered(ctx).up, Folded(Lowered(ctx), t))) == Inorder(Folded(ctx, t));
  }

  lemma LoweredRB(ctx: Ctx, bh: nat)
    requires ctx.Up? && !IsBlack(ctx.sib) && CtxRB(ctx, bh)
    ensures CtxRB(Lowered(ctx), bh)
  {
    assert CtxRB(Lowered(ctx).up, bh);
  }

  /** A red sibling: the parent is rotated towards the place, which then has a red parent and a black sibling. */
  lemma RedSibling(h: Heap, h': Heap, nil: Node, root: Node, root': Node, ctx: Ctx, t: Tree, x: Node, s: seq<Pair>,
                   all: set<Node>)
    requires Deleting(h, nil, root, ctx, t, x, s, all) && ctx.Up? && !IsBlack(ctx.sib)
    ensures ctx.n in h && ctx.sib.n in h && nil in h && ctx.n != nil && ctx.sib.n != nil
    ensures CanRotate(RedSiblingColors(h, ctx), nil, ctx.side, ctx.n) && IsBlack(Lowered(ctx).sib)
    ensures Rotated(RedSiblingColors(h, ctx), h', nil, ctx.side, ctx.n) &&
            root' == (if h[ctx.n].parent == nil then ctx.sib.n else root) ==>
              Deleting(h', nil, root', Lowered(ctx), t, x, s, all)
  {
    hide Rotated, CanRotate, RedSiblingColors;
    RedSiblingShape(h, h', nil, root, root', ctx, t, x);
    LoweredSame(ctx, t);
    LoweredRB(ctx, Bh(t) + 1);
  }

  // ---------- a black sibling ----------

  /** The parent's subtree with the sibling red. */
  ghost function Dimmed(ctx: Ctx, t: Tree): Tree
    requires ctx.Up? && ctx.sib.T?
  {
    Folded(ctx.(sib := ctx.sib.(c := Red)), t)
  }

  /** Both nephews black: the sibling turns red, and the parent's subtree is the one that is short. */
  lemma PassUp(h: Heap, nil: Node, root: Node, ctx: Ctx, t: Tree, x: Node, s: seq<Pair>, all: set<Node>)
    requires Deleting(h, nil, root, ctx, t, x, s, all) && ctx.Up? && IsBlack(t)
    requires ctx.sib.T? && ctx.sib.c == Black && IsBlack(ctx.sib.l) && IsBlack(ctx.sib.r)
    ensures ctx.sib.n in h
    ensures Deleting(Recolored(h, ctx.sib.n, Red), nil, root, ctx.up, Dimmed(ctx, t), ctx.n, s, all)
  {
    hide CtxDistinct, Distinct, CtxShape, Shape;
    DimmedShape(h, nil, root, ctx, t, x);
    DimmedSame(ctx, t);
    assert Bh(ctx.sib.(c := Red)) == Bh(t);
  }

  lemma DimmedShape(h: Heap, nil: Node, root: Node, ctx: Ctx, t: Tree, x: Node)
    requires Around(h, nil, root, ctx, t, x) && ctx.Up? && ctx.sib.T?
    ensures ctx.sib.n in h && nil in h && ctx.sib.n != nil && ctx.n in h
    ensures Around(Recolored(h, ctx.sib.n, Red), nil, root, ctx.up, Dimmed(ctx, t), ctx.n)
    ensures Recolored(h, ctx.sib.n, Red)[ctx.n].parent == Par(ctx.up, nil)
  {
    hide CtxDistinct, Distinct;
    Zoom(h, nil, root, ctx, t, x);
    RecolorKid(h, nil, root, ctx.up, Folded(ctx, t), ctx.n, Opp(ctx.side), Red);
    assert WithKid(Folded(ctx, t), Opp(ctx.side), ctx.sib.(c := Red)) == Dimmed(ctx, t);
    ParentIs(h, nil, root, ctx.up, Folded(ctx, t), ctx.n);
  }

  lemma DimmedSame(ctx: Ctx, t: Tree)
    requires ctx.Up? && ctx.sib.T?
    ensures Flat(ctx.up, Inorder(Dimmed(ctx, t))) == Flat(ctx, Inorder(t))
    ensures Nodes(Dimmed(ctx, t)) + CtxNodes(ctx.up) == Nodes(t) + CtxNodes(ctx)
  {
    assert Inorder(Dimmed(ctx, t)) == Inorder(Folded(ctx, t));
  }

  /** The sibling's subtree after a red inner nephew took its root. */
  ghost function Leaned(ctx: Ctx): Tree
    requires ctx.Up? && ctx.sib.T? && TreeKid(ctx.sib, ctx.side).T?
  {
    Turn(Opp(ctx.side), LeanColors(ctx))
  }

  ghost function LeanColors(ctx: Ctx): Tree
    requires ctx.Up? && ctx.sib.T? && TreeKid(ctx.sib, ctx.side).T?
  {
    WithKid(ctx.sib.(c := Red), ctx.side, TreeKid(ctx.sib, ctx.side).(c := Black))
  }

  ghost function LeanHeap(h: Heap, ctx: Ctx): Heap
    requires ctx.Up? && ctx.sib.T? && TreeKid(ctx.sib, ctx.side).T?
    requires ctx.sib.n in h && TreeKid(ctx.sib, ctx.side).n in h
  {
    Recolored(Recolored(h, TreeKid(ctx.sib, ctx.side).n, Black), ctx.sib.n, Red)
  }

  lemma LeanShape(h: Heap, h': Heap, nil: Node, root: Node, ctx: Ctx, t: Tree, x: Node)
    requires Around(h, nil, root, ctx, t, x) && ctx.Up? && ctx.sib.T? && TreeKid(ctx.sib, ctx.side).T?
    ensures ctx.sib.n in h && TreeKid(ctx.sib, ctx.side).n in h && nil in h
    ensures TreeKid(ctx.sib, ctx.side).n != nil && ctx.sib.n != nil
    ensures CanRotate(LeanHeap(h, ctx), nil, Opp(ctx.side), ctx.sib.n)
    ensures Rotated(LeanHeap(h, ctx), h', nil, Opp(ctx.side), ctx.sib.n) ==>
              && Around(h', nil, root, ctx.(sib := Leaned(ctx)), t, x) && nil in h' && h'[nil] == h[nil]
              && Nodes(Leaned(ctx)) == Nodes(ctx.sib) && h[ctx.sib.n].parent == ctx.n != nil
  {
    var side, w := ctx.side, ctx.sib.n;
    var fl := Flip(ctx, t);
    FlipAround(h, nil, root, ctx, t, x);
    RecolorKid(h, nil, root, fl, ctx.sib, w, side, Black);
    var h1, t1 := Recolored(h, TreeKid(ctx.sib, side).n, Black),
      WithKid(ctx.sib, side, TreeKid(ctx.sib, side).(c := Black));
    Recolor(h1, nil, root, fl, t1, w, Red);
    var h2 := LeanHeap(h, ctx);
    TurnCells(h2, nil, root, Opp(side), fl, LeanColors(ctx), w);
    ParentIs(h, nil, root, fl, ctx.sib, w);
    if Rotated(h2, h', nil, Opp(side), w) {
      Rotate(h2, h', nil, root, root, Opp(side), fl, LeanColors(ctx), w);
      FlipAround(h', nil, root, fl, Leaned(ctx), TreeKid(ctx.sib, side).n);
    }
  }

  lemma LeanedRB(ctx: Ctx, bh: nat)
    requires ctx.Up? && CtxRB(ctx, bh) && ctx.sib.T? && ctx.sib.c == Black
    requires IsBlack(TreeKid(ctx.sib, Opp(ctx.side))) && !IsBlack(TreeKid(ctx.sib, ctx.side))
    ensures CtxRB(ctx.(sib := Leaned(ctx)), bh)
    ensures Leaned(ctx).T? && Leaned(ctx).c == Black && !IsBlack(TreeKid(Leaned(ctx), Opp(ctx.side)))
  {
    var w, o := ctx.sib, Opp(ctx.side);
    var inner := TreeKid(w, ctx.side);
    var low := Join(o, w.n, Red, w.k, w.v, TreeKid(w, o), TreeKid(inner, o));
    assert IsRB(inner) && IsRB(TreeKid(w, o)) && IsRB(TreeKid(inner, o)) && IsRB(TreeKid(inner, ctx.side));
    assert IsRB(low) && Bh(low) == Bh(inner);
    assert Leaned(ctx) == Join(o, inner.n, Black, inner.k, inner.v, low, TreeKid(inner, ctx.side));
  }

  lemma LeanedSame(ctx: Ctx, t: Tree)
    requires ctx.Up? && ctx.sib.T? && TreeKid(ctx.sib, ctx.side).T?
    ensures Flat(ctx.(sib := Leaned(ctx)), Inorder(t)) == Flat(ctx, Inorder(t))
  {
    assert Inorder(Leaned(ctx)) == Inorder(ctx.sib);
  }

  /** A red inner nephew and a black outer one: the sibling is rotated away, and the outer nephew is red. */
  lemma InnerNephew(h: Heap, h': Heap, nil: Node, root: Node, ctx: Ctx, t: Tree, x: Node, s: seq<Pair>, all: set<Node>)
    requires Deleting(h, nil, root, ctx, t, x, s, all) && ctx.Up? && ctx.sib.T? && ctx.sib.c == Black
    requires IsBlack(TreeKid(ctx.sib, Opp(ctx.side))) && !IsBlack(TreeKid(ctx.sib, ctx.side))
    ensures ctx.sib.n in h && TreeKid(ctx.sib, ctx.side).n in h && nil in h
    ensures TreeKid(ctx.sib, ctx.side).n != nil && ctx.sib.n != nil
    ensures CanRotate(LeanHeap(h, ctx), nil, Opp(ctx.side), ctx.sib.n) && h[ctx.sib.n].parent == ctx.n != nil
    ensures Rotated(LeanHeap(h, ctx), h', nil, Opp(ctx.side), ctx.sib.n) ==>
              Deleting(h', nil, root, ctx.(sib := Leaned(ctx)), t, x, s, all)
    ensures Leaned(ctx).T? && Leaned(ctx).c == Black && !IsBlack(TreeKid(Leaned(ctx), Opp(ctx.side)))
  {
    hide Rotated, CanRotate, LeanHeap, Leaned;
    LeanShape(h, h', nil, root, ctx, t, x);
    LeanedSame(ctx, t);
    LeanedRB(ctx, Bh(t) + 1);
  }

  /** The parent's subtree once the sibling has taken its place and colour. */
  ghost function Mended(ctx: Ctx, t: Tree): Tree
    requires ctx.Up? && ctx.sib.T? && TreeKid(ctx.sib, Opp(ctx.side)).T?
  {
    Turn(ctx.side, MendColors(ctx, t))
  }

  ghost function MendColors(ctx: Ctx, t: Tree): Tree
    requires ctx.Up? && ctx.sib.T? && TreeKid(ctx.sib, Opp(ctx.side)).T?
  {
    var w, o := ctx.sib, Opp(ctx.side);
    Folded(ctx.(c := Black, sib := WithKid(w, o, TreeKid(w, o).(c := Black)).(c := ctx.c)), t)
  }

  ghost function MendHeap(h: Heap, ctx: Ctx): Heap
    requires ctx.Up? && ctx.sib.T? && TreeKid(ctx.sib, Opp(ctx.side)).T?
    requires ctx.n in h && ctx.sib.n in h && TreeKid(ctx.sib, Opp(ctx.side)).n in h
  {
    Recolored(Recolored(Recolored(h, ctx.sib.n, ctx.c), ctx.n, Black), TreeKid(ctx.sib, Opp(ctx.side)).n, Black)
  }

  lemma MendColored(h: Heap, nil: Node, root: Node, ctx: Ctx, t: Tree, x: Node)
    requires Around(h, nil, root, ctx, t, x) && ctx.Up? && ctx.sib.T? && TreeKid(ctx.sib, Opp(ctx.side)).T?
    ensures ctx.n in h && ctx.sib.n in h && TreeKid(ctx.sib, Opp(ctx.side)).n in h && nil in h
    ensures ctx.n != nil && ctx.sib.n != nil && TreeKid(ctx.sib, Opp(ctx.side)).n != nil
    ensures Around(MendHeap(h, ctx), nil, root, ctx.up, MendColors(ctx, t), ctx.n)
  {
    var o, w, p := Opp(ctx.side), ctx.sib.n, ctx.n;
    var fl := Flip(ctx, t);
    FlipAround(h, nil, root, ctx, t, x);
    Recolor(h, nil, root, fl, ctx.sib, w, ctx.c);
    var h1, sib1 := Recolored(h, w, ctx.c), ctx.sib.(c := ctx.c);
    Zoom(h1, nil, root, fl, sib1, w);
    Recolor(h1, nil, root, ctx.up, Folded(fl, sib1), p, Black);
    var h2, fl2 := Recolored(h1, p, Black), fl.(c := Black);
    assert Folded(fl, sib1).(c := Black) == Folded(fl2, sib1);
    Zoom(h2, nil, root, fl2, sib1, w);
    RecolorKid(h2, nil, root, fl2, sib1, w, o, Black);
    var sib2 := WithKid(sib1, o, TreeKid(sib1, o).(c := Black));
    Zoom(MendHeap(h, ctx), nil, root, fl2, sib2, w);
    assert Folded(fl2, sib2) == MendColors(ctx, t);
  }

  lemma MendedSame(ctx: Ctx, t: Tree)
    requires ctx.Up? && ctx.sib.T? && TreeKid(ctx.sib, Opp(ctx.side)).T?
    ensures Flat(ctx.up, Inorder(Mended(ctx, t))) == Flat(ctx, Inorder(t))
    ensures Nodes(MendColors(ctx, t)) + CtxNodes(ctx.up) == Nodes(t) + CtxNodes(ctx)
  {
    var w, o := ctx.sib, Opp(ctx.side);
    var inner, outer := TreeKid(w, ctx.side), TreeKid(w, o);
    var low := Join(ctx.side, ctx.n, Black, ctx.k, ctx.v, t, inner);
    assert Inorder(outer.(c := Black)) == Inorder(outer) && Nodes(outer.(c := Black)) == Nodes(outer);
    assert Mended(ctx, t) == Join(ctx.side, w.n, ctx.c, w.k, w.v, low, outer.(c := Black));
    assert MendColors(ctx, t) == Join(ctx.side, ctx.n, Black, ctx.k, ctx.v, t,
      Join(ctx.side, w.n, ctx.c, w.k, w.v, inner, outer.(c := Black)));
    assert w == Join(ctx.side, w.n, w.c, w.k, w.v, inner, outer);
    if ctx.side == Lf {
      assert Inorder(Mended(ctx, t))
             == (Inorder(t) + [(ctx.k, ctx.v)] + Inorder(inner)) + [(w.k, w.v)] + Inorder(outer);
      assert Inorder(Folded(ctx, t))
             == Inorder(t) + [(ctx.k, ctx.v)] + (Inorder(inner) + [(w.k, w.v)] + Inorder(outer));
    } else {
      assert Inorder(Mended(ctx, t))
             == Inorder(outer) + [(w.k, w.v)] + (Inorder(inner) + [(ctx.k, ctx.v)] + Inorder(t));
      assert Inorder(Folded(ctx, t))
             == (Inorder(outer) + [(w.k, w.v)] + Inorder(inner)) + [(ctx.k, ctx.v)] + Inorder(t);
    }
    assert Inorder(Mended(ctx, t)) == Inorder(Folded(ctx, t));
  }

  lemma MendedRB(ctx: Ctx, t: Tree)
    requires ctx.Up? && CtxRB(ctx, Bh(t) + 1) && IsRB(t) && IsBlack(t)
    requires ctx.sib.T? && ctx.sib.c == Black && !IsBlack(TreeKid(ctx.sib, Opp(ctx.side)))
    ensures IsRB(Mended(ctx, t)) && CtxRB(ctx.up, Bh(Mended(ctx, t)))
    ensures (UnderRed(ctx.up) || ctx.up.Top?) ==> IsBlack(Mended(ctx, t))
  {
    var w, o := ctx.sib, Opp(ctx.side);
    var inner, outer := TreeKid(w, ctx.side), TreeKid(w, o).(c := Black);
    var low := Join(ctx.side, ctx.n, Black, ctx.k, ctx.v, t, inner);
    assert IsRB(inner) && IsRB(TreeKid(w, o)) && Bh(inner) == Bh(t);
    assert IsRB(low) && Bh(low) == Bh(t) + 1 && Bh(outer) == Bh(t) + 1;
    assert Mended(ctx, t) == Join(ctx.side, w.n, ctx.c, w.k, w.v, low, outer);
  }

  /** A red outer nephew: the parent is rotated towards the place, and the whole tree is in order. */
  lemma OuterNephew(h: Heap, h': Heap, nil: Node, root: Node, root': Node, ctx: Ctx, t: Tree, x: Node, s: seq<Pair>,
                    all: set<Node>)
    requires Deleting(h, nil, root, ctx, t, x, s, all) && ctx.Up? && IsBlack(t)
    requires ctx.sib.T? && ctx.sib.c == Black && !IsBlack(TreeKid(ctx.sib, Opp(ctx.side)))
    ensures ctx.n in h && ctx.sib.n in h && TreeKid(ctx.sib, Opp(ctx.side)).n in h && nil in h
    ensures ctx.n != nil && ctx.sib.n != nil && TreeKid(ctx.sib, Opp(ctx.side)).n != nil
    ensures CanRotate(MendHeap(h, ctx), nil, ctx.side, ctx.n)
    ensures Rotated(MendHeap(h, ctx), h', nil, ctx.side, ctx.n) &&
            root' == (if h[ctx.n].parent == nil then ctx.sib.n else root) ==>
              Deleting(h', nil, root', Top, Plug(ctx.up, Mended(ctx, t)), root', s, all)
  {
    hide CtxDistinct, Distinct, CtxShape, Shape, Rotated, CanRotate;
    MendColored(h, nil, root, ctx, t, x);
    var h3 := MendHeap(h, ctx);
    TurnCells(h3, nil, root, ctx.side, ctx.up, MendColors(ctx, t), ctx.n);
    if Rotated(h3, h', nil, ctx.side, ctx.n) && root' == (if h[ctx.n].parent == nil then ctx.sib.n else root) {
      TurnApart(h3, nil, root, ctx.side, ctx.up, MendColors(ctx, t), ctx.n);
      Rotate(h3, h', nil, root, root', ctx.side, ctx.up, MendColors(ctx, t), ctx.n);
      MendedSame(ctx, t);
      MendedRB(ctx, t);
      AllInOrder(h', nil, root', ctx.up, Mended(ctx, t), ctx.sib.n, s, all);
    }
  }

  /** A tree that is in order at a place is in order as a whole. */
  lemma AllInOrder(h: Heap, nil: Node, root: Node, ctx: Ctx, t: Tree, x: Node, s: seq<Pair>, all: set<Node>)
    requires Around(h, nil, root, ctx, t, x) && h[nil].color == Black && t.T? && IsRB(t) && CtxRB(ctx, Bh(t))
    requires UnderRed(ctx) || ctx.Top? ==> IsBlack(t)
    requires Flat(ctx, Inorder(t)) == s && Nodes(t) + CtxNodes(ctx) == all
    ensures Deleting(h, nil, root, Top, Plug(ctx, t), root, s, all)
    ensures IsRB(Plug(ctx, t)) && IsBlack(Plug(ctx, t))
  {
    ZoomAll(h, nil, root, ctx, t, x);
    PlugRB(ctx, t);
    FlatPlug(ctx, t);
    PlugNode(ctx, t);
  }

  /** The loop ends at the root or at a red node, which turns black. */
  lemma Blacken(h: Heap, nil: Node, root: Node, ctx: Ctx, t: Tree, x: Node, s: seq<Pair>, all: set<Node>)
    requires Deleting(h, nil, root, ctx, t, x, s, all) && (ctx.Top? || !IsBlack(t))
    ensures x in h && nil in h
    ensures var t' := if t.T? then Plug(ctx, t.(c := Black)) else t;
            && Around(Recolored(h, x, Black), nil, root, Top, t', root) && Recolored(h, x, Black)[nil].color == Black
            && IsRB(t') && IsBlack(t') && Inorder(t') == s && Nodes(t') == all
  {
    if t.T? {
      Recolor(h, nil, root, ctx, t, x, Black);
      AllInOrder(Recolored(h, x, Black), nil, root, ctx, t.(c := Black), x, s, all);
    } else {
      assert Recolored(h, x, Black) == h;
    }
  }
}
