/**
 The red-black tree with its shared sentinel: rotations, search, insertion and deletion
 on heap nodes, proved against the sorted sequence of the tree they hold.
*/
module RbTree {
  import opened RbModel
  import opened RbShape
  import opened RbInsert
  import opened RbDelete
  import opened RbSplice

  /** Storing an unsigned 32-bit number in a signed one. */
  function ToInt32(v: int): (r: int)
    requires 0 <= v < 0x1_0000_0000
    ensures -0x8000_0000 <= r < 0x8000_0000 && (r - v) % 0x1_0000_0000 == 0
    ensures v < 0x8000_0000 ==> r == v
  {
    if v < 0x8000_0000 then v else v - 0x1_0000_0000
  }

  class RbTree {
    var root: Node
    const nil: Node
    ghost var nodes: set<Node>

    ghost var tree: Tree

    ghost var contents: map<Key, int>

    /** How many rotations there have been. */
    ghost var turned: nat

    /** An empty tree: the sentinel is the root. */
    constructor ()
      ensures Valid() && fresh(nodes) && contents == map[]
    {
      var s := new Node.Sentinel();
      nil := s;
      root := s;
      nodes := {s};
      tree := Leaf;
      contents := map[];
      turned := 0;
    }

    ghost predicate Valid()
      reads this, nodes
    {
      && Whole(tree) && nodes == Nodes(tree) + {nil}
      && Sorted(Inorder(tree)) && Spells(Inorder(tree), contents)
    }

    /** The heap holds the red-black tree t, black at its root, and the sentinel is black. */
    ghost predicate Whole(t: Tree)
      reads this, nodes
    {
      && Around(Snap(nodes), nil, root, Top, t, root)
      && nil in nodes && nil.color == Black && IsRB(t) && IsBlack(t)
    }

    /** No link of a node of the tree leaves the tree, and parents and children agree. */
    lemma Closed()
      requires Valid()
      ensures root in nodes && (root != nil ==> root.parent == nil)
      ensures forall n :: n in nodes && n != nil ==> n.left in nodes && n.right in nodes && n.parent in nodes
      ensures forall n :: n in nodes && n != nil ==>
                (n.left != nil ==> n.left.parent == n) && (n.right != nil ==> n.right.parent == n)
    {
      var h := Snap(nodes);
      LinksInside(h, nil, tree, root, nil);
      forall n | n in nodes && n != nil
        ensures n.left in nodes && n.right in nodes && n.parent in nodes
        ensures (n.left != nil ==> n.left.parent == n) && (n.right != nil ==> n.right.parent == n)
      {
        assert n in Nodes(tree) && Kid(h[n], Lf) == n.left && Kid(h[n], Rt) == n.right;
      }
    }

    /**
     A tree with a way down of d nodes holds at least 2^(d/2) - 1 keys: searching takes at most
     twice the logarithm.
    */
    lemma Balanced(d: nat)
      requires Valid() && d <= Height(tree)
      ensures |contents| + 1 >= Pow2(d / 2)
    {
      BalancedHeight(tree);
      Pow2Grows(d / 2, Height(tree) / 2);
      SizeInorder(tree);
      CountKeys(Inorder(tree), contents);
    }

    /** A place in the tree is no deeper than twice the logarithm of the number of keys. */
    lemma Reached(ctx: Ctx, t: Tree)
      requires Valid() && Plug(ctx, t) == tree
      ensures Depth(ctx) <= Height(tree) && |contents| + 1 >= Pow2(Depth(ctx) / 2)
      ensures |contents| < 1023 ==> Depth(ctx) < 20
    {
      DepthHeight(ctx, t);
      Balanced(Depth(ctx));
      Pow2Ten();
      if Depth(ctx) >= 20 { Pow2Grows(10, Depth(ctx) / 2); }
    }

    /** Rotating x to the left: its right child takes its place. */
    method RotateLeft(x: Node)
      requires CanRotate(Snap(nodes), nil, Lf, x)
      modifies this`root, this`turned, nodes
      ensures Rotated(old(Snap(nodes)), Snap(nodes), nil, Lf, x)
      ensures root == if old(x.parent) == nil then old(x.right) else old(root)
      ensures turned == old(turned) + 1
    {
      var right := x.right;
      x.right := right.left;
      if right.left != nil {
        right.left.parent := x;
      }
      right.parent := x.parent;
      if x.parent == nil {
        root := right;
      } else if x == x.parent.left {
        x.parent.left := right;
      } else {
        x.parent.right := right;
      }
      right.left := x;
      x.parent := right;
      turned := turned + 1;
    }

    /** Rotating x to the right: its left child takes its place. */
    method RotateRight(x: Node)
      requires CanRotate(Snap(nodes), nil, Rt, x)
      modifies this`root, this`turned, nodes
      ensures Rotated(old(Snap(nodes)), Snap(nodes), nil, Rt, x)
      ensures root == if old(x.parent) == nil then old(x.left) else old(root)
      ensures turned == old(turned) + 1
    {
      var left := x.left;
      x.left := left.right;
      if left.right != nil {
        left.right.parent := x;
      }
      left.parent := x.parent;
      if x.parent == nil {
        root := left;
      } else if x == x.parent.right {
        x.parent.right := left;
      } else {
        x.parent.left := left;
      }
      left.right := x;
      x.parent := left;
      turned := turned + 1;
    }

    // ---------- insertion fix-up, case by case ----------

    /** Red uncle: parent and uncle turn black, the grandparent red. */
    method LiftRed(z: Node, uncle: Node, ghost ctx: Ctx, ghost t: Tree, ghost s: seq<Pair>, ghost all: set<Node>)
      requires Inserting(Snap(nodes), nil, root, ctx, t, z, s, all) && UnderRed(ctx) && !IsBlack(ctx.up.sib)
      requires uncle == ctx.up.sib.n
      modifies nodes
      ensures z in nodes && z.parent in nodes && z.parent.parent == ctx.up.n
      ensures Inserting(Snap(nodes), nil, root, ctx.up.up, Lifted(ctx, t), ctx.up.n, s, all)
    {
      hide Inserting, Lifted;
      ghost var h := Snap(nodes);
      FamilyHere(h, nil, root, ctx, t, z, s, all);
      RedUncle(h, nil, root, ctx, t, z, s, all);
      z.parent.color := Black;
      uncle.color := Black;
      z.parent.parent.color := Red;
      assert Snap(nodes) == Recolored(Recolored(Recolored(h, ctx.n, Black), uncle, Black), ctx.up.n, Red);
    }

    /** Inner grandchild on the left side: its parent is rotated to the left. */
    method InnerLeft(z: Node, ghost ctx: Ctx, ghost t: Tree, ghost s: seq<Pair>, ghost all: set<Node>)
      returns (node: Node)
      requires Inserting(Snap(nodes), nil, root, ctx, t, z, s, all) && UnderRed(ctx) && ctx.side == Rt
      requires ctx.up.side == Lf
      modifies this`root, this`turned, nodes
      ensures node == ctx.n && Inserting(Snap(nodes), nil, root, Outer(ctx, t), Swapped(ctx, t), node, s, all)
      ensures turned == old(turned) + 1
    {
      hide Inserting, Rotated, Outer, Swapped, CanRotate;
      ghost var h, root0 := Snap(nodes), root;
      FamilyHere(h, nil, root, ctx, t, z, s, all);
      InnerChild(h, h, nil, root, root, ctx, t, z, s, all);
      node := z.parent;
      RotateLeft(node);
      InnerChild(h, Snap(nodes), nil, root0, root, ctx, t, z, s, all);
    }

    method InnerRight(z: Node, ghost ctx: Ctx, ghost t: Tree, ghost s: seq<Pair>, ghost all: set<Node>)
      returns (node: Node)
      requires Inserting(Snap(nodes), nil, root, ctx, t, z, s, all) && UnderRed(ctx) && ctx.side == Lf
      requires ctx.up.side == Rt
      modifies this`root, this`turned, nodes
      ensures node == ctx.n && Inserting(Snap(nodes), nil, root, Outer(ctx, t), Swapped(ctx, t), node, s, all)
      ensures turned == old(turned) + 1
    {
      hide Inserting, Rotated, Outer, Swapped, CanRotate;
      ghost var h, root0 := Snap(nodes), root;
      FamilyHere(h, nil, root, ctx, t, z, s, all);
      InnerChild(h, h, nil, root, root, ctx, t, z, s, all);
      node := z.parent;
      RotateRight(node);
      InnerChild(h, Snap(nodes), nil, root0, root, ctx, t, z, s, all);
    }

    /** Outer grandchild on the left side: recolouring, and the grandparent is rotated to the right. */
    method OuterLeft(z: Node, ghost ctx: Ctx, ghost t: Tree, ghost s: seq<Pair>, ghost all: set<Node>)
      requires Inserting(Snap(nodes), nil, root, ctx, t, z, s, all) && UnderRed(ctx)
      requires ctx.side == ctx.up.side == Lf && IsBlack(ctx.up.sib)
      modifies this`root, this`turned, nodes
      ensures Inserting(Snap(nodes), nil, root, Capped(ctx), t, z, s, all)
      ensures turned == old(turned) + 1
    {
      hide Inserting, Rotated, Capped, CanRotate;
      ghost var h, root0 := Snap(nodes), root;
      FamilyHere(h, nil, root, ctx, t, z, s, all);
      OuterChild(h, h, nil, root, root, ctx, t, z, s, all);
      z.parent.color := Black;
      z.parent.parent.color := Red;
      assert Snap(nodes) == Swatched(h, ctx);
      RotateRight(z.parent.parent);
      OuterChild(h, Snap(nodes), nil, root0, root, ctx, t, z, s, all);
    }

    method OuterRight(z: Node, ghost ctx: Ctx, ghost t: Tree, ghost s: seq<Pair>, ghost all: set<Node>)
      requires Inserting(Snap(nodes), nil, root, ctx, t, z, s, all) && UnderRed(ctx)
      requires ctx.side == ctx.up.side == Rt && IsBlack(ctx.up.sib)
      modifies this`root, this`turned, nodes
      ensures Inserting(Snap(nodes), nil, root, Capped(ctx), t, z, s, all)
      ensures turned == old(turned) + 1
    {
      hide Inserting, Rotated, Capped, CanRotate;
      ghost var h, root0 := Snap(nodes), root;
      FamilyHere(h, nil, root, ctx, t, z, s, all);
      OuterChild(h, h, nil, root, root, ctx, t, z, s, all);
      z.parent.color := Black;
      z.parent.parent.color := Red;
      assert Snap(nodes) == Swatched(h, ctx);
      RotateLeft(z.parent.parent);
      OuterChild(h, Snap(nodes), nil, root0, root, ctx, t, z, s, all);
    }

    /** One round of the fix-up below a left child. */
    method InsertRoundLeft(z: Node, ghost ctx: Ctx, ghost t: Tree, ghost s: seq<Pair>, ghost all: set<Node>)
      returns (node: Node, ghost ctx': Ctx, ghost t': Tree)
      requires Inserting(Snap(nodes), nil, root, ctx, t, z, s, all) && UnderRed(ctx) && ctx.up.side == Lf
      modifies this`root, this`turned, nodes
      ensures Inserting(Snap(nodes), nil, root, ctx', t', node, s, all)
      ensures old(turned) <= turned
      ensures (turned == old(turned) && Depth(ctx') < Depth(ctx)) || (turned <= old(turned) + 2 && !UnderRed(ctx'))
    {
      hide Inserting, Lifted, Swapped;
      FamilyHere(Snap(nodes), nil, root, ctx, t, z, s, all);
      node, ctx', t' := z, ctx, t;
      var rightUncle := node.parent.parent.right;
      if rightUncle.color == Red {
        LiftRed(node, rightUncle, ctx, t, s, all);
        node := node.parent.parent;
        ctx', t' := ctx.up.up, Lifted(ctx, t);
      } else {
        if node == node.parent.right {
          node := InnerLeft(node, ctx, t, s, all);
          ctx', t' := Outer(ctx, t), Swapped(ctx, t);
        }
        OuterLeft(node, ctx', t', s, all);
        ctx' := Capped(ctx');
      }
    }

    /** One round of the fix-up below a right child. */
    method InsertRoundRight(z: Node, ghost ctx: Ctx, ghost t: Tree, ghost s: seq<Pair>, ghost all: set<Node>)
      returns (node: Node, ghost ctx': Ctx, ghost t': Tree)
      requires Inserting(Snap(nodes), nil, root, ctx, t, z, s, all) && UnderRed(ctx) && ctx.up.side == Rt
      modifies this`root, this`turned, nodes
      ensures Inserting(Snap(nodes), nil, root, ctx', t', node, s, all)
      ensures old(turned) <= turned
      ensures (turned == old(turned) && Depth(ctx') < Depth(ctx)) || (turned <= old(turned) + 2 && !UnderRed(ctx'))
    {
      hide Inserting, Lifted, Swapped;
      FamilyHere(Snap(nodes), nil, root, ctx, t, z, s, all);
      node, ctx', t' := z, ctx, t;
      var leftUncle := node.parent.parent.left;
      if leftUncle.color == Red {
        LiftRed(node, leftUncle, ctx, t, s, all);
        node := node.parent.parent;
        ctx', t' := ctx.up.up, Lifted(ctx, t);
      } else {
        if node == node.parent.left {
          node := InnerRight(node, ctx, t, s, all);
          ctx', t' := Outer(ctx, t), Swapped(ctx, t);
        }
        OuterRight(node, ctx', t', s, all);
        ctx' := Capped(ctx');
      }
    }

    /** Restoring the red-black conditions after a red node was hung in at z, with at most two rotations. */
    method InsertFixup(z: Node, ghost ctx0: Ctx, ghost t0: Tree, ghost s: seq<Pair>, ghost all: set<Node>)
      returns (ghost t': Tree)
      requires Inserting(Snap(nodes), nil, root, ctx0, t0, z, s, all)
      modifies this`root, this`turned, nodes
      ensures Whole(t') && Inorder(t') == s && Nodes(t') == all
      ensures old(turned) <= turned <= old(turned) + 2
    {
      hide Inserting, Around;
      var node := z;
      ghost var ctx, t := ctx0, t0;
      RedParent(Snap(nodes), nil, root, ctx, t, node, s, all);
      while node.parent.color == Red
        invariant node in nodes && node.parent in nodes
        invariant Inserting(Snap(nodes), nil, root, ctx, t, node, s, all)
        invariant node.parent.color == Red <==> UnderRed(ctx)
        invariant old(turned) <= turned <= old(turned) + if UnderRed(ctx) then 0 else 2
        decreases if UnderRed(ctx) then 1 + Depth(ctx) else 0
      {
        RedParent(Snap(nodes), nil, root, ctx, t, node, s, all);
        FamilyHere(Snap(nodes), nil, root, ctx, t, node, s, all);
        if node.parent == node.parent.parent.left {
          node, ctx, t := InsertRoundLeft(node, ctx, t, s, all);
        } else {
          node, ctx, t := InsertRoundRight(node, ctx, t, s, all);
        }
        RedParent(Snap(nodes), nil, root, ctx, t, node, s, all);
      }
      t' := BlackenRoot(node, ctx, t, s, all);
    }

    method BlackenRoot(z: Node, ghost ctx: Ctx, ghost t: Tree, ghost s: seq<Pair>, ghost all: set<Node>)
      returns (ghost t': Tree)
      requires Inserting(Snap(nodes), nil, root, ctx, t, z, s, all) && !UnderRed(ctx)
      modifies nodes
      ensures Whole(t') && Inorder(t') == s && Nodes(t') == all
    {
      hide Inserting, Around;
      Settle(Snap(nodes), nil, root, ctx, t, z, s, all);
      ghost var h := Snap(nodes);
      root.color := Black;
      assert Snap(nodes) == Recolored(h, root, Black);
      t' := Plug(ctx, t).(c := Black);
    }

    // ---------- deletion fix-up, case by case ----------

    /** Two black nephews: the sibling turns red and the parent is looked at next. */
    method DeletePassUp(x: Node, sibling: Node, ghost ctx: Ctx, ghost t: Tree, ghost s: seq<Pair>, ghost all: set<Node>)
      returns (node: Node)
      requires Deleting(Snap(nodes), nil, root, ctx, t, x, s, all) && IsBlack(t)
      requires ctx.Up? && ctx.sib.T? && ctx.sib.c == Black && sibling == ctx.sib.n
      requires IsBlack(ctx.sib.l) && IsBlack(ctx.sib.r)
      modifies nodes
      ensures node == ctx.n && Deleting(Snap(nodes), nil, root, ctx.up, Dimmed(ctx, t), node, s, all)
    {
      hide Deleting, Dimmed;
      ghost var h := Snap(nodes);
      Sibling(h, nil, root, ctx, t, x, s, all);
      PassUp(h, nil, root, ctx, t, x, s, all);
      sibling.color := Red;
      assert Snap(nodes) == Recolored(h, sibling, Red);
      node := x.parent;
    }

    /** Red sibling of a left child: it turns black and the parent, now red, is rotated to the left. */
    method DeleteRedLeft(x: Node, sibling: Node, ghost ctx: Ctx, ghost t: Tree, ghost s: seq<Pair>,
                         ghost all: set<Node>)
      requires Deleting(Snap(nodes), nil, root, ctx, t, x, s, all)
      requires ctx.Up? && ctx.side == Lf && !IsBlack(ctx.sib) && sibling == ctx.sib.n
      modifies this`root, this`turned, nodes
      ensures Deleting(Snap(nodes), nil, root, Lowered(ctx), t, x, s, all) && IsBlack(Lowered(ctx).sib)
      ensures turned == old(turned) + 1
    {
      hide Deleting, Rotated, CanRotate, Lowered;
      ghost var h, root0 := Snap(nodes), root;
      Sibling(h, nil, root, ctx, t, x, s, all);
      RedSibling(h, h, nil, root, root, ctx, t, x, s, all);
      sibling.color := Black;
      x.parent.color := Red;
      assert Snap(nodes) == RedSiblingColors(h, ctx);
      RotateLeft(x.parent);
      RedSibling(h, Snap(nodes), nil, root0, root, ctx, t, x, s, all);
    }

    /** Red inner nephew of a left child: it turns black, and the sibling, now red, is rotated to the right. */
    method DeleteInnerLeft(x: Node, sibling: Node, ghost ctx: Ctx, ghost t: Tree, ghost s: seq<Pair>,
                           ghost all: set<Node>)
      requires Deleting(Snap(nodes), nil, root, ctx, t, x, s, all)
      requires ctx.Up? && ctx.side == Lf && ctx.sib.T? && ctx.sib.c == Black && sibling == ctx.sib.n
      requires IsBlack(ctx.sib.r) && !IsBlack(ctx.sib.l)
      modifies this`root, this`turned, nodes
      ensures Deleting(Snap(nodes), nil, root, ctx.(sib := Leaned(ctx)), t, x, s, all)
      ensures Leaned(ctx).T? && Leaned(ctx).c == Black && !IsBlack(Leaned(ctx).r)
      ensures turned == old(turned) + 1
    {
      hide Deleting, Rotated, CanRotate, Leaned;
      ghost var h, root0 := Snap(nodes), root;
      Sibling(h, nil, root, ctx, t, x, s, all);
      InnerNephew(h, h, nil, root, ctx, t, x, s, all);
      assert sibling.left == ctx.sib.l.n by { Nephews(h, nil, root, ctx, t, x, s, all); }
      sibling.left.color := Black;
      sibling.color := Red;
      assert Snap(nodes) == LeanHeap(h, ctx);
      RotateRight(sibling);
      InnerNephew(h, Snap(nodes), nil, root0, ctx, t, x, s, all);
    }

    /** Red outer nephew of a left child: the sibling takes the parent's place and colour, and all is in order. */
    method DeleteOuterLeft(x: Node, sibling: Node, ghost ctx: Ctx, ghost t: Tree, ghost s: seq<Pair>,
                           ghost all: set<Node>)
      requires Deleting(Snap(nodes), nil, root, ctx, t, x, s, all)
      requires ctx.Up? && ctx.side == Lf && ctx.sib.T? && ctx.sib.c == Black && sibling == ctx.sib.n
      requires IsBlack(t) && !IsBlack(ctx.sib.r)
      modifies this`root, this`turned, nodes
      ensures Deleting(Snap(nodes), nil, root, Top, Plug(ctx.up, Mended(ctx, t)), root, s, all)
      ensures turned == old(turned) + 1
    {
      hide Deleting, Rotated, CanRotate, Mended, Plug;
      ghost var h, root0 := Snap(nodes), root;
      Sibling(h, nil, root, ctx, t, x, s, all);
      OuterNephew(h, h, nil, root, root, ctx, t, x, s, all);
      assert sibling.right == ctx.sib.r.n by { Nephews(h, nil, root, ctx, t, x, s, all); }
      sibling.color := x.parent.color;
      x.parent.color := Black;
      sibling.right.color := Black;
      assert Snap(nodes) == MendHeap(h, ctx);
      RotateLeft(x.parent);
      OuterNephew(h, Snap(nodes), nil, root0, root, ctx, t, x, s, all);
    }

    /** The rest of a round at a left child, its sibling being black. */
    method DeleteBlackLeft(x: Node, ghost ctx: Ctx, ghost t: Tree, ghost s: seq<Pair>, ghost all: set<Node>)
      returns (node: Node, ghost ctx': Ctx, ghost t': Tree)
      requires Deleting(Snap(nodes), nil, root, ctx, t, x, s, all) && IsBlack(t)
      requires ctx.Up? && ctx.side == Lf && IsBlack(ctx.sib)
      requires x in nodes && x.parent in nodes
      modifies this`root, this`turned, nodes
      ensures Deleting(Snap(nodes), nil, root, ctx', t', node, s, all)
      ensures old(turned) <= turned <= old(turned) + 2
      ensures (turned == old(turned) && ctx' == ctx.up && (ctx.c == Red ==> !IsBlack(t'))) || ctx'.Top?
    {
      hide Deleting, Mended, Leaned, Plug;
      node, ctx' := x, ctx;
      Sibling(Snap(nodes), nil, root, ctx', t, node, s, all);
      var sibling := node.parent.right;
      if sibling.left.color == Black && sibling.right.color == Black {
        node := DeletePassUp(node, sibling, ctx', t, s, all);
        ctx', t' := ctx'.up, Dimmed(ctx', t);
      } else {
        if sibling.right.color == Black {
          DeleteInnerLeft(node, sibling, ctx', t, s, all);
          ctx' := ctx'.(sib := Leaned(ctx'));
          Sibling(Snap(nodes), nil, root, ctx', t, node, s, all);
          sibling := node.parent.right;
        }
        DeleteOuterLeft(node, sibling, ctx', t, s, all);
        node := root;
        ctx', t' := Top, Plug(ctx'.up, Mended(ctx', t));
      }
    }

    /** One round of the fix-up at a left child that is black and not the root. */
    method DeleteRoundLeft(x: Node, ghost ctx: Ctx, ghost t: Tree, ghost s: seq<Pair>, ghost all: set<Node>)
      returns (node: Node, ghost ctx': Ctx, ghost t': Tree)
      requires Deleting(Snap(nodes), nil, root, ctx, t, x, s, all) && IsBlack(t) && ctx.Up? && ctx.side == Lf
      modifies this`root, this`turned, nodes
      ensures Deleting(Snap(nodes), nil, root, ctx', t', node, s, all)
      ensures old(turned) <= turned <= old(turned) + 3
      ensures (turned == old(turned) && Depth(ctx') < Depth(ctx)) || ctx'.Top? || !IsBlack(t')
    {
      hide Deleting;
      Sibling(Snap(nodes), nil, root, ctx, t, x, s, all);
      var sibling := x.parent.right;
      if sibling.color == Red {
        DeleteRedLeft(x, sibling, ctx, t, s, all);
        Sibling(Snap(nodes), nil, root, Lowered(ctx), t, x, s, all);
        node, ctx', t' := DeleteBlackLeft(x, Lowered(ctx), t, s, all);
      } else {
        node, ctx', t' := DeleteBlackLeft(x, ctx, t, s, all);
      }
    }

    /** Red sibling of a right child: it turns black and the parent, now red, is rotated to the right. */
    method DeleteRedRight(x: Node, sibling: Node, ghost ctx: Ctx, ghost t: Tree, ghost s: seq<Pair>,
                          ghost all: set<Node>)
      requires Deleting(Snap(nodes), nil, root, ctx, t, x, s, all)
      requires ctx.Up? && ctx.side == Rt && !IsBlack(ctx.sib) && sibling == ctx.sib.n
      modifies this`root, this`turned, nodes
      ensures Deleting(Snap(nodes), nil, root, Lowered(ctx), t, x, s, all) && IsBlack(Lowered(ctx).sib)
      ensures turned == old(turned) + 1
    {
      hide Deleting, Rotated, CanRotate, Lowered;
      ghost var h, root0 := Snap(nodes), root;
      Sibling(h, nil, root, ctx, t, x, s, all);
      RedSibling(h, h, nil, root, root, ctx, t, x, s, all);
      sibling.color := Black;
      x.parent.color := Red;
      assert Snap(nodes) == RedSiblingColors(h, ctx);
      RotateRight(x.parent);
      RedSibling(h, Snap(nodes), nil, root0, root, ctx, t, x, s, all);
    }

    /** Red inner nephew of a right child: it turns black, and the sibling, now red, is rotated to the left. */
    method DeleteInnerRight(x: Node, sibling: Node, ghost ctx: Ctx, ghost t: Tree, ghost s: seq<Pair>,
                            ghost all: set<Node>)
      requires Deleting(Snap(nodes), nil, root, ctx, t, x, s, all)
      requires ctx.Up? && ctx.side == Rt && ctx.sib.T? && ctx.sib.c == Black && sibling == ctx.sib.n
      requires IsBlack(ctx.sib.l) && !IsBlack(ctx.sib.r)
      modifies this`root, this`turned, nodes
      ensures Deleting(Snap(nodes), nil, root, ctx.(sib := Leaned(ctx)), t, x, s, all)
      ensures Leaned(ctx).T? && Leaned(ctx).c == Black && !IsBlack(Leaned(ctx).l)
      ensures turned == old(turned) + 1
    {
      hide Deleting, Rotated, CanRotate, Leaned;
      ghost var h, root0 := Snap(nodes), root;
      Sibling(h, nil, root, ctx, t, x, s, all);
      InnerNephew(h, h, nil, root, ctx, t, x, s, all);
      assert sibling.right == ctx.sib.r.n by { Nephews(h, nil, root, ctx, t, x, s, all); }
      sibling.right.color := Black;
      sibling.color := Red;
      assert Snap(nodes) == LeanHeap(h, ctx);
      RotateLeft(sibling);
      InnerNephew(h, Snap(nodes), nil, root0, ctx, t, x, s, all);
    }

    /** Red outer nephew of a right child: the sibling takes the parent's place and colour, and all is in order. */
    method DeleteOuterRight(x: Node, sibling: Node, ghost ctx: Ctx, ghost t: Tree, ghost s: seq<Pair>,
                            ghost all: set<Node>)
      requires Deleting(Snap(nodes), nil, root, ctx, t, x, s, all)
      requires ctx.Up? && ctx.side == Rt && ctx.sib.T? && ctx.sib.c == Black && sibling == ctx.sib.n
      requires IsBlack(t) && !IsBlack(ctx.sib.l)
      modifies this`root, this`turned, nodes
      ensures Deleting(Snap(nodes), nil, root, Top, Plug(ctx.up, Mended(ctx, t)), root, s, all)
      ensures turned == old(turned) + 1
    {
      hide Deleting, Rotated, CanRotate, Mended, Plug;
      ghost var h, root0 := Snap(nodes), root;
      Sibling(h, nil, root, ctx, t, x, s, all);
      OuterNephew(h, h, nil, root, root, ctx, t, x, s, all);
      assert sibling.left == ctx.sib.l.n by { Nephews(h, nil, root, ctx, t, x, s, all); }
      sibling.color := x.parent.color;
      x.parent.color := Black;
      sibling.left.color := Black;
      assert Snap(nodes) == MendHeap(h, ctx);
      RotateRight(x.parent);
      OuterNephew(h, Snap(nodes), nil, root0, root, ctx, t, x, s, all);
    }

    /** The rest of a round at a right child, its sibling being black. */
    method DeleteBlackRight(x: Node, ghost ctx: Ctx, ghost t: Tree, ghost s: seq<Pair>, ghost all: set<Node>)
      returns (node: Node, ghost ctx': Ctx, ghost t': Tree)
      requires Deleting(Snap(nodes), nil, root, ctx, t, x, s, all) && IsBlack(t)
      requires ctx.Up? && ctx.side == Rt && IsBlack(ctx.sib)
      requires x in nodes && x.parent in nodes
      modifies this`root, this`turned, nodes
      ensures Deleting(Snap(nodes), nil, root, ctx', t', node, s, all)
      ensures old(turned) <= turned <= old(turned) + 2
      ensures (turned == old(turned) && ctx' == ctx.up && (ctx.c == Red ==> !IsBlack(t'))) || ctx'.Top?
    {
      hide Deleting, Mended, Leaned, Plug;
      node, ctx' := x, ctx;
      Sibling(Snap(nodes), nil, root, ctx', t, node, s, all);
      var sibling := node.parent.left;
      if sibling.left.color == Black && sibling.right.color == Black {
        node := DeletePassUp(node, sibling, ctx', t, s, all);
        ctx', t' := ctx'.up, Dimmed(ctx', t);
      } else {
        if sibling.left.color == Black {
          DeleteInnerRight(node, sibling, ctx', t, s, all);
          ctx' := ctx'.(sib := Leaned(ctx'));
          Sibling(Snap(nodes), nil, root, ctx', t, node, s, all);
          sibling := node.parent.left;
        }
        DeleteOuterRight(node, sibling, ctx', t, s, all);
        node := root;
        ctx', t' := Top, Plug(ctx'.up, Mended(ctx', t));
      }
    }

    /** One round of the fix-up at a right child that is black and not the root. */
    method DeleteRoundRight(x: Node, ghost ctx: Ctx, ghost t: Tree, ghost s: seq<Pair>, ghost all: set<Node>)
      returns (node: Node, ghost ctx': Ctx, ghost t': Tree)
      requires Deleting(Snap(nodes), nil, root, ctx, t, x, s, all) && IsBlack(t) && ctx.Up? && ctx.side == Rt
      modifies this`root, this`turned, nodes
      ensures Deleting(Snap(nodes), nil, root, ctx', t', node, s, all)
      ensures old(turned) <= turned <= old(turned) + 3
      ensures (turned == old(turned) && Depth(ctx') < Depth(ctx)) || ctx'.Top? || !IsBlack(t')
    {
      hide Deleting;
      Sibling(Snap(nodes), nil, root, ctx, t, x, s, all);
      var sibling := x.parent.left;
      if sibling.color == Red {
        DeleteRedRight(x, sibling, ctx, t, s, all);
        Sibling(Snap(nodes), nil, root, Lowered(ctx), t, x, s, all);
        node, ctx', t' := DeleteBlackRight(x, Lowered(ctx), t, s, all);
      } else {
        node, ctx', t' := DeleteBlackRight(x, ctx, t, s, all);
      }
    }

    /**
     Restoring the red-black conditions where the tree is one black node short, with at most
     three rotations. The place may be empty: then x is the sentinel, and its parent link tells
     where it stands.
    */
    method DeleteFixup(x: Node, ghost ctx0: Ctx, ghost t0: Tree, ghost s: seq<Pair>, ghost all: set<Node>)
      returns (ghost t': Tree)
      requires Deleting(Snap(nodes), nil, root, ctx0, t0, x, s, all)
      modifies this`root, this`turned, nodes
      ensures Whole(t') && Inorder(t') == s && Nodes(t') == all
      ensures old(turned) <= turned <= old(turned) + 3
    {
      hide Deleting, Around;
      var node := x;
      ghost var ctx, t := ctx0, t0;
      Sibling(Snap(nodes), nil, root, ctx, t, node, s, all);
      while node != root && node.color == Black
        invariant node in nodes && Deleting(Snap(nodes), nil, root, ctx, t, node, s, all)
        invariant node != root && node.color == Black <==> ctx.Up? && IsBlack(t)
        invariant old(turned) <= turned <= old(turned) + if ctx.Up? && IsBlack(t) then 0 else 3
        decreases if ctx.Up? && IsBlack(t) then Depth(ctx) else 0
      {
        Sibling(Snap(nodes), nil, root, ctx, t, node, s, all);
        if node == node.parent.left {
          node, ctx, t := DeleteRoundLeft(node, ctx, t, s, all);
        } else {
          node, ctx, t := DeleteRoundRight(node, ctx, t, s, all);
        }
        Sibling(Snap(nodes), nil, root, ctx, t, node, s, all);
      }
      t' := DeleteSettle(node, ctx, t, s, all);
    }

    /** The node the loop ends at turns black. */
    method DeleteSettle(x: Node, ghost ctx: Ctx, ghost t: Tree, ghost s: seq<Pair>, ghost all: set<Node>)
      returns (ghost t': Tree)
      requires Deleting(Snap(nodes), nil, root, ctx, t, x, s, all) && (ctx.Top? || !IsBlack(t))
      modifies nodes
      ensures Whole(t') && Inorder(t') == s && Nodes(t') == all
    {
      hide Deleting, Around, Plug, Inorder, Nodes, IsRB;
      Blacken(Snap(nodes), nil, root, ctx, t, x, s, all);
      ghost var h := Snap(nodes);
      x.color := Black;
      assert Snap(nodes) == Recolored(h, x, Black);
      t' := if t.T? then Plug(ctx, t.(c := Black)) else t;
    }

    // ---------- searching ----------

    /** The nodes passed on the way from the root to a node, each left for the child on the key's side. */
    ghost predicate Trail(path: seq<Node>, node: Node, key: Key)
      reads this, nodes
    {
      && root == (path + [node])[0]
      && forall i :: 0 <= i < |path| ==>
           && path[i] in nodes && path[i] != nil && path[i].key != key
           && (path + [node])[i + 1] == if path[i].key < key then path[i].right else path[i].left
    }

    lemma TrailStart(key: Key)
      ensures Trail([], root, key)
    {
    }

    lemma TrailOn(path: seq<Node>, node: Node, key: Key)
      requires Trail(path, node, key) && node in nodes && node != nil && node.key != key
      ensures Trail(path + [node], if node.key < key then node.right else node.left, key)
    {
      var next := if node.key < key then node.right else node.left;
      var long := path + [node];
      assert (long + [next])[0] == long[0];
      forall i | 0 <= i < |long|
        ensures long[i] in nodes && long[i] != nil && long[i].key != key
        ensures (long + [next])[i + 1] == if long[i].key < key then long[i].right else long[i].left
      {
        if i < |path| {
          assert long[i] == path[i] && (long + [next])[i + 1] == long[i + 1];
        } else {
          assert long[i] == node && (long + [next])[i + 1] == next;
        }
      }
    }

    /**
     The node with the key, or the sentinel when there is none, past no more nodes than the tree
     is high. The ghost results say where the search ended and which nodes it passed.
    */
    method Search(key: Key) returns (node: Node, ghost ctx: Ctx, ghost t: Tree, ghost path: seq<Node>)
      requires Valid()
      ensures node == nil <==> key !in contents
      ensures node != nil ==> node in nodes && node.key == key && node.value == contents[key]
      ensures Around(Snap(nodes), nil, root, ctx, t, node) && Plug(ctx, t) == tree && Narrowed(ctx, key)
      ensures node == nil <==> t.Leaf?
      ensures t.T? ==> t.k == key
      ensures Trail(path, node, key)
      ensures |path| == Depth(ctx) <= Height(tree) && |contents| + 1 >= Pow2(|path| / 2)
      ensures |contents| < 1023 ==> |path| < 20
    {
      hide Around, Spells, Trail;
      TrailStart(key);
      node, ctx, t, path := root, Top, tree, [];
      AtPlace(Snap(nodes), nil, root, ctx, t, node);
      FlatPlug(ctx, t);
      while node != nil
        invariant node in nodes && Around(Snap(nodes), nil, root, ctx, t, node) && Plug(ctx, t) == tree
        invariant Narrowed(ctx, key) && |path| == Depth(ctx) && Trail(path, node, key)
        invariant node == nil <==> t.Leaf?
        decreases t
      {
        FlatPlug(ctx, t);
        StepDown(Snap(nodes), nil, root, ctx, t, node, Lf);
        StepDown(Snap(nodes), nil, root, ctx, t, node, Rt);
        if node.key < key {
          NarrowDown(ctx, t, key);
          TrailOn(path, node, key);
          path := path + [node];
          node, ctx, t := node.right, Down(ctx, t, Rt), t.r;
        } else if node.key > key {
          NarrowDown(ctx, t, key);
          TrailOn(path, node, key);
          path := path + [node];
          node, ctx, t := node.left, Down(ctx, t, Lf), t.l;
        } else {
          FlatSplit(ctx, Inorder(t));
          InMapAt(ctx, t, contents);
          Reached(ctx, t);
          return;
        }
      }
      FlatPlug(ctx, t);
      FlatSplit(ctx, []);
      assert Inorder(tree) == Before(ctx) + After(ctx);
      NotInMap(Before(ctx), key, After(ctx), contents);
      Reached(ctx, t);
    }

    // ---------- inserting ----------

    /** A new red node below p, at the empty place inside ctx. */
    method Attach(key: Key, value: int, p: Node, ghost ctx: Ctx) returns (node: Node)
      requires Valid() && Around(Snap(nodes), nil, root, ctx, Leaf, nil) && p == Par(ctx, nil)
      requires ctx.Up? ==> p in nodes && p != nil && ctx.side == if p.key > key then Lf else Rt
      modifies this`root, this`nodes, p
      ensures fresh(node) && nodes == old(nodes) + {node} && nil.color == Black
      ensures Around(Snap(nodes), nil, root, ctx, T(node, Red, key, value, Leaf, Leaf), node)
    {
      hide Around, Spells, CtxShape;
      ghost var h := Snap(nodes);
      node := new Node.Create(key, value, Red, nil);
      nodes := nodes + {node};
      node.parent := p;
      if p == nil {
        root := node;
      } else if p.key > key {
        p.left := node;
      } else {
        p.right := node;
      }
      HangIn(h, Snap(nodes), nil, old(root), root, ctx, node, Cell(key, Red, value, nil, nil, p));
    }

    /** The new node and the fix-up. */
    method Grow(key: Key, value: int, p: Node, ghost ctx: Ctx) returns (ghost t': Tree)
      requires Valid() && Around(Snap(nodes), nil, root, ctx, Leaf, nil) && p == Par(ctx, nil)
      requires Plug(ctx, Leaf) == tree
      requires ctx.Up? ==> p in nodes && p != nil && ctx.side == if p.key > key then Lf else Rt
      modifies this`root, this`turned, this`nodes, nodes
      ensures fresh(nodes - old(nodes)) && nodes == Nodes(t') + {nil}
      ensures Whole(t') && Inorder(t') == Before(ctx) + [(key, value)] + After(ctx)
      ensures old(turned) <= turned <= old(turned) + 2
    {
      hide Around, Spells, Sorted, Inserting, Narrowed;
      PlugNodes(ctx, Leaf);
      var node := Attach(key, value, p, ctx);
      StartInserting(Snap(nodes), nil, root, ctx, tree, node, key, value);
      t' := InsertFixup(node, ctx, T(node, Red, key, value, Leaf, Leaf),
                               Before(ctx) + [(key, value)] + After(ctx), {node} + CtxNodes(ctx));
    }

    /** The key joins the tree at the empty place inside ctx. */
    method AddBelow(key: Key, value: int, p: Node, ghost ctx: Ctx)
      requires Valid() && Around(Snap(nodes), nil, root, ctx, Leaf, nil) && p == Par(ctx, nil)
      requires Plug(ctx, Leaf) == tree && Narrowed(ctx, key)
      requires ctx.Up? ==> p in nodes && p != nil && ctx.side == if p.key > key then Lf else Rt
      modifies this, nodes
      ensures Valid() && fresh(nodes - old(nodes))
      ensures key !in old(contents) && contents == old(contents)[key := value]
      ensures old(turned) <= turned <= old(turned) + 2
    {
      hide Around, Spells, Sorted, Narrowed, IsRB, Plug, Inorder, Before, After;
      InsertedMap(ctx, tree, key, value, contents);
      ghost var t' := Grow(key, value, p, ctx);
      tree, contents := t', contents[key := value];
    }

    /**
     Adding a key with its value. A key that is present keeps its old value and nothing
     changes; the value is stored as a signed 32-bit number.
    */
    method Insert(key: Key, value: int)
      requires Valid() && 0 <= value < 0x1_0000_0000
      modifies this, nodes
      ensures Valid() && fresh(nodes - old(nodes))
      ensures contents == if key in old(contents) then old(contents) else old(contents)[key := ToInt32(value)]
      ensures key !in old(contents) ==>
                && contents.Keys == old(contents).Keys + {key}
                && -0x8000_0000 <= contents[key] < 0x8000_0000 && (contents[key] - value) % 0x1_0000_0000 == 0
                && (value < 0x8000_0000 ==> contents[key] == value)
      ensures key in old(contents) ==> nodes == old(nodes) && Snap(nodes) == old(Snap(nodes)) && turned == old(turned)
      ensures old(turned) <= turned <= old(turned) + 2
    {
      hide Around, Spells, Inserting;
      var p, x := nil, root;
      ghost var ctx, t := Top, tree;
      AtPlace(Snap(nodes), nil, root, ctx, t, x);
      while x != nil
        invariant x in nodes && Around(Snap(nodes), nil, root, ctx, t, x) && Plug(ctx, t) == tree
        invariant x == nil <==> t.Leaf?
        invariant Narrowed(ctx, key)
        invariant p == Par(ctx, nil)
        invariant ctx.Up? ==> p in nodes && p != nil && ctx.side == if p.key > key then Lf else Rt
        modifies {}
        decreases t
      {
        FlatPlug(ctx, t);
        StepDown(Snap(nodes), nil, root, ctx, t, x, Lf);
        StepDown(Snap(nodes), nil, root, ctx, t, x, Rt);
        p := x;
        if x.key < key {
          NarrowDown(ctx, t, key);
          x, ctx, t := x.right, Down(ctx, t, Rt), t.r;
        } else if x.key > key {
          NarrowDown(ctx, t, key);
          x, ctx, t := x.left, Down(ctx, t, Lf), t.l;
        } else {
          InMapAt(ctx, t, contents);
          return;
        }
      }
      AddBelow(key, ToInt32(value), p, ctx);
    }

    // ---------- deleting ----------

    /** The node with the smallest key of a subtree: left as far as possible. */
    method Mini(x: Node, ghost base: Ctx, ghost t0: Tree) returns (node: Node, ghost ctx: Ctx, ghost t: Tree)
      requires Around(Snap(nodes), nil, root, base, t0, x) && t0.T? && x in nodes
      ensures node in nodes && Around(Snap(nodes), nil, root, ctx, t, node)
      ensures t.T? && t.l.Leaf? && Spine(ctx, base) && Plug(ctx, t) == Plug(base, t0)
    {
      hide Around;
      node, ctx, t := x, base, t0;
      StepDown(Snap(nodes), nil, root, ctx, t, node, Lf);
      while node.left != nil
        invariant node in nodes && Around(Snap(nodes), nil, root, ctx, t, node) && t.T?
        invariant node.left in nodes && (node.left == nil <==> t.l.Leaf?)
        invariant Spine(ctx, base) && Plug(ctx, t) == Plug(base, t0)
        decreases t
      {
        StepDown(Snap(nodes), nil, root, ctx, t, node, Lf);
        node, ctx, t := node.left, Down(ctx, t, Lf), t.l;
        StepDown(Snap(nodes), nil, root, ctx, t, node, Lf);
      }
    }

    /** Hanging x where y hangs. The child's parent link is set in every case. */
    method Replace(y: Node, x: Node, ghost ctx: Ctx)
      requires y in nodes && x in nodes && x != y && y.parent == Par(ctx, nil)
      requires if ctx.Top? then y.parent == nil
               else ctx.n in nodes && ctx.n != nil && ctx.n != y && ctx.n != x && (y == ctx.n.left <==> ctx.side == Lf)
      modifies this`root, this`nodes, nodes
      ensures nodes == old(nodes) - {y} && unchanged(y)
      ensures Spliced(old(Snap(nodes)), Snap(nodes), nil, ctx, y, x)
      ensures root == if ctx.Top? then x else old(root)
    {
      x.parent := y.parent;
      if y.parent == nil {
        root := x;
      } else if y == y.parent.left {
        y.parent.left := x;
      } else {
        y.parent.right := x;
      }
      nodes := nodes - {y};
    }

    /** Taking out y, which has at most one child: the child, or the sentinel, takes its place. */
    method Unlink(y: Node, ghost ctx: Ctx, ghost t: Tree) returns (x: Node)
      requires Around(Snap(nodes), nil, root, ctx, t, y) && t.T? && (t.l.Leaf? || t.r.Leaf?)
      modifies this`root, this`nodes, nodes
      ensures y in old(nodes) && nodes == old(nodes) - {y} && x in nodes && x.parent == Par(ctx, nil)
      ensures Around(Snap(nodes), nil, root, ctx, Kept(t), x) && nil in nodes && nil.color == old(nil.color)
      ensures Nodes(Kept(t)) + CtxNodes(ctx) == Nodes(t) + CtxNodes(ctx) - {y}
      ensures y.color == t.c && y.key == t.k && y.value == t.v && unchanged(y)
    {
      hide Around, Spliced;
      ghost var h := Snap(nodes);
      SpliceReady(h, nil, root, ctx, t, y);
      StepDown(h, nil, root, ctx, t, y, Lf);
      x := nil;
      if y.left != nil {
        x := y.left;
      } else if y.right != nil {
        x := y.right;
      }
      Replace(y, x, ctx);
      SpliceOut(h, Snap(nodes), nil, old(root), root, ctx, t, y, x);
    }

    /** The node above takes over the key and value of the node that was taken out. */
    method TakeOver(node: Node, y: Node, x: Node, ghost ctx: Ctx, ghost t: Tree)
      requires Around(Snap(nodes), nil, root, ctx, t, x) && OnPath(ctx, node) && node in nodes && y != node
      requires x in nodes
      modifies node
      ensures Around(Snap(nodes), nil, root, Rekey(ctx, node, y.key, y.value), t, x)
      ensures node.parent == old(node.parent) && node.color == old(node.color)
    {
      hide Around;
      ghost var h := Snap(nodes);
      RekeyAround(h, nil, root, ctx, t, x, node, y.key, y.value);
      node.key := y.key;
      node.value := y.value;
      assert Snap(nodes) == h[node := h[node].(key := y.key, value := y.value)];
    }

    /** Taking out a black node leaves its place one black node short; a red one is not missed. */
    method Rebalance(y: Node, x: Node, ghost ctx: Ctx, ghost ty: Tree, ghost s: seq<Pair>, ghost all: set<Node>)
      returns (ghost t': Tree)
      requires ty.T? && y.color == ty.c && IsRB(Kept(ty))
      requires Around(Snap(nodes), nil, root, ctx, Kept(ty), x) && nil in nodes && nil.color == Black
      requires x in nodes && x.parent == Par(ctx, nil)
      requires ty.c == Black ==> CtxRB(ctx, Bh(Kept(ty)) + 1)
      requires ty.c == Red ==> CtxRB(ctx, Bh(Kept(ty))) && ctx.Up? && ctx.c == Black
      requires Flat(ctx, Inorder(Kept(ty))) == s && Nodes(Kept(ty)) + CtxNodes(ctx) == all
      modifies this`root, this`turned, nodes
      ensures Whole(t') && Inorder(t') == s && Nodes(t') == all
      ensures old(turned) <= turned <= old(turned) + 3
    {
      hide Around;
      if y.color == Black {
        t' := DeleteFixup(x, ctx, Kept(ty), s, all);
      } else {
        ZoomAll(Snap(nodes), nil, root, ctx, Kept(ty), x);
        PlugRB(ctx, Kept(ty));
        FlatPlug(ctx, Kept(ty));
        t' := Plug(ctx, Kept(ty));
      }
    }

    /**
     The node with the key, and the node to take out: itself if it has a missing child, otherwise
     the successor, which is the minimum of its right subtree.
    */
    method Victim(key: Key) returns (node: Node, y: Node, ghost ctx: Ctx, ghost t: Tree)
      requires Valid() && key in contents
      ensures node in nodes && node != nil && Around(Snap(nodes), nil, root, ctx, t, y) && Plug(ctx, t) == tree
      ensures t.T? && t.n == y && (t.l.Leaf? || t.r.Leaf?) && (y != node ==> OnPath(ctx, node))
      ensures var s := Flat(Taken(ctx, t, node), Inorder(Kept(t))); Sorted(s) && Spells(s, contents - {key})
      ensures t.k in contents && contents[t.k] == t.v
      ensures t.k == key || (key < t.k && forall x :: x in contents && key < x ==> t.k <= x)
    {
      hide Around, Spells, Sorted, Kept, Flat, Inorder;
      ghost var path;
      node, ctx, t, path := Search(key);
      StepDown(Snap(nodes), nil, root, ctx, t, node, Lf);
      StepDown(Snap(nodes), nil, root, ctx, t, node, Rt);
      y := node;
      if node.left == nil || node.right == nil {
        PlainDrop(ctx, t, contents);
      } else {
        ghost var base := Down(ctx, t, Rt);
        y, ctx, t := Mini(node.right, base, t.r);
        StepDown(Snap(nodes), nil, root, ctx, t, y, Lf);
        MiniBelow(Snap(nodes), nil, root, ctx, t, y, base, contents);
      }
    }

    /** The node y leaves the tree and, if it is not the node with the key, leaves that node its key and value. */
    method Remove(node: Node, y: Node, ghost ctx: Ctx, ghost t: Tree) returns (x: Node)
      requires Around(Snap(nodes), nil, root, ctx, t, y) && t.T? && t.n == y && (t.l.Leaf? || t.r.Leaf?)
      requires node in nodes && (y != node ==> OnPath(ctx, node))
      modifies this`root, this`nodes, nodes
      ensures y in old(nodes) && y != nil && nodes == old(nodes) - {y} && x in nodes && x.parent == Par(ctx, nil)
      ensures Around(Snap(nodes), nil, root, Taken(ctx, t, node), Kept(t), x)
      ensures Nodes(Kept(t)) + CtxNodes(ctx) == Nodes(t) + CtxNodes(ctx) - {y}
      ensures nil in nodes && nil.color == old(nil.color) && y.color == t.c && y.key == t.k && y.value == t.v
    {
      hide Around, Kept;
      SpliceReady(Snap(nodes), nil, root, ctx, t, y);
      x := Unlink(y, ctx, t);
      if y != node {
        TakeOver(node, y, x, ctx, Kept(t));
      }
    }

    /** Taking the node out and restoring the red-black conditions. */
    method Excise(node: Node, y: Node, ghost ctx: Ctx, ghost t: Tree) returns (ghost t': Tree)
      requires Around(Snap(nodes), nil, root, ctx, t, y) && t.T? && t.n == y && (t.l.Leaf? || t.r.Leaf?)
      requires node in nodes && (y != node ==> OnPath(ctx, node)) && nil.color == Black
      requires IsRB(Plug(ctx, t)) && IsBlack(Plug(ctx, t))
      modifies this`root, this`turned, this`nodes, nodes
      ensures y in old(nodes) && y != nil && nodes == old(nodes) - {y} && y !in Nodes(t')
      ensures Whole(t') && Inorder(t') == Flat(Taken(ctx, t, node), Inorder(Kept(t)))
      ensures Nodes(t') == Nodes(Plug(ctx, t)) - {y} && y.key == t.k && y.value == t.v
      ensures old(turned) <= turned <= old(turned) + 3
    {
      hide Around, CtxRB, IsRB, Kept, Plug, Flat, Inorder;
      SplicedRB(ctx, t);
      PlugNodes(ctx, t);
      TakenRB(ctx, t, node);
      var x := Remove(node, y, ctx, t);
      ghost var ctx' := Taken(ctx, t, node);
      t' := Rebalance(y, x, ctx', t, Flat(ctx', Inorder(Kept(t))), Nodes(Kept(t)) + CtxNodes(ctx'));
    }

    /**
     Removing a key that is present: exactly its entry leaves the map, and the node returned
     leaves the tree. It still has its own key and value: those removed, or those of the next
     greater key, which live on in another node.
    */
    method Delete(key: Key) returns (y: Node)
      requires Valid() && key in contents
      modifies this, nodes
      ensures Valid() && contents == old(contents) - {key}
      ensures y in old(nodes) && y != nil && nodes == old(nodes) - {y}
      ensures y.key in old(contents) && y.value == old(contents)[y.key]
      ensures y.key == key || (key < y.key && forall x :: x in contents && key < x ==> y.key <= x)
      ensures old(turned) <= turned <= old(turned) + 3
    {
      hide Around, Spells, Sorted, IsRB, Kept, Plug, Flat, Inorder;
      ghost var ctx, t, t';
      var node;
      node, y, ctx, t := Victim(key);
      t' := Excise(node, y, ctx, t);
      tree, contents := t', contents - {key};
    }
  }
}
