/**
 Snapshots of the heap and the tree they hold: child and parent pointers agree with a
 tree and the context around a place in it. Rotations and recolourings of the snapshot
 are rotations and recolourings of the tree.
*/
module RbShape {
  import opened RbModel

  /** The fields of one node. */
  datatype Cell = Cell(key: Key, color: Color, value: int, left: Node, right: Node, parent: Node)

  function Kid(c: Cell, side: Side): Node { if side == Lf then c.left else c.right }

  function SetKid(c: Cell, side: Side, x: Node): Cell { if side == Lf then c.(left := x) else c.(right := x) }

  type Heap = map<Node, Cell>

  ghost function Snap(nodes: set<Node>): Heap
    reads nodes
  {
    map n | n in nodes :: Cell(n.key, n.color, n.value, n.left, n.right, n.parent)
  }

  ghost function Nodes(t: Tree): set<Node> {
    match t
    case Leaf => {}
    case T(n, _, _, _, l, r) => {n} + Nodes(l) + Nodes(r)
  }

  ghost function CtxNodes(ctx: Ctx): set<Node> {
    match ctx
    case Top => {}
    case Up(_, n, _, _, _, sib, up) => {n} + Nodes(sib) + CtxNodes(up)
  }

  /** No node occurs twice. */
  ghost predicate Distinct(t: Tree) {
    match t
    case Leaf => true
    case T(n, _, _, _, l, r) => n !in Nodes(l) && n !in Nodes(r) && Nodes(l) !! Nodes(r) && Distinct(l) && Distinct(r)
  }

  ghost predicate CtxDistinct(ctx: Ctx) {
    match ctx
    case Top => true
    case Up(_, n, _, _, _, sib, up) =>
      n !in Nodes(sib) && n !in CtxNodes(up) && Nodes(sib) !! CtxNodes(up) && Distinct(sib) && CtxDistinct(up)
  }

  // ---------- the heap holds a tree ----------

  /** Node n's own fields. */
  ghost predicate Holds(h: Heap, nil: Node, n: Node, c: Color, k: Key, v: int, p: Node) {
    n != nil && n in h && h[n].color == c && h[n].key == k && h[n].value == v && h[n].parent == p
  }

  /** The subtree at pointer x, whose parent is p. */
  ghost predicate Shape(h: Heap, nil: Node, t: Tree, x: Node, p: Node) {
    match t
    case Leaf => x == nil
    case T(n, c, k, v, l, r) =>
      && x == n && Holds(h, nil, n, c, k, v, p)
      && Shape(h, nil, l, h[n].left, n) && Shape(h, nil, r, h[n].right, n)
  }

  /** The node above a place. */
  ghost function Par(ctx: Ctx, nil: Node): Node {
    match ctx
    case Top => nil
    case Up(_, n, _, _, _, _, _) => n
  }

  /** The context around a place whose pointer is x. */
  ghost predicate CtxShape(h: Heap, nil: Node, root: Node, ctx: Ctx, x: Node) {
    match ctx
    case Top => root == x
    case Up(side, n, c, k, v, sib, up) =>
      && Holds(h, nil, n, c, k, v, Par(up, nil)) && Kid(h[n], side) == x
      && Shape(h, nil, sib, Kid(h[n], Opp(side)), n) && CtxShape(h, nil, root, up, n)
  }

  /** A tree around the place with pointer x: context outside, t inside. */
  ghost predicate Around(h: Heap, nil: Node, root: Node, ctx: Ctx, t: Tree, x: Node) {
    && nil in h
    && Shape(h, nil, t, x, Par(ctx, nil)) && CtxShape(h, nil, root, ctx, x)
    && Distinct(t) && CtxDistinct(ctx) && Nodes(t) !! CtxNodes(ctx)
  }

  // ---------- what does not change ----------

  ghost predicate SameOn(h: Heap, h': Heap, s: set<Node>) {
    forall n :: n in s && n in h ==> n in h' && h'[n] == h[n]
  }

  lemma {:induction false} ShapeNodes(h: Heap, nil: Node, t: Tree, x: Node, p: Node)
    requires Shape(h, nil, t, x, p)
    ensures forall n :: n in Nodes(t) ==> n in h && n != nil
    ensures t.T? ==> x in Nodes(t)
  {
    if t.T? {
      ShapeNodes(h, nil, t.l, h[t.n].left, t.n);
      ShapeNodes(h, nil, t.r, h[t.n].right, t.n);
    }
  }

  lemma {:induction false} CtxNodesIn(h: Heap, nil: Node, root: Node, ctx: Ctx, x: Node)
    requires CtxShape(h, nil, root, ctx, x)
    ensures forall n :: n in CtxNodes(ctx) ==> n in h && n != nil
  {
    match ctx
    case Top =>
    case Up(side, n, c, k, v, sib, up) =>
      ShapeNodes(h, nil, sib, Kid(h[n], Opp(side)), n);
      CtxNodesIn(h, nil, root, up, n);
  }

  lemma {:induction false} ShapeKept(h: Heap, h': Heap, nil: Node, t: Tree, x: Node, p: Node)
    requires Shape(h, nil, t, x, p) && SameOn(h, h', Nodes(t))
    ensures Shape(h', nil, t, x, p)
  {
    if t.T? {
      assert SameOn(h, h', Nodes(t.l)) && SameOn(h, h', Nodes(t.r));
      ShapeKept(h, h', nil, t.l, h[t.n].left, t.n);
      ShapeKept(h, h', nil, t.r, h[t.n].right, t.n);
    }
  }

  lemma {:induction false} CtxKept(h: Heap, h': Heap, nil: Node, root: Node, ctx: Ctx, x: Node)
    requires CtxShape(h, nil, root, ctx, x) && SameOn(h, h', CtxNodes(ctx))
    ensures CtxShape(h', nil, root, ctx, x)
  {
    match ctx
    case Top =>
    case Up(side, n, c, k, v, sib, up) =>
      assert SameOn(h, h', Nodes(sib)) && SameOn(h, h', CtxNodes(up));
      ShapeKept(h, h', nil, sib, Kid(h[n], Opp(side)), n);
      CtxKept(h, h', nil, root, up, n);
  }

  /** A subtree hung below another node. */
  lemma Rehung(h: Heap, h': Heap, nil: Node, t: Tree, x: Node, p: Node, q: Node)
    requires Shape(h, nil, t, x, p) && Distinct(t)
    requires t.T? ==> x in h' && h'[x] == h[x].(parent := q) && SameOn(h, h', Nodes(t) - {x})
    ensures Shape(h', nil, t, x, q)
  {
    if t.T? {
      assert SameOn(h, h', Nodes(t.l)) && SameOn(h, h', Nodes(t.r));
      ShapeKept(h, h', nil, t.l, h[t.n].left, t.n);
      ShapeKept(h, h', nil, t.r, h[t.n].right, t.n);
    }
  }

  // ---------- moving the place ----------

  /** The subtree of the node just above a place. */
  ghost function Folded(ctx: Ctx, t: Tree): Tree
    requires ctx.Up?
  {
    Join(ctx.side, ctx.n, ctx.c, ctx.k, ctx.v, t, ctx.sib)
  }

  /** Looking at the parent instead of one of its children, and back. */
  lemma Zoom(h: Heap, nil: Node, root: Node, ctx: Ctx, t: Tree, x: Node)
    requires ctx.Up?
    ensures Around(h, nil, root, ctx, t, x)
            <==> Around(h, nil, root, ctx.up, Folded(ctx, t), ctx.n) && x == Kid(h[ctx.n], ctx.side)
  {
    if Around(h, nil, root, ctx, t, x) {
      assert Nodes(Folded(ctx, t)) !! CtxNodes(ctx.up);
    }
    if Around(h, nil, root, ctx.up, Folded(ctx, t), ctx.n) {
      assert Nodes(t) !! CtxNodes(ctx);
    }
  }

  /** Looking at the whole tree. */
  lemma {:induction false} ZoomAll(h: Heap, nil: Node, root: Node, ctx: Ctx, t: Tree, x: Node)
    requires Around(h, nil, root, ctx, t, x)
    ensures Around(h, nil, root, Top, Plug(ctx, t), root)
    ensures Nodes(Plug(ctx, t)) == Nodes(t) + CtxNodes(ctx)
    decreases ctx
  {
    if ctx.Up? {
      Zoom(h, nil, root, ctx, t, x);
      ZoomAll(h, nil, root, ctx.up, Folded(ctx, t), ctx.n);
    }
  }

  lemma {:induction false} PlugNodes(ctx: Ctx, t: Tree)
    ensures Nodes(Plug(ctx, t)) == Nodes(t) + CtxNodes(ctx)
    decreases ctx
  {
    if ctx.Up? {
      PlugNodes(ctx.up, Folded(ctx, t));
    }
  }

  // ---------- recolouring ----------

  ghost function Recolored(h: Heap, x: Node, c: Color): Heap
    requires x in h
  {
    h[x := h[x].(color := c)]
  }

  /** Recolouring the node at the place. */
  lemma Recolor(h: Heap, nil: Node, root: Node, ctx: Ctx, t: Tree, x: Node, c: Color)
    requires t.T? && Around(h, nil, root, ctx, t, x)
    ensures x in h && x != nil && Around(Recolored(h, x, c), nil, root, ctx, t.(c := c), x)
  {
    var h' := Recolored(h, x, c);
    ShapeKept(h, h', nil, t.l, h[x].left, x);
    ShapeKept(h, h', nil, t.r, h[x].right, x);
    CtxKept(h, h', nil, root, ctx, x);
  }

  ghost function TreeKid(t: Tree, side: Side): Tree
    requires t.T?
  {
    if side == Lf then t.l else t.r
  }

  ghost function WithKid(t: Tree, side: Side, kid: Tree): Tree
    requires t.T?
  {
    if side == Lf then t.(l := kid) else t.(r := kid)
  }

  /** Recolouring a child of the node at the place. */
  lemma RecolorKid(h: Heap, nil: Node, root: Node, ctx: Ctx, t: Tree, x: Node, side: Side, c: Color)
    requires t.T? && TreeKid(t, side).T? && Around(h, nil, root, ctx, t, x)
    ensures x in h && Kid(h[x], side) in h && Kid(h[x], side) == TreeKid(t, side).n != nil
    ensures Around(Recolored(h, Kid(h[x], side), c), nil, root, ctx, WithKid(t, side, TreeKid(t, side).(c := c)), x)
  {
    var kid, y := TreeKid(t, side), Kid(h[x], side);
    var below := Up(side, t.n, t.c, t.k, t.v, TreeKid(t, Opp(side)), ctx);
    assert Folded(below, kid) == t;
    Zoom(h, nil, root, below, kid, y);
    Recolor(h, nil, root, below, kid, y, c);
    Zoom(Recolored(h, y, c), nil, root, below, kid.(c := c), y);
  }

  lemma AtPlace(h: Heap, nil: Node, root: Node, ctx: Ctx, t: Tree, x: Node)
    requires Around(h, nil, root, ctx, t, x)
    ensures x in h && nil in h && (t.Leaf? <==> x == nil)
  {
  }

  /** One step down from the place. */
  lemma StepDown(h: Heap, nil: Node, root: Node, ctx: Ctx, t: Tree, x: Node, side: Side)
    requires t.T? && Around(h, nil, root, ctx, t, x)
    ensures x == t.n && x in h && x != nil && Kid(h[x], side) in h
    ensures h[x].key == t.k && h[x].value == t.v && h[x].color == t.c
    ensures var kid := TreeKid(t, side);
            && Around(h, nil, root, Down(ctx, t, side), kid, Kid(h[x], side))
            && Plug(Down(ctx, t, side), kid) == Plug(ctx, t)
            && (kid.Leaf? <==> Kid(h[x], side) == nil)
  {
    var kid := TreeKid(t, side);
    assert Folded(Down(ctx, t, side), kid) == t;
    Zoom(h, nil, root, Down(ctx, t, side), kid, Kid(h[x], side));
  }

  // ---------- rotating ----------

  /**
   h' is h after a rotation of x towards side: its child y on the other side takes its
   place, and y's child on this side changes over to x.
  */
  ghost predicate Rotated(h: Heap, h': Heap, nil: Node, side: Side, x: Node) {
    && x in h && Kid(h[x], Opp(side)) in h
    && var y := Kid(h[x], Opp(side)); var b := Kid(h[y], side); var p := h[x].parent;
       && h'.Keys == h.Keys
       && h'[x] == SetKid(h[x], Opp(side), b).(parent := y)
       && h'[y] == SetKid(h[y], side, x).(parent := p)
       && (b != nil ==> b in h && h'[b] == h[b].(parent := x))
       && (p != nil ==> p in h && h'[p] == if x == h[p].left then h[p].(left := y) else h[p].(right := y))
       && forall n :: n in h && n != x && n != y && (b == nil || n != b) && (p == nil || n != p) ==> h'[n] == h[n]
  }

  /** The context when its place points to y instead of x. */
  lemma Repointed(h: Heap, h': Heap, nil: Node, root: Node, root': Node, ctx: Ctx, x: Node, y: Node)
    requires CtxShape(h, nil, root, ctx, x) && CtxDistinct(ctx)
    requires root' == if ctx.Top? then y else root
    requires ctx.Up? ==> ctx.n in h' && h'[ctx.n] == SetKid(h[ctx.n], ctx.side, y)
    requires ctx.Up? ==> SameOn(h, h', CtxNodes(ctx) - {ctx.n})
    ensures CtxShape(h', nil, root', ctx, y)
  {
    if ctx.Up? {
      assert SameOn(h, h', Nodes(ctx.sib)) && SameOn(h, h', CtxNodes(ctx.up));
      ShapeKept(h, h', nil, ctx.sib, Kid(h[ctx.n], Opp(ctx.side)), ctx.n);
      CtxKept(h, h', nil, root, ctx.up, ctx.n);
    }
  }

  /** The place's pointer is the parent's child on one side only. */
  lemma OneSide(h: Heap, nil: Node, root: Node, ctx: Ctx, t: Tree, x: Node)
    requires Around(h, nil, root, ctx, t, x) && ctx.Up? && t.T?
    ensures ctx.n in h && ctx.n != nil && (x == h[ctx.n].left <==> ctx.side == Lf)
    ensures x == h[ctx.n].right <==> ctx.side == Rt
  {
    ShapeNodes(h, nil, ctx.sib, Kid(h[ctx.n], Opp(ctx.side)), ctx.n);
    ShapeNodes(h, nil, t, x, ctx.n);
  }

  lemma KidShape(h: Heap, nil: Node, t: Tree, x: Node, p: Node, side: Side)
    requires t.T? && Shape(h, nil, t, x, p) && Distinct(t)
    ensures x in h && Shape(h, nil, TreeKid(t, side), Kid(h[x], side), x)
    ensures x !in Nodes(TreeKid(t, side)) && Nodes(TreeKid(t, side)) <= Nodes(t) && Distinct(TreeKid(t, side))
    ensures Nodes(TreeKid(t, side)) !! Nodes(TreeKid(t, Opp(side)))
    ensures Nodes(t) == {x} + Nodes(TreeKid(t, side)) + Nodes(TreeKid(t, Opp(side)))
  {
  }

  /** The tree after the rotation. */
  ghost function Turn(side: Side, t: Tree): Tree
    requires t.T? && TreeKid(t, Opp(side)).T?
  {
    var y := TreeKid(t, Opp(side));
    Join(side, y.n, y.c, y.k, y.v, Join(side, t.n, t.c, t.k, t.v, TreeKid(t, side), TreeKid(y, side)),
      TreeKid(y, Opp(side)))
  }

  /** The nodes a rotation of x towards side is about: x, y and y's child b, and the subtrees beside them. */
  ghost predicate Turnable(h: Heap, nil: Node, root: Node, side: Side, ctx: Ctx, t: Tree, x: Node) {
    t.T? && TreeKid(t, Opp(side)).T? && Around(h, nil, root, ctx, t, x)
  }

  lemma TurnApart(h: Heap, nil: Node, root: Node, side: Side, ctx: Ctx, t: Tree, x: Node)
    requires Turnable(h, nil, root, side, ctx, t, x)
    ensures var ty := TreeKid(t, Opp(side)); var y := ty.n;
            var a, b, d := TreeKid(t, side), TreeKid(ty, side), TreeKid(ty, Opp(side));
            && t.n == x && x in h && y in h && x != nil && y != nil && x != y && Kid(h[x], Opp(side)) == y
            && Shape(h, nil, a, Kid(h[x], side), x) && Shape(h, nil, b, Kid(h[y], side), y)
            && Shape(h, nil, d, Kid(h[y], Opp(side)), y)
            && Nodes(t) == {x, y} + Nodes(a) + Nodes(b) + Nodes(d)
            && x !in Nodes(a) + Nodes(b) + Nodes(d) && y !in Nodes(a) + Nodes(b) + Nodes(d)
            && Nodes(a) !! Nodes(b) && Nodes(a) !! Nodes(d) && Nodes(b) !! Nodes(d)
            && Distinct(a) && Distinct(b) && Distinct(d)
            && (b.T? ==> Kid(h[y], side) == b.n && b.n in Nodes(b)) && (b.Leaf? ==> Kid(h[y], side) == nil)
            && nil !in Nodes(t) && nil !in CtxNodes(ctx)
            && Holds(h, nil, x, t.c, t.k, t.v, Par(ctx, nil)) && Holds(h, nil, y, ty.c, ty.k, ty.v, x)
  {
    var ty := TreeKid(t, Opp(side));
    ShapeNodes(h, nil, t, x, Par(ctx, nil));
    CtxNodesIn(h, nil, root, ctx, x);
    KidShape(h, nil, t, x, Par(ctx, nil), side);
    KidShape(h, nil, t, x, Par(ctx, nil), Opp(side));
    KidShape(h, nil, ty, ty.n, x, side);
    KidShape(h, nil, ty, ty.n, x, Opp(side));
  }

  /** The up to four nodes a rotation of x towards side writes are different, and in the heap. */
  ghost predicate CanRotate(h: Heap, nil: Node, side: Side, x: Node) {
    && x in h && x != nil
    && var y := Kid(h[x], Opp(side)); var p := h[x].parent;
       && y in h && y != nil && y != x && p in h && p != x && p != y
       && (p != nil ==> (x == h[p].left <==> x != h[p].right))
       && var b := Kid(h[y], side); b in h && b != x && b != y && (b != nil ==> b != p)
  }

  lemma TurnCells(h: Heap, nil: Node, root: Node, side: Side, ctx: Ctx, t: Tree, x: Node)
    requires Turnable(h, nil, root, side, ctx, t, x)
    ensures CanRotate(h, nil, side, x)
  {
    hide Shape, CtxShape, Distinct, CtxDistinct;
    TurnApart(h, nil, root, side, ctx, t, x);
    ParentIs(h, nil, root, ctx, t, x);
    if ctx.Up? { OneSide(h, nil, root, ctx, t, x); }
    CtxNodesIn(h, nil, root, ctx, x);
    ShapeNodes(h, nil, TreeKid(TreeKid(t, Opp(side)), side), Kid(h[Kid(h[x], Opp(side))], side), Kid(h[x], Opp(side)));
  }

  /** What the rotation leaves alone. */
  lemma TurnSpares(h: Heap, h': Heap, nil: Node, root: Node, side: Side, ctx: Ctx, t: Tree, x: Node)
    requires Turnable(h, nil, root, side, ctx, t, x) && Rotated(h, h', nil, side, x)
    ensures var ty := TreeKid(t, Opp(side)); var b := TreeKid(ty, side);
            && SameOn(h, h', Nodes(TreeKid(t, side))) && SameOn(h, h', Nodes(TreeKid(ty, Opp(side))))
            && (b.T? ==> SameOn(h, h', Nodes(b) - {b.n}) && b.n in h && b.n in h' && h'[b.n] == h[b.n].(parent := x))
            && (if ctx.Top? then SameOn(h, h', CtxNodes(ctx))
                else ctx.n in h && ctx.n in h' && SameOn(h, h', CtxNodes(ctx) - {ctx.n})
                     && h'[ctx.n] == SetKid(h[ctx.n], ctx.side, ty.n))
            && nil in h' && h'[nil] == h[nil]
            && Holds(h', nil, x, t.c, t.k, t.v, ty.n) && Holds(h', nil, ty.n, ty.c, ty.k, ty.v, Par(ctx, nil))
            && Kid(h'[x], side) == Kid(h[x], side) && Kid(h'[x], Opp(side)) == Kid(h[ty.n], side)
            && Kid(h'[ty.n], side) == x && Kid(h'[ty.n], Opp(side)) == Kid(h[ty.n], Opp(side))
  {
    hide Shape, CtxShape, Distinct, CtxDistinct;
    TurnApart(h, nil, root, side, ctx, t, x);
    assert h[x].parent == Par(ctx, nil) by { ParentIs(h, nil, root, ctx, t, x); }
    if ctx.Up? { OneSide(h, nil, root, ctx, t, x); }
  }

  lemma ParentIs(h: Heap, nil: Node, root: Node, ctx: Ctx, t: Tree, x: Node)
    requires t.T? && Around(h, nil, root, ctx, t, x)
    ensures x in h && h[x].parent == Par(ctx, nil) && (ctx.Up? ==> ctx.n != nil)
  {
  }

  /** A rotation of the heap is a rotation of the tree at the place, and spares the sentinel. */
  lemma Rotate(h: Heap, h': Heap, nil: Node, root: Node, root': Node, side: Side, ctx: Ctx, t: Tree, x: Node)
    requires Turnable(h, nil, root, side, ctx, t, x) && Rotated(h, h', nil, side, x)
    requires root' == if h[x].parent == nil then Kid(h[x], Opp(side)) else root
    ensures nil in h' && h'[nil] == h[nil]
    ensures Around(h', nil, root', ctx, Turn(side, t), Kid(h[x], Opp(side)))
    ensures Nodes(Turn(side, t)) == Nodes(t)
  {
    hide Shape, CtxShape, Distinct, CtxDistinct, Rotated, Turn, Nodes, CtxNodes, SameOn;
    TurnApart(h, nil, root, side, ctx, t, x);
    TurnSpares(h, h', nil, root, side, ctx, t, x);
    var ty := TreeKid(t, Opp(side));
    var y := ty.n;
    var b, a, d := TreeKid(ty, side), TreeKid(t, side), TreeKid(ty, Opp(side));
    Rehung(h, h', nil, b, Kid(h[y], side), y, x);
    ShapeKept(h, h', nil, a, Kid(h[x], side), x);
    ShapeKept(h, h', nil, d, Kid(h[y], Opp(side)), y);
    ParentIs(h, nil, root, ctx, t, x);
    Repointed(h, h', nil, root, root', ctx, x, y);
    TurnedShape(h', nil, side, t, Par(ctx, nil));
    TurnSets(side, t);
  }

  lemma TurnSets(side: Side, t: Tree)
    requires t.T? && TreeKid(t, Opp(side)).T? && Distinct(t)
    ensures Distinct(Turn(side, t)) && Nodes(Turn(side, t)) == Nodes(t)
  {
    var y := TreeKid(t, Opp(side));
    var x' := Join(side, t.n, t.c, t.k, t.v, TreeKid(t, side), TreeKid(y, side));
    assert Distinct(y) && Distinct(x');
    assert Nodes(y) == {y.n} + Nodes(TreeKid(y, side)) + Nodes(TreeKid(y, Opp(side)));
    assert Nodes(x') == {t.n} + Nodes(TreeKid(t, side)) + Nodes(TreeKid(y, side));
  }

  /** Putting the turned tree together. */
  lemma TurnedShape(h: Heap, nil: Node, side: Side, t: Tree, p: Node)
    requires t.T? && TreeKid(t, Opp(side)).T?
    requires var ty := TreeKid(t, Opp(side)); var x, y := t.n, ty.n;
             && Holds(h, nil, x, t.c, t.k, t.v, y) && Holds(h, nil, y, ty.c, ty.k, ty.v, p)
             && Kid(h[y], side) == x && x != y
             && Shape(h, nil, TreeKid(t, side), Kid(h[x], side), x)
             && Shape(h, nil, TreeKid(ty, side), Kid(h[x], Opp(side)), x)
             && Shape(h, nil, TreeKid(ty, Opp(side)), Kid(h[y], Opp(side)), y)
    ensures Shape(h, nil, Turn(side, t), TreeKid(t, Opp(side)).n, p)
  {
    var ty := TreeKid(t, Opp(side));
    assert Shape(h, nil, Join(side, t.n, t.c, t.k, t.v, TreeKid(t, side), TreeKid(ty, side)), t.n, ty.n);
  }

  // ---------- hanging a new node in ----------

  /** The heap with a new node as the child the place stands for. */
  ghost predicate HungIn(h: Heap, h': Heap, nil: Node, ctx: Ctx, node: Node, c: Cell) {
    && node !in h && node in h' && h'[node] == c
    && c.left == nil && c.right == nil && c.parent == Par(ctx, nil)
    && (ctx.Up? ==> ctx.n in h && ctx.n in h' && h'[ctx.n] == SetKid(h[ctx.n], ctx.side, node))
    && forall n :: n in h && (ctx.Top? || n != ctx.n) ==> n in h' && h'[n] == h[n]
  }

  lemma HangIn(h: Heap, h': Heap, nil: Node, root: Node, root': Node, ctx: Ctx, node: Node, c: Cell)
    requires Around(h, nil, root, ctx, Leaf, nil) && HungIn(h, h', nil, ctx, node, c)
    requires root' == if ctx.Top? then node else root
    ensures nil in h' && h'[nil] == h[nil]
    ensures Around(h', nil, root', ctx, T(node, c.color, c.key, c.value, Leaf, Leaf), node)
  {
    CtxNodesIn(h, nil, root, ctx, nil);
    Repointed(h, h', nil, root, root', ctx, nil, node);
  }

  // ---------- links ----------

  /** All links of the tree's nodes stay inside the tree, and children know their parents. */
  lemma {:induction false} LinksInside(h: Heap, nil: Node, t: Tree, x: Node, p: Node)
    requires Shape(h, nil, t, x, p)
    ensures x in Nodes(t) + {nil} && (x != nil ==> x in h && h[x].parent == p)
    ensures forall n :: n in Nodes(t) ==> n in h && h[n].left in Nodes(t) + {nil} && h[n].right in Nodes(t) + {nil}
                                          && h[n].parent in Nodes(t) + {p}
    ensures forall n, side :: n in Nodes(t) && Kid(h[n], side) != nil ==>
            Kid(h[n], side) in h && h[Kid(h[n], side)].parent == n
  {
    if t.T? {
      LinksInside(h, nil, t.l, h[t.n].left, t.n);
      LinksInside(h, nil, t.r, h[t.n].right, t.n);
    }
  }
}
