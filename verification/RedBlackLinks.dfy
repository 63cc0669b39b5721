/** What each in-place assignment sequence does to the link fields, and why the
    fields then embed the rearranged shape. */
module RedBlackLinks {
  import opened RedBlackShape

  ghost function Snapshot(s: set<Node>): Store
    reads s
  {
    map x | x in s :: Cell(x.left, x.right, x.parent, x.color)
  }

  function RotatedLeft(t: Tree): Tree
    requires t.Branch? && t.right.Branch?
  {
    Branch(t.right.color, Branch(t.color, t.left, t.node, t.right.left), t.right.node, t.right.right)
  }

  function RotatedRight(t: Tree): Tree
    requires t.Branch? && t.left.Branch?
  {
    Branch(t.left.color, t.left.left, t.left.node, Branch(t.color, t.left.right, t.node, t.right))
  }

  /** `m'` is `m` after the child link that led to `child` leads to `child'`. */
  predicate Relinked(ctx: Ctx, child': Node?, m: Store, m': Store) {
    ctx.Hole? ==>
      && ctx.node in m && ctx.node in m'
      && m'[ctx.node] == if ctx.side == Left then m[ctx.node].(left := child') else m[ctx.node].(right := child')
  }

  /** A rotation moves between two arrangements of the same pieces: one hangs x
      below y, the other y below x. */
  lemma {:induction false} RotationSame(c: Color, a: Tree, x: Node, b: Tree, d: Color, y: Node, e: Tree, c': Color,
      d': Color)
    ensures Nodes(Branch(d, Branch(c, a, x, b), y, e)) == Nodes(Branch(c', a, x, Branch(d', b, y, e)))
    ensures Inorder(Branch(d, Branch(c, a, x, b), y, e)) == Inorder(Branch(c', a, x, Branch(d', b, y, e)))
  {
    var l, r := Branch(c, a, x, b), Branch(d', b, y, e);
    assert Nodes(l) == Nodes(a) + {x} + Nodes(b) && Nodes(r) == Nodes(b) + {y} + Nodes(e);
    assert Inorder(l) == Inorder(a) + [x] + Inorder(b) && Inorder(r) == Inorder(b) + [y] + Inorder(e);
    Regroup([], Inorder(a), [x], Inorder(b), [y] + Inorder(e));
  }

  /** Five pieces that share no node. */
  predicate Apart(ctx: Ctx, a: Tree, x: Node, b: Tree, y: Node, e: Tree) {
    && x != y && x !in Nodes(a) && x !in Nodes(b) && x !in Nodes(e) && x !in CtxNodes(ctx)
    && y !in Nodes(a) && y !in Nodes(b) && y !in Nodes(e) && y !in CtxNodes(ctx)
    && Nodes(a) !! Nodes(b) !! Nodes(e) !! CtxNodes(ctx)
    && Distinct(a) && Distinct(b) && Distinct(e) && CtxDistinct(ctx)
  }

  predicate Rotated(ctx: Ctx, x: Node, b: Tree, y: Node, bParent: Node, newTop: Node, m: Store, m': Store) {
    && m.Keys <= m'.Keys
    && (b.Branch? ==> b.node in m && m'[b.node] == m[b.node].(parent := bParent))
    && Relinked(ctx, newTop, m, m')
    && forall n :: n in m && n != x && n != y && n != Root(b) && n != Above(ctx) ==> m'[n] == m[n]
  }

  lemma RotationFrame(ctx: Ctx, a: Tree, x: Node, b: Tree, y: Node, e: Tree,
                      bParent: Node, bParent': Node, top: Node, top': Node, m: Store, m': Store)
    requires Apart(ctx, a, x, b, y, e)
    requires Embeds(a, x, m) && Embeds(b, bParent, m) && Embeds(e, y, m) && CtxEmbeds(ctx, top, m)
    requires Rotated(ctx, x, b, y, bParent', top', m, m')
    ensures Embeds(a, x, m') && Embeds(b, bParent', m') && Embeds(e, y, m') && CtxEmbeds(ctx, top', m')
  {
    assert Embeds(a, x, m') by { FrameTree(a, x, m, m'); }
    assert Embeds(e, y, m') by { FrameTree(e, y, m, m'); }
    assert Embeds(b, bParent', m') by {
      if b.Branch? {
        ReframeTree(b, bParent', m, m');
      }
    }
    assert CtxEmbeds(ctx, top', m') by { ReframeCtx(ctx, top, top', m, m'); }
  }

  lemma {:induction false} LowApart(ctx: Ctx, c: Color, a: Tree, x: Node, b: Tree, d: Color, y: Node, e: Tree)
    ensures Distinct(Plug(ctx, Branch(d, Branch(c, a, x, b), y, e))) <==> Apart(ctx, a, x, b, y, e)
  {
    var l := Branch(c, a, x, b);
    PlugNodes(ctx, Branch(d, l, y, e));
    assert Nodes(l) == Nodes(a) + {x} + Nodes(b);
  }

  lemma {:induction false} HighApart(ctx: Ctx, c: Color, a: Tree, x: Node, b: Tree, d: Color, y: Node, e: Tree)
    ensures Distinct(Plug(ctx, Branch(c, a, x, Branch(d, b, y, e)))) <==> Apart(ctx, a, x, b, y, e)
  {
    var r := Branch(d, b, y, e);
    PlugNodes(ctx, Branch(c, a, x, r));
    assert Nodes(r) == Nodes(b) + {y} + Nodes(e);
  }

  /** The nodes a rotation writes to are pairwise different. */
  predicate FourNodes(ctx: Ctx, x: Node, b: Tree, y: Node) {
    && x != y && Root(b) != x && Root(b) != y && Above(ctx) != x && Above(ctx) != y
    && (b.Branch? ==> Root(b) != Above(ctx))
    && (ctx.Hole? ==> Root(ctx.other) != x && Root(ctx.other) != y)
  }

  lemma HighView(ctx: Ctx, c: Color, a: Tree, x: Node, b: Tree, d: Color, y: Node, e: Tree, m: Store)
    requires
      var t := Plug(ctx, Branch(c, a, x, Branch(d, b, y, e)));
      Distinct(t) && Embeds(t, null, m)
    ensures Apart(ctx, a, x, b, y, e) && FourNodes(ctx, x, b, y)
    ensures Embeds(a, x, m) && Embeds(b, y, m) && Embeds(e, y, m) && CtxEmbeds(ctx, x, m)
    ensures x in m && m[x] == Cell(Root(a), y, Above(ctx), c)
    ensures y in m && m[y] == Cell(Root(b), Root(e), x, d)
    ensures b.Branch? ==> b.node in m
    ensures ctx.Hole? ==> ctx.node in m && m[ctx.node] == HoleCell(ctx, x)
    ensures Root(Plug(ctx, Branch(c, a, x, Branch(d, b, y, e)))) == CtxRoot(ctx, x)
  {
    PlugEmbeds(ctx, Branch(c, a, x, Branch(d, b, y, e)), m);
    HighApart(ctx, c, a, x, b, d, y, e);
    assert Embeds(Branch(d, b, y, e), x, m);
  }

  lemma LowView(ctx: Ctx, c: Color, a: Tree, x: Node, b: Tree, d: Color, y: Node, e: Tree, m: Store)
    requires
      var t := Plug(ctx, Branch(d, Branch(c, a, x, b), y, e));
      Distinct(t) && Embeds(t, null, m)
    ensures Apart(ctx, a, x, b, y, e) && FourNodes(ctx, x, b, y)
    ensures Embeds(a, x, m) && Embeds(b, x, m) && Embeds(e, y, m) && CtxEmbeds(ctx, y, m)
    ensures x in m && m[x] == Cell(Root(a), Root(b), y, c)
    ensures y in m && m[y] == Cell(x, Root(e), Above(ctx), d)
    ensures b.Branch? ==> b.node in m
    ensures ctx.Hole? ==> ctx.node in m && m[ctx.node] == HoleCell(ctx, y)
    ensures Root(Plug(ctx, Branch(d, Branch(c, a, x, b), y, e))) == CtxRoot(ctx, y)
  {
    PlugEmbeds(ctx, Branch(d, Branch(c, a, x, b), y, e), m);
    LowApart(ctx, c, a, x, b, d, y, e);
    assert Embeds(Branch(c, a, x, b), y, m);
  }

  /** `m'` holds the link fields after the assignments of a left rotation at `x`. */
  ghost predicate SpunLeft(m: Store, m': Store, x: Node, y: Node, b: Node?, p: Node?) {
    && m'.Keys == m.Keys && x in m && y in m
    && m'[x] == m[x].(right := b, parent := y)
    && m'[y] == m[y].(left := x, parent := p)
    && (b != null && b in m ==> m'[b] == m[b].(parent := x))
    && (p != null && p in m ==> m'[p] == if m[p].left == x then m[p].(left := y) else m[p].(right := y))
    && forall n :: n in m && n != x && n != y && n != b && n != p ==> m'[n] == m[n]
  }

  lemma RotateLeftResult(ctx: Ctx, c: Color, a: Tree, x: Node, b: Tree, d: Color, y: Node, e: Tree, m: Store, m': Store)
    requires
      var t := Plug(ctx, Branch(c, a, x, Branch(d, b, y, e)));
      Distinct(t) && Embeds(t, null, m)
    requires SpunLeft(m, m', x, y, Root(b), Above(ctx))
    ensures
      var t := Plug(ctx, Branch(c, a, x, Branch(d, b, y, e)));
      var t' := Plug(ctx, Branch(d, Branch(c, a, x, b), y, e));
      && Distinct(t') && Embeds(t', null, m') && Root(t') == CtxRoot(ctx, y)
      && Nodes(t') == Nodes(t) && Inorder(t') == Inorder(t)
  {
    var high, low := Branch(c, a, x, Branch(d, b, y, e)), Branch(d, Branch(c, a, x, b), y, e);
    HighView(ctx, c, a, x, b, d, y, e, m);
    RotationFrame(ctx, a, x, b, y, e, y, x, x, y, m, m');
    LowApart(ctx, c, a, x, b, d, y, e);
    assert Embeds(low.left, y, m');
    PlugEmbeds(ctx, low, m');
    RotationSame(c, a, x, b, d, y, e, c, d);
    PlugNodes(ctx, low);
    PlugNodes(ctx, high);
    PlugInorder(ctx, low);
    PlugInorder(ctx, high);
  }

  /** `m'` holds the link fields after the assignments of a right rotation at `y`. */
  ghost predicate SpunRight(m: Store, m': Store, y: Node, x: Node, b: Node?, p: Node?) {
    && m'.Keys == m.Keys && x in m && y in m
    && m'[y] == m[y].(left := b, parent := x)
    && m'[x] == m[x].(right := y, parent := p)
    && (b != null && b in m ==> m'[b] == m[b].(parent := y))
    && (p != null && p in m ==> m'[p] == if m[p].left == y then m[p].(left := x) else m[p].(right := x))
    && forall n :: n in m && n != x && n != y && n != b && n != p ==> m'[n] == m[n]
  }

  lemma RotateRightResult(ctx: Ctx, c: Color, a: Tree, x: Node, b: Tree, d: Color, y: Node, e: Tree, m: Store,
      m': Store)
    requires
      var t := Plug(ctx, Branch(d, Branch(c, a, x, b), y, e));
      Distinct(t) && Embeds(t, null, m)
    requires SpunRight(m, m', y, x, Root(b), Above(ctx))
    ensures
      var t := Plug(ctx, Branch(d, Branch(c, a, x, b), y, e));
      var t' := Plug(ctx, Branch(c, a, x, Branch(d, b, y, e)));
      && Distinct(t') && Embeds(t', null, m') && Root(t') == CtxRoot(ctx, x)
      && Nodes(t') == Nodes(t) && Inorder(t') == Inorder(t)
  {
    var high, low := Branch(c, a, x, Branch(d, b, y, e)), Branch(d, Branch(c, a, x, b), y, e);
    LowView(ctx, c, a, x, b, d, y, e, m);
    RotationFrame(ctx, a, x, b, y, e, x, y, y, x, m, m');
    HighApart(ctx, c, a, x, b, d, y, e);
    assert Embeds(high.right, x, m');
    PlugEmbeds(ctx, high, m');
    RotationSame(c, a, x, b, d, y, e, c, d);
    PlugNodes(ctx, low);
    PlugNodes(ctx, high);
    PlugInorder(ctx, low);
    PlugInorder(ctx, high);
  }

  lemma PaintResult(ctx: Ctx, t: Tree, c: Color, m: Store, m': Store)
    requires t.Branch? && Distinct(Plug(ctx, t)) && Embeds(Plug(ctx, t), null, m)
    requires t.node in m && m' == m[t.node := m[t.node].(color := c)]
    ensures
      var t' := Plug(ctx, t.(color := c));
      && Distinct(t') && Embeds(t', null, m') && Root(t') == Root(Plug(ctx, t))
      && Nodes(t') == Nodes(Plug(ctx, t)) && Inorder(t') == Inorder(Plug(ctx, t))
  {
    var t' := t.(color := c);
    PlugNodes(ctx, t);
    PlugNodes(ctx, t');
    PlugInorder(ctx, t);
    PlugInorder(ctx, t');
    PlugEmbeds(ctx, t, m);
    PlugEmbeds(ctx, t', m');
    FrameTree(t.left, t.node, m, m');
    FrameTree(t.right, t.node, m, m');
    FrameCtx(ctx, t.node, m, m');
  }

  /** `m'` holds the link fields after the red leaf `x` has become a child of `p`. */
  ghost predicate Hung(m: Store, m': Store, x: Node, p: Node?, onLeft: bool) {
    && x !in m && m'.Keys == m.Keys + {x} && m'[x] == Cell(null, null, p, Red)
    && (p != null && p in m ==> m'[p] == if onLeft then m[p].(left := x) else m[p].(right := x))
    && forall n :: n in m && n != p ==> m'[n] == m[n]
  }

  /** Hanging the new node `x` into the hole that a failed search has found. */
  lemma LinkResult(ctx: Ctx, x: Node, m: Store, m': Store)
    requires Distinct(Plug(ctx, Leaf)) && Embeds(Plug(ctx, Leaf), null, m)
    requires x !in Nodes(Plug(ctx, Leaf))
    requires Hung(m, m', x, Above(ctx), ctx.Hole? && ctx.side == Left)
    ensures
      var t' := Plug(ctx, Branch(Red, Leaf, x, Leaf));
      && Distinct(t') && Embeds(t', null, m') && Root(t') == CtxRoot(ctx, x)
      && Nodes(t') == Nodes(Plug(ctx, Leaf)) + {x}
      && Inorder(t') == Before(ctx) + [x] + After(ctx)
  {
    var b := Branch(Red, Leaf, x, Leaf);
    PlugNodes(ctx, Leaf);
    PlugNodes(ctx, b);
    PlugEmbeds(ctx, Leaf, m);
    PlugEmbeds(ctx, b, m');
    PlugInorder(ctx, b);
    ReframeCtx(ctx, null, x, m, m');
  }

  /** `m'` holds the link fields after `x` has been bypassed: its only child
      `child`, if any, hangs below its parent `p`. */
  ghost predicate Spliced(m: Store, m': Store, x: Node, child: Node?, p: Node?) {
    && x in m && m'.Keys == m.Keys - {x}
    && (child != null && child in m' ==> m'[child] == m[child].(parent := p))
    && (p != null && p in m' ==> m'[p] == if m[p].left == x then m[p].(left := child) else m[p].(right := child))
    && forall n :: n in m' && n != child && n != p ==> m'[n] == m[n]
  }

  /** Taking the node `x`, which has at most the one child `child`, out of the tree. */
  lemma SpliceResult(ctx: Ctx, side: Side, c: Color, x: Node, child: Tree, m: Store, m': Store)
    requires
      var t := Plug(ctx, Join(side, c, child, x, Leaf));
      Distinct(t) && Embeds(t, null, m)
    requires Spliced(m, m', x, Root(child), Above(ctx))
    ensures
      var t, t' := Plug(ctx, Join(side, c, child, x, Leaf)), Plug(ctx, child);
      && Distinct(t') && Embeds(t', null, m') && Root(t') == CtxRoot(ctx, Root(child))
      && x !in Nodes(t') && Nodes(t') == Nodes(t) - {x}
  {
    var t := Join(side, c, child, x, Leaf);
    PlugNodes(ctx, t);
    PlugNodes(ctx, child);
    PlugEmbeds(ctx, t, m);
    PlugEmbeds(ctx, child, m');
    assert Nodes(t) == Nodes(child) + {x};
    assert Embeds(child, x, m);
    if child.Branch? {
      ReframeTree(child, Above(ctx), m, m');
    }
    ReframeCtx(ctx, x, Root(child), m, m');
  }

  /** `m'` holds the link fields after `y` has taken the place of `x`, whose
      children and parent are `l`, `r` and `p`. */
  ghost predicate TookPlace(m: Store, m': Store, x: Node, y: Node, l: Node?, r: Node?, p: Node?) {
    && x in m && y !in m && m'.Keys == m.Keys - {x} + {y} && m'[y] == m[x]
    && (l != null && l in m' ==> l in m && m'[l] == m[l].(parent := y))
    && (r != null && r in m' ==> r in m && m'[r] == m[r].(parent := y))
    && (p != null && p in m && p in m' ==> m'[p] == if m[p].left == x then m[p].(left := y) else m[p].(right := y))
    && forall n :: n in m' && n != y && n != l && n != r && n != p ==> n in m && m'[n] == m[n]
  }

  lemma {:induction false} SubstituteNodes(ctx: Ctx, c: Color, l: Tree, x: Node, r: Tree, y: Node)
    requires Distinct(Plug(ctx, Branch(c, l, x, r))) && y !in Nodes(Plug(ctx, Branch(c, l, x, r)))
    ensures Apart(ctx, l, x, r, y, Leaf)
    ensures Distinct(Plug(ctx, Branch(c, l, y, r)))
    ensures Nodes(Plug(ctx, Branch(c, l, y, r))) == Nodes(Plug(ctx, Branch(c, l, x, r))) - {x} + {y}
  {
    PlugNodes(ctx, Branch(c, l, x, r));
    PlugNodes(ctx, Branch(c, l, y, r));
  }

  /** Putting the node `y` into the place, the colour and the links of `x`. */
  lemma SubstituteResult(ctx: Ctx, c: Color, l: Tree, x: Node, r: Tree, y: Node, m: Store, m': Store)
    requires
      var t := Plug(ctx, Branch(c, l, x, r));
      Distinct(t) && Embeds(t, null, m) && y !in Nodes(t)
    requires TookPlace(m, m', x, y, Root(l), Root(r), Above(ctx))
    ensures
      var t, t' := Plug(ctx, Branch(c, l, x, r)), Plug(ctx, Branch(c, l, y, r));
      && Distinct(t') && Embeds(t', null, m') && Root(t') == CtxRoot(ctx, y)
      && Nodes(t') == Nodes(t) - {x} + {y}
  {
    var t, t' := Branch(c, l, x, r), Branch(c, l, y, r);
    SubstituteNodes(ctx, c, l, x, r, y);
    assert CtxEmbeds(ctx, x, m) && Embeds(l, x, m) && Embeds(r, x, m)
        && m[x] == Cell(Root(l), Root(r), Above(ctx), c) by {
      PlugEmbeds(ctx, t, m);
    }
    assert Embeds(l, y, m') by {
      if l.Branch? {
        ReframeTree(l, y, m, m');
      }
    }
    assert Embeds(r, y, m') by {
      if r.Branch? {
        ReframeTree(r, y, m, m');
      }
    }
    assert CtxEmbeds(ctx, y, m') by { ReframeCtx(ctx, x, y, m, m'); }
    assert Embeds(t', Above(ctx), m');
    PlugEmbeds(ctx, t', m');
  }
}
