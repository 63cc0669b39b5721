/** The shape of a red-black tree: an inductive tree over node identities, the
    contexts left behind by a descent, and the map of link fields that a shape
    prescribes for the nodes in it.  Nothing in this module reads the heap. */
module RedBlackShape {

  datatype Color = Black | Red

  datatype Side = Left | Right

  /** The fields that the tree macros link through, plus the search key, which
      nothing changes while a node is in a tree. */
  class Node {
    var left: Node?
    var right: Node?
    var parent: Node?
    var color: Color
    const key: int

    constructor (key: int)
      ensures this.key == key
    {
      this.key := key;
      left, right, parent, color := null, null, null, Black;
    }
  }

  datatype Tree = Leaf | Branch(color: Color, left: Tree, node: Node, right: Tree)

  /** A tree with one subtree missing: the hole is the `side` child of `node`,
      `other` is that node's remaining child, `up` is what surrounds the node. */
  datatype Ctx = Top | Hole(side: Side, color: Color, node: Node, other: Tree, up: Ctx)

  datatype Cell = Cell(left: Node?, right: Node?, parent: Node?, color: Color)

  type Store = map<Node, Cell>

  function Root(t: Tree): Node? {
    if t.Leaf? then null else t.node
  }

  predicate IsRed(t: Tree) {
    t.Branch? && t.color == Red
  }

  function Join(side: Side, color: Color, hole: Tree, node: Node, other: Tree): Tree {
    if side == Left then Branch(color, hole, node, other) else Branch(color, other, node, hole)
  }

  function Plug(ctx: Ctx, t: Tree): Tree {
    match ctx
    case Top => t
    case Hole(side, color, node, other, up) => Plug(up, Join(side, color, t, node, other))
  }

  function Above(ctx: Ctx): Node? {
    if ctx.Top? then null else ctx.node
  }

  // ---------- which nodes occur, and in which order ----------

  function Nodes(t: Tree): set<Node> {
    match t
    case Leaf => {}
    case Branch(_, l, x, r) => Nodes(l) + {x} + Nodes(r)
  }

  function CtxNodes(ctx: Ctx): set<Node> {
    match ctx
    case Top => {}
    case Hole(_, _, x, o, up) => {x} + Nodes(o) + CtxNodes(up)
  }

  predicate Distinct(t: Tree) {
    match t
    case Leaf => true
    case Branch(_, l, x, r) =>
      x !in Nodes(l) && x !in Nodes(r) && Nodes(l) !! Nodes(r) && Distinct(l) && Distinct(r)
  }

  predicate CtxDistinct(ctx: Ctx) {
    match ctx
    case Top => true
    case Hole(_, _, x, o, up) =>
      x !in Nodes(o) && Distinct(o) && x !in CtxNodes(up) && Nodes(o) !! CtxNodes(up) && CtxDistinct(up)
  }

  function Inorder(t: Tree): seq<Node> {
    match t
    case Leaf => []
    case Branch(_, l, x, r) => Inorder(l) + [x] + Inorder(r)
  }

  function Before(ctx: Ctx): seq<Node> {
    match ctx
    case Top => []
    case Hole(side, _, x, o, up) => if side == Left then Before(up) else Before(up) + Inorder(o) + [x]
  }

  function After(ctx: Ctx): seq<Node> {
    match ctx
    case Top => []
    case Hole(side, _, x, o, up) => if side == Left then [x] + Inorder(o) + After(up) else After(up)
  }

  lemma {:induction false} PlugNodes(ctx: Ctx, t: Tree)
    ensures Nodes(Plug(ctx, t)) == CtxNodes(ctx) + Nodes(t)
    ensures Distinct(Plug(ctx, t)) <==>
            CtxDistinct(ctx) && Distinct(t) && CtxNodes(ctx) !! Nodes(t)
  {
    match ctx
    case Top =>
    case Hole(side, color, node, other, up) =>
      PlugNodes(up, Join(side, color, t, node, other));
  }

  lemma Regroup(a: seq<Node>, b: seq<Node>, c: seq<Node>, d: seq<Node>, e: seq<Node>)
    ensures a + (b + c + d) + e == a + b + (c + d + e)
    ensures a + (b + c + d) + e == (a + b + c) + d + e
  {
  }

  lemma {:induction false} PlugInorder(ctx: Ctx, t: Tree)
    ensures Inorder(Plug(ctx, t)) == Before(ctx) + Inorder(t) + After(ctx)
  {
    match ctx
    case Top =>
    case Hole(Left, color, x, o, up) =>
      PlugInorder(up, Branch(color, t, x, o));
      Regroup(Before(up), Inorder(t), [x], Inorder(o), After(up));
    case Hole(Right, color, x, o, up) =>
      PlugInorder(up, Branch(color, o, x, t));
      Regroup(Before(up), Inorder(o), [x], Inorder(t), After(up));
  }

  lemma {:induction false} InorderHas(t: Tree, x: Node)
    ensures x in Inorder(t) <==> x in Nodes(t)
  {
    if t.Branch? {
      InorderHas(t.left, x);
      InorderHas(t.right, x);
    }
  }

  // ---------- the link fields a shape prescribes ----------

  predicate Embeds(t: Tree, parent: Node?, m: Store) {
    match t
    case Leaf => true
    case Branch(c, l, x, r) =>
      x in m && m[x] == Cell(Root(l), Root(r), parent, c) && Embeds(l, x, m) && Embeds(r, x, m)
  }

  function HoleCell(ctx: Ctx, child: Node?): Cell
    requires ctx.Hole?
  {
    if ctx.side == Left then Cell(child, Root(ctx.other), Above(ctx.up), ctx.color)
    else Cell(Root(ctx.other), child, Above(ctx.up), ctx.color)
  }

  predicate CtxEmbeds(ctx: Ctx, child: Node?, m: Store) {
    match ctx
    case Top => true
    case Hole(_, _, x, o, up) =>
      x in m && m[x] == HoleCell(ctx, child) && Embeds(o, x, m) && CtxEmbeds(up, x, m)
  }

  function CtxRoot(ctx: Ctx, child: Node?): Node? {
    if ctx.Top? then child else CtxRoot(ctx.up, ctx.node)
  }

  lemma {:induction false} PlugEmbeds(ctx: Ctx, t: Tree, m: Store)
    ensures Embeds(Plug(ctx, t), null, m) <==> CtxEmbeds(ctx, Root(t), m) && Embeds(t, Above(ctx), m)
    ensures Root(Plug(ctx, t)) == CtxRoot(ctx, Root(t))
  {
    match ctx
    case Top =>
    case Hole(side, color, node, other, up) =>
      PlugEmbeds(up, Join(side, color, t, node, other), m);
  }

  lemma {:induction false} CtxRootIn(ctx: Ctx, child: Node?)
    ensures ctx.Hole? ==> CtxRoot(ctx, child) != null && CtxRoot(ctx, child) in CtxNodes(ctx)
  {
    if ctx.Hole? {
      CtxRootIn(ctx.up, ctx.node);
    }
  }

  predicate Agree(m: Store, m': Store, s: set<Node>) {
    forall x :: x in s && x in m ==> x in m' && m'[x] == m[x]
  }

  lemma {:induction false} FrameTree(t: Tree, parent: Node?, m: Store, m': Store)
    requires Embeds(t, parent, m) && Agree(m, m', Nodes(t))
    ensures Embeds(t, parent, m')
  {
    if t.Branch? {
      FrameTree(t.left, t.node, m, m');
      FrameTree(t.right, t.node, m, m');
    }
  }

  /** Only the root of `t` has changed, and only in its parent field and colour. */
  lemma ReframeTree(t: Tree, parent: Node?, m: Store, m': Store)
    requires t.Branch? && Distinct(t)
    requires exists p :: Embeds(t, p, m)
    requires Agree(m, m', Nodes(t) - {t.node})
    requires t.node in m' && m'[t.node] == Cell(Root(t.left), Root(t.right), parent, t.color)
    ensures Embeds(t, parent, m')
  {
    FrameTree(t.left, t.node, m, m');
    FrameTree(t.right, t.node, m, m');
  }

  lemma {:induction false} FrameCtx(ctx: Ctx, child: Node?, m: Store, m': Store)
    requires CtxEmbeds(ctx, child, m) && Agree(m, m', CtxNodes(ctx))
    ensures CtxEmbeds(ctx, child, m')
  {
    if ctx.Hole? {
      FrameTree(ctx.other, ctx.node, m, m');
      FrameCtx(ctx.up, ctx.node, m, m');
    }
  }

  /** Hanging another child into the hole changes the link of one node only. */
  lemma ReframeCtx(ctx: Ctx, child: Node?, child': Node?, m: Store, m': Store)
    requires CtxDistinct(ctx) && CtxEmbeds(ctx, child, m)
    requires Agree(m, m', if ctx.Hole? then CtxNodes(ctx) - {ctx.node} else {})
    requires ctx.Hole? ==> ctx.node in m' && m'[ctx.node] == HoleCell(ctx, child')
    ensures CtxEmbeds(ctx, child', m')
  {
    if ctx.Hole? {
      FrameTree(ctx.other, ctx.node, m, m');
      FrameCtx(ctx.up, ctx.node, m, m');
    }
  }

  // ---------- nested contexts ----------

  function Append(inner: Ctx, outer: Ctx): Ctx {
    if inner.Top? then outer else inner.(up := Append(inner.up, outer))
  }

  lemma {:induction false} PlugAppend(inner: Ctx, outer: Ctx, t: Tree)
    ensures Plug(Append(inner, outer), t) == Plug(outer, Plug(inner, t))
    ensures Above(Append(inner, outer)) == if inner.Top? then Above(outer) else inner.node
  {
    if inner.Hole? {
      PlugAppend(inner.up, outer, Join(inner.side, inner.color, t, inner.node, inner.other));
    }
  }

  /** Every node of a tree can be brought into focus. */
  lemma {:induction false} Focus(up: Ctx, t: Tree, x: Node) returns (ctx: Ctx, sub: Tree)
    requires x in Nodes(t)
    ensures Plug(ctx, sub) == Plug(up, t) && sub.Branch? && sub.node == x
    decreases t
  {
    if x == t.node {
      ctx, sub := up, t;
    } else if x in Nodes(t.left) {
      ctx, sub := Focus(Hole(Left, t.color, t.node, t.right, up), t.left, x);
    } else {
      ctx, sub := Focus(Hole(Right, t.color, t.node, t.left, up), t.right, x);
    }
  }

  /** The context reached by following left links only. */
  predicate LeftSpine(ctx: Ctx) {
    ctx.Hole? ==> ctx.side == Left && LeftSpine(ctx.up)
  }

  predicate RightSpine(ctx: Ctx) {
    ctx.Hole? ==> ctx.side == Right && RightSpine(ctx.up)
  }

  lemma {:induction false} RightSpineAfter(ctx: Ctx)
    requires RightSpine(ctx)
    ensures After(ctx) == []
  {
    if ctx.Hole? {
      RightSpineAfter(ctx.up);
    }
  }

  lemma {:induction false} LeftSpineBefore(ctx: Ctx)
    requires LeftSpine(ctx)
    ensures Before(ctx) == []
  {
    if ctx.Hole? {
      LeftSpineBefore(ctx.up);
    }
  }

  function Without(s: seq<Node>, x: Node): seq<Node> {
    if s == [] then [] else if s[0] == x then s[1..] else [s[0]] + Without(s[1..], x)
  }

  lemma {:induction false} WithoutSplit(p: seq<Node>, x: Node, q: seq<Node>)
    requires x !in p
    ensures Without(p + [x] + q, x) == p + q
  {
    var s := p + [x] + q;
    if p == [] {
      assert s == [x] + q;
    } else {
      assert s[1..] == p[1..] + [x] + q;
      WithoutSplit(p[1..], x, q);
      assert [p[0]] + (p[1..] + q) == p + q;
    }
  }

  lemma {:induction false} BeforeHas(ctx: Ctx, x: Node)
    ensures x in Before(ctx) ==> x in CtxNodes(ctx)
  {
    if ctx.Hole? {
      BeforeHas(ctx.up, x);
      InorderHas(ctx.other, x);
    }
  }

  /** The in-order sequence without the focused node. */
  lemma WithoutFocus(ctx: Ctx, t: Tree)
    requires t.Branch? && Distinct(Plug(ctx, t))
    ensures Without(Inorder(Plug(ctx, t)), t.node) == (Before(ctx) + Inorder(t.left)) + (Inorder(t.right) + After(ctx))
  {
    assert t.node !in Before(ctx) + Inorder(t.left) by {
      PlugNodes(ctx, t);
      BeforeHas(ctx, t.node);
      InorderHas(t.left, t.node);
    }
    FocusInorder(ctx, t);
    WithoutSplit(Before(ctx) + Inorder(t.left), t.node, Inorder(t.right) + After(ctx));
  }

  lemma FocusInorder(ctx: Ctx, t: Tree)
    requires t.Branch?
    ensures Inorder(Plug(ctx, t)) == (Before(ctx) + Inorder(t.left)) + [t.node] + (Inorder(t.right) + After(ctx))
  {
    PlugInorder(ctx, t);
    Regroup(Before(ctx), Inorder(t.left), [t.node], Inorder(t.right), After(ctx));
    Regroup([], Before(ctx) + Inorder(t.left), [t.node], Inorder(t.right), After(ctx));
  }

  /** Taking a node with at most one child out leaves the other nodes in order. */
  lemma SpliceInorder(ctx: Ctx, side: Side, c: Color, x: Node, child: Tree)
    requires Distinct(Plug(ctx, Join(side, c, child, x, Leaf)))
    ensures Inorder(Plug(ctx, child)) == Without(Inorder(Plug(ctx, Join(side, c, child, x, Leaf))), x)
  {
    WithoutFocus(ctx, Join(side, c, child, x, Leaf));
    PlugInorder(ctx, child);
  }

  /** So does taking the first node `y` out of the right subtree of `x` and
      putting it into the place of `x`. */
  lemma SuccessorInorder(ctx: Ctx, c: Color, l: Tree, x: Node, spine: Ctx, yc: Color, y: Node, child: Tree)
    requires LeftSpine(spine)
    requires Distinct(Plug(ctx, Branch(c, l, x, Plug(spine, Branch(yc, Leaf, y, child)))))
    ensures Inorder(Plug(ctx, Branch(c, l, y, Plug(spine, child))))
         == Without(Inorder(Plug(ctx, Branch(c, l, x, Plug(spine, Branch(yc, Leaf, y, child))))), x)
  {
    var r, r' := Plug(spine, Branch(yc, Leaf, y, child)), Plug(spine, child);
    assert Inorder(r) == [y] + Inorder(r') by { SpineInorder(spine, yc, y, child); }
    WithoutFocus(ctx, Branch(c, l, x, r));
    FocusInorder(ctx, Branch(c, l, y, r'));
    Shift(Before(ctx) + Inorder(l), y, Inorder(r'), After(ctx));
  }

  lemma {:induction false} SpineInorder(spine: Ctx, yc: Color, y: Node, child: Tree)
    requires LeftSpine(spine)
    ensures Inorder(Plug(spine, Branch(yc, Leaf, y, child))) == [y] + Inorder(Plug(spine, child))
  {
    if spine.Hole? {
      LeftSpineBefore(spine);
      PlugInorder(spine, Branch(yc, Leaf, y, child));
      PlugInorder(spine, child);
    }
  }

  lemma Shift(a: seq<Node>, y: Node, b: seq<Node>, c: seq<Node>)
    ensures a + (([y] + b) + c) == a + [y] + (b + c)
  {
  }

  // ---------- neighbours in a sequence ----------

  function First(s: seq<Node>): Node? {
    if s == [] then null else s[0]
  }

  function Last(s: seq<Node>): Node? {
    if s == [] then null else s[|s| - 1]
  }

  /** The element behind the first occurrence of `x`. */
  function Following(s: seq<Node>, x: Node): Node? {
    if s == [] then null else if s[0] == x then First(s[1..]) else Following(s[1..], x)
  }

  /** The element before the first occurrence of `x`. */
  function Preceding(s: seq<Node>, x: Node): Node? {
    if |s| < 2 || s[0] == x then null else if s[1] == x then s[0] else Preceding(s[1..], x)
  }

  lemma {:induction false} NeighboursSplit(p: seq<Node>, x: Node, q: seq<Node>)
    requires x !in p
    ensures Following(p + [x] + q, x) == First(q)
    ensures Preceding(p + [x] + q, x) == Last(p)
  {
    var s := p + [x] + q;
    if p == [] {
      assert s[1..] == q;
    } else {
      assert s[1..] == p[1..] + [x] + q;
      NeighboursSplit(p[1..], x, q);
    }
  }

  lemma FocusNeighbours(ctx: Ctx, t: Tree)
    requires t.Branch? && Distinct(Plug(ctx, t))
    ensures Following(Inorder(Plug(ctx, t)), t.node) == First(Inorder(t.right) + After(ctx))
    ensures Preceding(Inorder(Plug(ctx, t)), t.node) == Last(Before(ctx) + Inorder(t.left))
  {
    assert t.node !in Before(ctx) + Inorder(t.left) by {
      PlugNodes(ctx, t);
      BeforeHas(ctx, t.node);
      InorderHas(t.left, t.node);
    }
    FocusInorder(ctx, t);
    NeighboursSplit(Before(ctx) + Inorder(t.left), t.node, Inorder(t.right) + After(ctx));
  }

  lemma SpineFirst(spine: Ctx, b: Tree)
    requires LeftSpine(spine) && b.Branch? && b.left == Leaf
    ensures First(Inorder(Plug(spine, b))) == b.node
  {
    SpineInorder(spine, b.color, b.node, b.right);
    assert b == Branch(b.color, Leaf, b.node, b.right);
  }

  lemma SpineLast(spine: Ctx, b: Tree)
    requires RightSpine(spine) && b.Branch? && b.right == Leaf
    ensures Last(Inorder(Plug(spine, b))) == b.node
  {
    RightSpineAfter(spine);
    FocusInorder(spine, b);
  }

  lemma NonEmpty(t: Tree)
    ensures t.Branch? ==> |Inorder(t)| > 0
  {
  }
}
