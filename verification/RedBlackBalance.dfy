/** The colouring rules of a red-black tree, stated on shapes and on contexts,
    and the height bound that follows from them. */
module RedBlackBalance {
  import opened RedBlackShape

  function BlackHeight(t: Tree): nat {
    if t.Leaf? then 0 else BlackHeight(t.left) + if t.color == Black then 1 else 0
  }

  /** Equal black height on both sides everywhere, and no red node under a red one. */
  predicate RedBlack(t: Tree) {
    t.Branch? ==>
      && BlackHeight(t.left) == BlackHeight(t.right)
      && (t.color == Red ==> !IsRed(t.left) && !IsRed(t.right))
      && RedBlack(t.left) && RedBlack(t.right)
  }

  /** A hole into which any red-black subtree of black height `h` may be plugged,
      provided its root is black unless `red` is allowed. */
  predicate Fits(ctx: Ctx, h: nat, red: bool) {
    ctx.Hole? ==>
      && RedBlack(ctx.other) && BlackHeight(ctx.other) == h
      && (ctx.color == Red ==> !red && !IsRed(ctx.other))
      && Fits(ctx.up, if ctx.color == Black then h + 1 else h, ctx.color == Red)
  }

  /** The outermost node, the root of the whole tree, is black. */
  predicate TopBlack(ctx: Ctx) {
    ctx.Hole? ==> if ctx.up.Top? then ctx.color == Black else TopBlack(ctx.up)
  }

  lemma {:induction false} PlugRedBlack(ctx: Ctx, t: Tree)
    ensures RedBlack(Plug(ctx, t)) <==> RedBlack(t) && Fits(ctx, BlackHeight(t), IsRed(t))
    ensures !IsRed(Plug(ctx, t)) <==> TopBlack(ctx) && (ctx.Top? ==> !IsRed(t))
  {
    match ctx
    case Top =>
    case Hole(side, color, node, other, up) =>
      PlugRedBlack(up, Join(side, color, t, node, other));
  }

  function Depth(ctx: Ctx): nat {
    if ctx.Top? then 0 else 1 + Depth(ctx.up)
  }

  /** Between two rounds of the insertion fix-up: the focused subtree is red and
      sound, and the rest is sound except that a red node may sit above it. */
  predicate RedAtFocus(ctx: Ctx, t: Tree) {
    IsRed(t) && RedBlack(t) && Fits(ctx, BlackHeight(t), false) && TopBlack(ctx)
  }

  function Opposite(side: Side): Side {
    if side == Left then Right else Left
  }

  lemma {:induction false} PaintedBalance(t: Tree)
    requires IsRed(t) && RedBlack(t)
    ensures RedBlack(t.(color := Black)) && BlackHeight(t.(color := Black)) == BlackHeight(t) + 1
  {
  }

  lemma {:induction false} RecolorBalance(ctx: Ctx, t: Tree)
    requires ctx.Hole? && ctx.color == Red && ctx.up.Hole? && IsRed(ctx.up.other) && RedAtFocus(ctx, t)
    ensures ctx.up.color == Black
    ensures RedAtFocus(ctx.up.up,
                       Join(ctx.up.side, Red, Join(ctx.side, Black, t, ctx.node, ctx.other), ctx.up.node,
                            ctx.up.other.(color := Black)))
  {
    var tp := Join(ctx.side, Black, t, ctx.node, ctx.other);
    assert Fits(ctx.up, BlackHeight(t), true);
    PaintedBalance(ctx.up.other);
    assert RedBlack(tp) && BlackHeight(tp) == BlackHeight(t) + 1;
    assert TopBlack(ctx.up);
  }

  /** The red pair (`a`, parent) has been split up below a black parent. */
  lemma {:induction false} RestructuredBalance(ctx: Ctx, side: Side, a: Tree, p: Node, b: Tree)
    requires ctx.Hole? && ctx.color == Red && ctx.up.Hole? && !IsRed(ctx.up.other)
    requires exists t :: RedAtFocus(ctx, t) && BlackHeight(t) == BlackHeight(a)
    requires IsRed(a) && RedBlack(a) && RedBlack(b) && !IsRed(b) && BlackHeight(b) == BlackHeight(a)
    ensures ctx.up.color == Black
    ensures RedAtFocus(Hole(side, Black, p, Join(side, Red, b, ctx.up.node, ctx.up.other), ctx.up.up), a)
    ensures RedAtFocus(Hole(side, Black, p, Join(Opposite(side), Red, b, ctx.up.node, ctx.up.other), ctx.up.up), a)
  {
    var h := BlackHeight(a);
    assert TopBlack(ctx.up);
    assert Fits(ctx.up, h, true);
    var r := Join(side, Red, b, ctx.up.node, ctx.up.other);
    var r' := Join(Opposite(side), Red, b, ctx.up.node, ctx.up.other);
    assert RedBlack(r) && BlackHeight(r) == h && RedBlack(r') && BlackHeight(r') == h;
  }

  function Blackened(t: Tree): Tree {
    if t.Branch? then t.(color := Black) else t
  }

  /** Between two rounds of the removal fix-up: everything is sound except that
      the focused subtree is one black node short, and its root may be red. */
  predicate ShortAtFocus(ctx: Ctx, t: Tree) {
    RedBlack(Blackened(t)) && Fits(ctx, BlackHeight(t) + 1, false) && TopBlack(ctx)
  }

  /** The fix-up loop never meets a missing sibling. */
  lemma {:induction false} SiblingExists(ctx: Ctx, t: Tree)
    requires ctx.Hole? && ShortAtFocus(ctx, t)
    ensures ctx.other.Branch?
    ensures IsRed(ctx.other) ==>
      && ctx.color == Black
      && ctx.other.left.Branch? && !IsRed(ctx.other.left) && ctx.other.right.Branch? && !IsRed(ctx.other.right)
  {
  }

  lemma {:induction false} UpIsTopBlack(ctx: Ctx)
    requires ctx.Hole? && TopBlack(ctx)
    ensures TopBlack(ctx.up) && (ctx.up.Top? ==> ctx.color == Black)
  {
  }

  /** A red sibling has been rotated above the parent; `near` is its child next to `t`. */
  lemma {:induction false} RedSiblingBalance(side: Side, t: Tree, p: Node, near: Tree, s: Node, far: Tree, up: Ctx)
    requires ShortAtFocus(Hole(side, Black, p, Join(side, Red, near, s, far), up), t)
    ensures ShortAtFocus(Hole(side, Red, p, near, Hole(side, Black, s, far, up)), t)
  {
    var ctx := Hole(side, Black, p, Join(side, Red, near, s, far), up);
    UpIsTopBlack(ctx);
    assert RedBlack(ctx.other);
    assert Fits(up, BlackHeight(t) + 2, false);
  }

  /** A black sibling without red children has been painted red. */
  lemma {:induction false} PaintSiblingBalance(ctx: Ctx, t: Tree)
    requires ctx.Hole? && ShortAtFocus(ctx, t) && !IsRed(t)
    requires ctx.other.Branch? && ctx.other.color == Black && !IsRed(ctx.other.left) && !IsRed(ctx.other.right)
    ensures ShortAtFocus(ctx.up, Join(ctx.side, ctx.color, t, ctx.node, ctx.other.(color := Red)))
  {
    UpIsTopBlack(ctx);
    var s := ctx.other.(color := Red);
    assert RedBlack(s) && BlackHeight(s) == BlackHeight(t);
    assert Fits(ctx.up, BlackHeight(t) + 1 + (if ctx.color == Black then 1 else 0), ctx.color == Red);
  }

  /** A black sibling with a red child on the far side has been rotated above the parent. */
  lemma {:induction false} LiftSiblingBalance(side: Side, c: Color, t: Tree, p: Node, near: Tree, s: Node, far: Tree,
      up: Ctx)
    requires ShortAtFocus(Hole(side, c, p, Join(side, Black, near, s, far), up), t) && !IsRed(t) && IsRed(far)
    ensures
      var shape := Plug(up, Join(side, c, Join(side, Black, t, p, near), s, far.(color := Black)));
      RedBlack(shape) && !IsRed(shape)
  {
    var ctx := Hole(side, c, p, Join(side, Black, near, s, far), up);
    var h := BlackHeight(t);
    UpIsTopBlack(ctx);
    assert RedBlack(ctx.other);
    PaintedBalance(far);
    var l := Join(side, Black, t, p, near);
    assert RedBlack(l) && BlackHeight(l) == h + 1;
    var j := Join(side, c, l, s, far.(color := Black));
    assert RedBlack(j) && BlackHeight(j) == h + 1 + (if c == Black then 1 else 0);
    PlugRedBlack(up, j);
  }

  /** The near child of the sibling was the red one: it takes the sibling's place. */
  lemma {:induction false} InnerBalance(side: Side, c: Color, t: Tree, p: Node, a: Tree, n: Node, b: Tree, s: Node,
      far: Tree, up: Ctx)
    requires ShortAtFocus(Hole(side, c, p, Join(side, Black, Join(side, Red, a, n, b), s, far), up), t) && !IsRed(far)
    ensures ShortAtFocus(Hole(side, c, p, Join(side, Black, a, n, Join(side, Red, b, s, far)), up), t)
  {
    var o := Join(side, Black, Join(side, Red, a, n, b), s, far);
    assert RedBlack(o) && RedBlack(Join(side, Red, a, n, b));
    var o' := Join(side, Black, a, n, Join(side, Red, b, s, far));
    assert RedBlack(Join(side, Red, b, s, far));
    assert RedBlack(o') && BlackHeight(o') == BlackHeight(o);
  }

  /** What the last line of the removal fix-up achieves once the loop has ended. */
  lemma {:induction false} MendBalance(ctx: Ctx, t: Tree)
    requires ShortAtFocus(ctx, t) && (IsRed(t) || ctx.Top?)
    ensures RedBlack(Plug(ctx, Blackened(t))) && !IsRed(Plug(ctx, Blackened(t)))
  {
    PlugRedBlack(ctx, Blackened(t));
  }

  /** Taking a node with at most one child out: what is left is sound when the
      node was red, and one black node short when it was black. */
  lemma {:induction false} SpliceBalance(ctx: Ctx, side: Side, c: Color, x: Node, child: Tree)
    requires
      var t := Plug(ctx, Join(side, c, child, x, Leaf));
      RedBlack(t) && !IsRed(t)
    ensures c == Red ==> RedBlack(Plug(ctx, child)) && !IsRed(Plug(ctx, child))
    ensures c == Black ==> ShortAtFocus(ctx, child)
  {
    PlugRedBlack(ctx, Join(side, c, child, x, Leaf));
    PlugRedBlack(ctx, child);
  }

  /** The colouring rules do not depend on which nodes carry the colours. */
  lemma {:induction false} RenamedFits(inner: Ctx, side: Side, c: Color, x: Node, y: Node, o: Tree, up: Ctx, h: nat,
      red: bool)
    ensures Fits(Append(inner, Hole(side, c, x, o, up)), h, red)
        <==> Fits(Append(inner, Hole(side, c, y, o, up)), h, red)
    ensures TopBlack(Append(inner, Hole(side, c, x, o, up))) <==> TopBlack(Append(inner, Hole(side, c, y, o, up)))
  {
    if inner.Hole? {
      RenamedFits(inner.up, side, c, x, y, o, up, if inner.color == Black then h + 1 else h, inner.color == Red);
    }
  }

  /** The same when the node that goes is the successor `y` of a node `x`
      above it, and `y` then takes the place and the colour of `x`. */
  lemma {:induction false} SuccessorBalance(ctx: Ctx, c: Color, l: Tree, x: Node, spine: Ctx, yc: Color, y: Node,
      child: Tree)
    requires
      var t := Plug(ctx, Branch(c, l, x, Plug(spine, Branch(yc, Leaf, y, child))));
      RedBlack(t) && !IsRed(t)
    ensures
      var inner, t' := Append(spine, Hole(Right, c, y, l, ctx)), Plug(ctx, Branch(c, l, y, Plug(spine, child)));
      && Plug(inner, child) == t'
      && (yc == Red ==> RedBlack(t') && !IsRed(t'))
      && (yc == Black ==> ShortAtFocus(inner, child))
  {
    var b := Branch(yc, Leaf, y, child);
    var outer, outer' := Hole(Right, c, x, l, ctx), Hole(Right, c, y, l, ctx);
    PlugAppend(spine, outer, b);
    PlugAppend(spine, outer', child);
    PlugRedBlack(Append(spine, outer), b);
    PlugRedBlack(Append(spine, outer'), child);
    RenamedFits(spine, Right, c, x, y, l, ctx, BlackHeight(b), yc == Red);
  }

  // ---------- height ----------

  function Max(a: nat, b: nat): nat {
    if a < b then b else a
  }

  function Height(t: Tree): nat {
    if t.Leaf? then 0 else 1 + Max(Height(t.left), Height(t.right))
  }

  function Pow2(n: nat): nat {
    if n == 0 then 1 else 2 * Pow2(n - 1)
  }

  lemma {:induction false} Pow2Grows(a: nat, b: nat)
    requires a <= b
    ensures 0 < Pow2(a) <= Pow2(b)
    decreases b
  {
    if 0 < a {
      Pow2Grows(a - 1, b - 1);
    } else if 0 < b {
      Pow2Grows(0, b - 1);
    }
  }

  lemma {:induction false} Pow2Double(n: nat)
    ensures Pow2(2 * n) == Pow2(n) * Pow2(n)
  {
    if 0 < n {
      Pow2Double(n - 1);
      assert Pow2(2 * n) == 4 * Pow2(2 * (n - 1));
    }
  }

  lemma {:induction false} HeightWithinBlackHeight(t: Tree)
    requires RedBlack(t)
    ensures Height(t) <= 2 * BlackHeight(t) + if IsRed(t) then 1 else 0
    ensures Pow2(BlackHeight(t)) <= |Inorder(t)| + 1
  {
    if t.Branch? {
      HeightWithinBlackHeight(t.left);
      HeightWithinBlackHeight(t.right);
    }
  }

  /** h <= 2 lg (n + 1), written without logarithms. */
  lemma HeightBound(t: Tree)
    requires RedBlack(t) && !IsRed(t)
    ensures Pow2(Height(t)) <= (|Inorder(t)| + 1) * (|Inorder(t)| + 1)
  {
    HeightWithinBlackHeight(t);
    Pow2Grows(Height(t), 2 * BlackHeight(t));
    Pow2Double(BlackHeight(t));
    Squares(Pow2(BlackHeight(t)), |Inorder(t)| + 1);
  }

  /** At most 2 lg (n + 1), with the logarithm taken away. */
  predicate Logarithmic(steps: nat, n: nat) {
    Pow2(steps) <= (n + 1) * (n + 1)
  }

  lemma StepsBound(t: Tree, steps: nat)
    requires RedBlack(t) && !IsRed(t) && steps <= Height(t)
    ensures Logarithmic(steps, |Inorder(t)|)
  {
    HeightBound(t);
    Pow2Grows(steps, Height(t));
  }

  lemma Squares(a: nat, b: nat)
    requires a <= b
    ensures a * a <= b * b
  {
    assert a * a <= a * b <= b * b;
  }
}
