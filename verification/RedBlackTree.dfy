/** The red-black tree of vtree.h: nodes linked in place by left, right and
    parent pointers.  Ghost arguments name the context and the subtree that the
    pointers of a step are looking at. */
module RedBlackTree {
  import opened RedBlackShape
  import opened RedBlackBalance
  import opened RedBlackLinks
  import opened RedBlackSearch

  /** Where the pieces are when the first node of the right subtree is taken
      out, and where they are after it has taken the place of the root of `t`. */
  lemma SuccessorPlaces(ctx: Ctx, t: Tree, spine: Ctx, b: Tree)
    requires t.Branch? && b.Branch? && t.right == Plug(spine, b) && Distinct(Plug(ctx, t))
    ensures
      var outer := Append(spine, Hole(Right, t.color, t.node, t.left, ctx));
      && Plug(ctx, t) == Plug(outer, b) && Above(outer) == (if spine.Top? then t.node else spine.node)
      && Plug(outer, b.right) == Plug(ctx, Branch(t.color, t.left, t.node, Plug(spine, b.right)))
    ensures
      var inner := Append(spine, Hole(Right, t.color, b.node, t.left, ctx));
      && Plug(ctx, Branch(t.color, t.left, b.node, Plug(spine, b.right))) == Plug(inner, b.right)
      && Above(inner) == (if spine.Top? then b.node else spine.node)
    ensures b.node != t.node && (spine.Hole? ==> spine.node != t.node)
  {
    var outer, inner := Hole(Right, t.color, t.node, t.left, ctx), Hole(Right, t.color, b.node, t.left, ctx);
    PlugAppend(spine, outer, b);
    PlugAppend(spine, outer, b.right);
    PlugAppend(spine, inner, b.right);
    assert b.node != t.node && (spine.Hole? ==> spine.node != t.node) by {
      PlugNodes(ctx, t);
      PlugNodes(spine, b);
    }
  }

  lemma SuccessorResult(ctx: Ctx, t: Tree, spine: Ctx, b: Tree)
    requires t.Branch? && b.Branch? && b.left == Leaf && t.right == Plug(spine, b) && LeftSpine(spine)
    requires Distinct(Plug(ctx, t)) && RedBlack(Plug(ctx, t)) && !IsRed(Plug(ctx, t))
    ensures
      var shape' := Plug(ctx, Branch(t.color, t.left, b.node, Plug(spine, b.right)));
      && Inorder(shape') == Without(Inorder(Plug(ctx, t)), t.node)
      && (b.color == Red ==> RedBlack(shape') && !IsRed(shape'))
      && (b.color == Black ==> ShortAtFocus(Append(spine, Hole(Right, t.color, b.node, t.left, ctx)), b.right))
  {
    assert t == Branch(t.color, t.left, t.node, Plug(spine, b)) && b == Branch(b.color, Leaf, b.node, b.right);
    SuccessorInorder(ctx, t.color, t.left, t.node, spine, b.color, b.node, b.right);
    SuccessorBalance(ctx, t.color, t.left, t.node, spine, b.color, b.node, b.right);
  }

  class RbTree {
    var root: Node?
    ghost var shape: Tree
    ghost var repr: set<Node>  // the linked nodes, between calls

    ghost predicate Linked()
      reads `root, `shape, Nodes(shape)
    {
      && Distinct(shape)
      && root == Root(shape)
      && Embeds(shape, null, Snapshot(Nodes(shape)))
    }

    ghost function Contents(): seq<Node>
      reads this
    {
      Inorder(shape)
    }

    /** The invariant of a red-black search tree: coherent links, the colouring
        rules, a black root, and strictly increasing keys from left to right. */
    ghost predicate Sound()
      reads `root, `shape, Nodes(shape)
    {
      Linked() && RedBlack(shape) && !IsRed(shape) && Sorted(Inorder(shape))
    }

    ghost predicate Valid()
      reads this, Nodes(shape)
    {
      Sound() && repr == Nodes(shape)
    }

    ghost method Seal()
      requires Sound()
      modifies `repr
      ensures Valid()
    {
      repr := Nodes(shape);
    }

    /** VRB_INIT. */
    /** Once the links are those of `t`. */
    ghost method Reshape(t: Tree)
      requires Distinct(t) && root == Root(t) && Embeds(t, null, Snapshot(Nodes(t)))
      modifies `shape
      ensures Linked() && shape == t
    {
      shape := t;
    }

    constructor ()
      ensures Valid() && Contents() == []
    {
      root := null;
      shape := Leaf;
      repr := {};
    }

    /** Makes the link that leads to `elm`, from its parent or from the head of
        the tree, lead to `child`. */
    method Replace(parent: Node?, elm: Node, child: Node?)
      modifies this`root, (if parent == null then {} else {parent})`left
      modifies (if parent == null then {} else {parent})`right
      ensures shape == old(shape)
      ensures root == if parent == null then child else old(root)
      ensures parent != null ==>
        && parent.left == (if old(parent.left) == elm then child else old(parent.left))
        && parent.right == (if old(parent.left) == elm then old(parent.right) else child)
    {
      if parent != null {
        if parent.left == elm {
          parent.left := child;
        } else {
          parent.right := child;
        }
      } else {
        root := child;
      }
    }

    static ghost predicate CanSpinLeft(elm: Node, s: set<Node>)
      reads s
    {
      && elm in s && elm.right != null && elm.right in s
      && (elm.right.left != null ==> elm.right.left in s)
      && (elm.parent != null ==> elm.parent in s)
      && elm.right != elm && elm.right.left != elm && elm.right.left != elm.right
      && elm.parent != elm && elm.parent != elm.right && (elm.parent != null ==> elm.parent != elm.right.left)
    }

    lemma HighLinks(ctx: Ctx, t: Tree)
      requires Linked() && shape == Plug(ctx, t) && t.Branch? && t.right.Branch?
      ensures CanSpinLeft(t.node, Nodes(shape))
      ensures t.node.right == t.right.node && t.node.right.left == Root(t.right.left) && t.node.parent == Above(ctx)
      ensures Root(shape) == CtxRoot(ctx, t.node)
    {
      HighView(ctx, t.color, t.left, t.node, t.right.left, t.right.color, t.right.node, t.right.right,
          Snapshot(Nodes(shape)));
    }

    /** The assignments of the left rotation. */
    method SpinLeft(elm: Node, ghost s: set<Node>) returns (tmp: Node)
      requires CanSpinLeft(elm, s)
      modifies `root, s`left, s`right, s`parent
      ensures tmp == old(elm.right) && shape == old(shape)
      ensures root == if old(elm.parent) == null then tmp else old(root)
      ensures SpunLeft(old(Snapshot(s)), Snapshot(s), elm, tmp, old(elm.right.left), old(elm.parent))
    {
      tmp := elm.right;
      elm.right := tmp.left;
      if elm.right != null {
        tmp.left.parent := elm;
      }
      tmp.parent := elm.parent;
      Replace(elm.parent, elm, tmp);
      tmp.left := elm;
      elm.parent := tmp;
    }

    method RotateLeft(elm: Node, ghost ctx: Ctx, ghost t: Tree) returns (tmp: Node)
      requires Linked() && shape == Plug(ctx, t)
      requires t.Branch? && t.node == elm && t.right.Branch?
      modifies this, Nodes(shape)`left, Nodes(shape)`right, Nodes(shape)`parent
      ensures Linked() && shape == Plug(ctx, RotatedLeft(t)) && tmp == t.right.node
      ensures Nodes(shape) == old(Nodes(shape)) && Inorder(shape) == old(Inorder(shape))
    {
      ghost var s, m := Nodes(shape), Snapshot(Nodes(shape));
      ghost var c, a, x, b := t.color, t.left, t.node, t.right.left;
      ghost var d, y, e := t.right.color, t.right.node, t.right.right;
      assert t == Branch(c, a, x, Branch(d, b, y, e));
      HighLinks(ctx, t);
      tmp := SpinLeft(elm, s);
      ghost var m' := Snapshot(s);
      RotateLeftResult(ctx, c, a, x, b, d, y, e, m, m');
      shape := Plug(ctx, RotatedLeft(t));
      assert Snapshot(s) == m';
    }

    static ghost predicate CanSpinRight(elm: Node, s: set<Node>)
      reads s
    {
      && elm in s && elm.left != null && elm.left in s
      && (elm.left.right != null ==> elm.left.right in s)
      && (elm.parent != null ==> elm.parent in s)
      && elm.left != elm && elm.left.right != elm && elm.left.right != elm.left
      && elm.parent != elm && elm.parent != elm.left && (elm.parent != null ==> elm.parent != elm.left.right)
    }

    lemma LowLinks(ctx: Ctx, t: Tree)
      requires Linked() && shape == Plug(ctx, t) && t.Branch? && t.left.Branch?
      ensures CanSpinRight(t.node, Nodes(shape))
      ensures t.node.left == t.left.node && t.node.left.right == Root(t.left.right) && t.node.parent == Above(ctx)
      ensures Root(shape) == CtxRoot(ctx, t.node)
    {
      LowView(ctx, t.left.color, t.left.left, t.left.node, t.left.right, t.color, t.node, t.right,
          Snapshot(Nodes(shape)));
    }

    /** The assignments of the right rotation. */
    method SpinRight(elm: Node, ghost s: set<Node>) returns (tmp: Node)
      requires CanSpinRight(elm, s)
      modifies `root, s`left, s`right, s`parent
      ensures tmp == old(elm.left) && shape == old(shape)
      ensures root == if old(elm.parent) == null then tmp else old(root)
      ensures SpunRight(old(Snapshot(s)), Snapshot(s), elm, tmp, old(elm.left.right), old(elm.parent))
    {
      tmp := elm.left;
      elm.left := tmp.right;
      if elm.left != null {
        tmp.right.parent := elm;
      }
      tmp.parent := elm.parent;
      Replace(elm.parent, elm, tmp);
      tmp.right := elm;
      elm.parent := tmp;
    }

    method RotateRight(elm: Node, ghost ctx: Ctx, ghost t: Tree) returns (tmp: Node)
      requires Linked() && shape == Plug(ctx, t)
      requires t.Branch? && t.node == elm && t.left.Branch?
      modifies this, Nodes(shape)`left, Nodes(shape)`right, Nodes(shape)`parent
      ensures Linked() && shape == Plug(ctx, RotatedRight(t)) && tmp == t.left.node
      ensures Nodes(shape) == old(Nodes(shape)) && Inorder(shape) == old(Inorder(shape))
    {
      ghost var s, m := Nodes(shape), Snapshot(Nodes(shape));
      ghost var c, a, x, b, d, y, e := t.left.color, t.left.left, t.left.node, t.left.right, t.color, t.node, t.right;
      assert t == Branch(d, Branch(c, a, x, b), y, e);
      LowLinks(ctx, t);
      tmp := SpinRight(elm, s);
      ghost var m' := Snapshot(s);
      RotateRightResult(ctx, c, a, x, b, d, y, e, m, m');
      shape := Plug(ctx, RotatedRight(t));
      assert Snapshot(s) == m';
    }

    /** VRB_COLOR(x) = c. */
    method Paint(x: Node, c: Color, ghost ctx: Ctx, ghost t: Tree)
      requires Linked() && shape == Plug(ctx, t) && t.Branch? && t.node == x
      modifies `shape, Nodes(shape)`color
      ensures Linked() && shape == Plug(ctx, t.(color := c))
      ensures Nodes(shape) == old(Nodes(shape)) && Inorder(shape) == old(Inorder(shape))
    {
      ghost var s, m := Nodes(shape), Snapshot(Nodes(shape));
      assert x in s by { PlugNodes(ctx, t); }
      x.color := c;
      ghost var m' := Snapshot(s);
      assert m' == m[x := m[x].(color := c)];
      PaintResult(ctx, t, c, m, m');
      shape := Plug(ctx, t.(color := c));
      assert Snapshot(s) == m';
    }

    /** What the fields of the focused node and of the node above it hold. */
    lemma View(ctx: Ctx, t: Tree)
      requires Linked() && shape == Plug(ctx, t)
      ensures t.Branch? ==>
        && t.node in Nodes(shape) && t.node.left == Root(t.left) && t.node.right == Root(t.right)
        && t.node.parent == Above(ctx) && t.node.color == t.color
      ensures ctx.Hole? ==>
        && ctx.node in Nodes(shape) && ctx.node.parent == Above(ctx.up) && ctx.node.color == ctx.color
        && (ctx.side == Left ==> ctx.node.left == Root(t) && ctx.node.right == Root(ctx.other))
        && (ctx.side == Right ==> ctx.node.left == Root(ctx.other) && ctx.node.right == Root(t))
      ensures ctx.Hole? && t.Branch? ==> Root(ctx.other) != t.node
      ensures ctx.Top? ==> root == Root(t)
    {
      PlugNodes(ctx, t);
      PlugEmbeds(ctx, t, Snapshot(Nodes(shape)));
    }

    /** The round of the insertion fix-up that meets a red uncle `tmp`. */
    method Recolor(parent: Node, gparent: Node, tmp: Node, ghost ctx: Ctx, ghost t: Tree)
      returns (ghost ctx': Ctx, ghost t': Tree)
      requires Linked() && shape == Plug(ctx, t) && RedAtFocus(ctx, t)
      requires ctx.Hole? && ctx.color == Red && ctx.up.Hole? && IsRed(ctx.up.other)
      requires ctx.node == parent && ctx.up.node == gparent && ctx.up.other.node == tmp
      modifies `shape, Nodes(shape)`color
      ensures Linked() && shape == Plug(ctx', t') && RedAtFocus(ctx', t')
      ensures t'.node == gparent && Depth(ctx') < Depth(ctx)
      ensures Nodes(shape) == old(Nodes(shape)) && Inorder(shape) == old(Inorder(shape))
    {
      ghost var s1, s2, g, u := ctx.side, ctx.up.side, ctx.up.node, ctx.up.other;
      ghost var tp, tp' := Join(s1, Red, t, parent, ctx.other), Join(s1, Black, t, parent, ctx.other);
      ghost var u' := u.(color := Black);
      ctx' := ctx.up.up;
      t' := Join(s2, Red, tp', g, u');
      RecolorBalance(ctx, t);
      Paint(tmp, Black, Hole(Opposite(s2), Black, g, tp, ctx'), u);
      Paint(parent, Black, Hole(s2, Black, g, u', ctx'), tp);
      Paint(gparent, Red, ctx', Join(s2, Black, tp', g, u'));
    }

    /** The two colour changes and the rotation that end the insertion fix-up
        when the red pair `t`, `parent` leans to the left. */
    method OuterRight(parent: Node, gparent: Node, ghost r: Color, ghost a: Tree, ghost b: Tree, ghost up: Ctx)
      requires up.Hole? && up.side == Left && up.node == gparent
      requires Linked() && shape == Plug(up, Branch(r, a, parent, b))
      modifies this, Nodes(shape)`left, Nodes(shape)`right, Nodes(shape)`parent, Nodes(shape)`color
      ensures Linked() && shape == Plug(up.up, Branch(Black, a, parent, Branch(Red, b, gparent, up.other)))
      ensures Nodes(shape) == old(Nodes(shape)) && Inorder(shape) == old(Inorder(shape))
    {
      Paint(parent, Black, up, Branch(r, a, parent, b));
      ghost var t := Branch(Black, a, parent, b);
      Paint(gparent, Red, up.up, Branch(up.color, t, gparent, up.other));
      var tmp := RotateRight(gparent, up.up, Branch(Red, t, gparent, up.other));
    }

    /** One round of the fix-up below a left-hand parent with a black uncle. */
    method RestructureLeft(elm0: Node, parent0: Node, gparent: Node, ghost ctx: Ctx, ghost t: Tree)
      returns (elm: Node, ghost ctx': Ctx, ghost t': Tree)
      requires Linked() && shape == Plug(ctx, t) && RedAtFocus(ctx, t)
      requires ctx.Hole? && ctx.color == Red && ctx.up.Hole? && ctx.up.side == Left && !IsRed(ctx.up.other)
      requires t.node == elm0 && ctx.node == parent0 && ctx.up.node == gparent
      modifies this, Nodes(shape)`left, Nodes(shape)`right, Nodes(shape)`parent, Nodes(shape)`color
      ensures Linked() && shape == Plug(ctx', t') && RedAtFocus(ctx', t')
      ensures t'.node == elm && Depth(ctx') < Depth(ctx)
      ensures Nodes(shape) == old(Nodes(shape)) && Inorder(shape) == old(Inorder(shape))
    {
      var parent;
      elm, parent := elm0, parent0;
      View(ctx, t);
      ghost var a, b, u, up := t, ctx.other, ctx.up.other, ctx.up.up;
      if parent.right == elm {
        var tmp := RotateLeft(parent, ctx.up, Branch(Red, ctx.other, parent, t));
        tmp := parent;
        parent := elm;
        elm := tmp;
        a, b := Branch(Red, ctx.other, elm, t.left), t.right;
      }
      RestructuredBalance(ctx, Left, a, parent, b);
      OuterRight(parent, gparent, Red, a, b, ctx.up);
      ctx', t' := Hole(Left, Black, parent, Branch(Red, b, gparent, u), up), a;
    }

    /** Mirror image of OuterRight, for a red pair that leans to the right. */
    method OuterLeft(parent: Node, gparent: Node, ghost r: Color, ghost a: Tree, ghost b: Tree, ghost up: Ctx)
      requires up.Hole? && up.side == Right && up.node == gparent
      requires Linked() && shape == Plug(up, Branch(r, b, parent, a))
      modifies this, Nodes(shape)`left, Nodes(shape)`right, Nodes(shape)`parent, Nodes(shape)`color
      ensures Linked() && shape == Plug(up.up, Branch(Black, Branch(Red, up.other, gparent, b), parent, a))
      ensures Nodes(shape) == old(Nodes(shape)) && Inorder(shape) == old(Inorder(shape))
    {
      Paint(parent, Black, up, Branch(r, b, parent, a));
      ghost var t := Branch(Black, b, parent, a);
      Paint(gparent, Red, up.up, Branch(up.color, up.other, gparent, t));
      var tmp := RotateLeft(gparent, up.up, Branch(Red, up.other, gparent, t));
    }

    /** Mirror image of RestructureLeft, below a right-hand parent. */
    method RestructureRight(elm0: Node, parent0: Node, gparent: Node, ghost ctx: Ctx, ghost t: Tree)
      returns (elm: Node, ghost ctx': Ctx, ghost t': Tree)
      requires Linked() && shape == Plug(ctx, t) && RedAtFocus(ctx, t)
      requires ctx.Hole? && ctx.color == Red && ctx.up.Hole? && ctx.up.side == Right && !IsRed(ctx.up.other)
      requires t.node == elm0 && ctx.node == parent0 && ctx.up.node == gparent
      modifies this, Nodes(shape)`left, Nodes(shape)`right, Nodes(shape)`parent, Nodes(shape)`color
      ensures Linked() && shape == Plug(ctx', t') && RedAtFocus(ctx', t')
      ensures t'.node == elm && Depth(ctx') < Depth(ctx)
      ensures Nodes(shape) == old(Nodes(shape)) && Inorder(shape) == old(Inorder(shape))
    {
      var parent;
      elm, parent := elm0, parent0;
      View(ctx, t);
      ghost var a, b, u, up := t, ctx.other, ctx.up.other, ctx.up.up;
      if parent.left == elm {
        var tmp := RotateRight(parent, ctx.up, Branch(Red, t, parent, ctx.other));
        tmp := parent;
        parent := elm;
        elm := tmp;
        a, b := Branch(Red, t.right, elm, ctx.other), t.left;
      }
      RestructuredBalance(ctx, Right, a, parent, b);
      OuterLeft(parent, gparent, Red, a, b, ctx.up);
      ctx', t' := Hole(Right, Black, parent, Branch(Red, u, gparent, b), up), a;
    }

    /** One round of VRB_INSERT_COLOR, for a red node below a red parent. */
    method FixRound(elm0: Node, parent: Node, ghost ctx0: Ctx, ghost t0: Tree)
      returns (elm: Node, ghost ctx: Ctx, ghost t: Tree)
      requires Linked() && shape == Plug(ctx0, t0) && RedAtFocus(ctx0, t0) && t0.node == elm0
      requires ctx0.Hole? && ctx0.color == Red && ctx0.node == parent && parent == elm0.parent
      modifies this, Nodes(shape)`left, Nodes(shape)`right, Nodes(shape)`parent, Nodes(shape)`color
      ensures Linked() && shape == Plug(ctx, t) && RedAtFocus(ctx, t) && t.node == elm && Depth(ctx) < Depth(ctx0)
      ensures Nodes(shape) == old(Nodes(shape)) && Inorder(shape) == old(Inorder(shape))
    {
      View(ctx0.up, Join(ctx0.side, Red, t0, parent, ctx0.other));
      var gparent: Node := parent.parent;
      ViewOther(ctx0.up, Join(ctx0.side, Red, t0, parent, ctx0.other));
      if parent == gparent.left {
        var tmp := gparent.right;
        if tmp != null && tmp.color == Red {
          ctx, t := Recolor(parent, gparent, tmp, ctx0, t0);
          elm := gparent;
        } else {
          elm, ctx, t := RestructureLeft(elm0, parent, gparent, ctx0, t0);
        }
      } else {
        var tmp := gparent.left;
        if tmp != null && tmp.color == Red {
          ctx, t := Recolor(parent, gparent, tmp, ctx0, t0);
          elm := gparent;
        } else {
          elm, ctx, t := RestructureRight(elm0, parent, gparent, ctx0, t0);
        }
      }
    }

    /** VRB_INSERT_COLOR: restores the colouring rules after the red node `elm0`
        has been linked in. */
    method InsertColor(elm0: Node, ghost ctx0: Ctx, ghost t0: Tree)
      requires Linked() && shape == Plug(ctx0, t0) && RedAtFocus(ctx0, t0) && t0.node == elm0
      modifies this, Nodes(shape)`left, Nodes(shape)`right, Nodes(shape)`parent, Nodes(shape)`color
      ensures Linked() && RedBlack(shape) && !IsRed(shape)
      ensures Nodes(shape) == old(Nodes(shape)) && Inorder(shape) == old(Inorder(shape))
    {
      var elm := elm0;
      ghost var ctx, t := ctx0, t0;
      View(ctx, t);
      while elm.parent != null && elm.parent.color == Red
        invariant Linked() && shape == Plug(ctx, t) && RedAtFocus(ctx, t) && t.node == elm
        invariant elm.parent == Above(ctx) && (ctx.Hole? ==> ctx.node.color == ctx.color)
        invariant Nodes(shape) == old(Nodes(shape)) && Inorder(shape) == old(Inorder(shape))
        decreases Depth(ctx)
      {
        elm, ctx, t := FixRound(elm, elm.parent, ctx, t);
        View(ctx, t);
      }
      PlugRedBlack(ctx, t);
      View(Top, shape);
      Paint(root, Black, Top, shape);
    }

    /** The colour stored in the sibling of the focused subtree. */
    lemma ViewOther(ctx: Ctx, t: Tree)
      requires Linked() && shape == Plug(ctx, t) && ctx.Hole?
      ensures ctx.other.Branch? ==>
        && ctx.other.node in Nodes(shape) && ctx.other.node.color == ctx.other.color
        && ctx.other.node.left == Root(ctx.other.left) && ctx.other.node.right == Root(ctx.other.right)
    {
      View(Hole(Opposite(ctx.side), ctx.color, ctx.node, t, ctx.up), ctx.other);
    }

    /** A descent for `k` stands at `tmp`: everything to its left is below `k`,
        everything to its right is above. */
    ghost predicate Searching(ctx: Ctx, t: Tree, tmp: Node?, k: int)
      reads this, Nodes(shape)
    {
      Sound() && shape == Plug(ctx, t) && tmp == Root(t) && Bracketed(ctx, k)
    }

    lemma SearchLeft(ctx: Ctx, t: Tree, tmp: Node, k: int)
      requires Searching(ctx, t, tmp, k) && k < tmp.key
      ensures Searching(Hole(Left, t.color, t.node, t.right, ctx), t.left, tmp.left, k)
      ensures After(Hole(Left, t.color, t.node, t.right, ctx))[0] == tmp
      ensures Height(t.left) < Height(t)
    {
      View(ctx, t);
      DescendLeft(ctx, t, k);
    }

    lemma SearchRight(ctx: Ctx, t: Tree, tmp: Node, k: int)
      requires Searching(ctx, t, tmp, k) && tmp.key < k
      ensures Searching(Hole(Right, t.color, t.node, t.left, ctx), t.right, tmp.right, k)
      ensures After(Hole(Right, t.color, t.node, t.left, ctx)) == After(ctx)
      ensures Height(t.right) < Height(t)
    {
      View(ctx, t);
      DescendRight(ctx, t, k);
    }

    lemma SearchHit(ctx: Ctx, t: Tree, tmp: Node)
      requires Searching(ctx, t, tmp, tmp.key)
      ensures Scan(Contents(), tmp.key) == tmp && Height(t) > 0
    {
      ScanHit(ctx, t);
    }

    lemma SearchMiss(ctx: Ctx, t: Tree, k: int)
      requires Searching(ctx, t, null, k)
      ensures t == Leaf && Contents() == Before(ctx) + After(ctx) && Rank(Contents(), k) == |Before(ctx)|
      ensures Scan(Contents(), k) == if After(ctx) == [] then null else After(ctx)[0]
      ensures Scan(Contents(), k) != null ==> Scan(Contents(), k).key != k
    {
      ScanMiss(ctx, k);
    }

    /** VRB_FIND. */
    method Find(k: int) returns (r: Node?, ghost steps: nat)
      requires Valid()
      ensures Valid()
      ensures r == if Scan(Contents(), k) != null && Scan(Contents(), k).key == k then Scan(Contents(), k) else null
      ensures Logarithmic(steps, |Contents()|)
    {
      var tmp := root;
      ghost var ctx, t := Top, shape;
      steps := 0;
      while tmp != null
        invariant Searching(ctx, t, tmp, k)
        invariant steps + Height(t) <= Height(shape)
        decreases Height(t)
      {
        steps := steps + 1;
        if k < tmp.key {
          SearchLeft(ctx, t, tmp, k);
          tmp := tmp.left;
          ctx, t := Hole(Left, t.color, t.node, t.right, ctx), t.left;
        } else if tmp.key < k {
          SearchRight(ctx, t, tmp, k);
          tmp := tmp.right;
          ctx, t := Hole(Right, t.color, t.node, t.left, ctx), t.right;
        } else {
          SearchHit(ctx, t, tmp);
          StepsBound(shape, steps);
          return tmp, steps;
        }
      }
      SearchMiss(ctx, t, k);
      StepsBound(shape, steps);
      return null, steps;
    }

    /** VRB_NFIND. */
    method NFind(k: int) returns (r: Node?, ghost steps: nat)
      requires Valid()
      ensures Valid()
      ensures r == Scan(Contents(), k)
      ensures Logarithmic(steps, |Contents()|)
    {
      var tmp := root;
      r := null;
      ghost var ctx, t := Top, shape;
      steps := 0;
      while tmp != null
        invariant Searching(ctx, t, tmp, k)
        invariant r == if After(ctx) == [] then null else After(ctx)[0]
        invariant steps + Height(t) <= Height(shape)
        decreases Height(t)
      {
        steps := steps + 1;
        if k < tmp.key {
          SearchLeft(ctx, t, tmp, k);
          r := tmp;
          tmp := tmp.left;
          ctx, t := Hole(Left, t.color, t.node, t.right, ctx), t.left;
        } else if tmp.key < k {
          SearchRight(ctx, t, tmp, k);
          tmp := tmp.right;
          ctx, t := Hole(Right, t.color, t.node, t.left, ctx), t.right;
        } else {
          SearchHit(ctx, t, tmp);
          StepsBound(shape, steps);
          return tmp, steps;
        }
      }
      SearchMiss(ctx, t, k);
      StepsBound(shape, steps);
    }

    /** The assignments that make `elm` a child of `parent`. */
    method Hang(elm: Node, parent: Node?, comp: int)
      modifies this`root, (if parent == null then {} else {parent})`left
      modifies (if parent == null then {} else {parent})`right
      ensures root == if parent == null then elm else old(root)
      ensures parent != null ==>
        && parent.left == (if comp < 0 then elm else old(parent.left))
        && parent.right == (if comp < 0 then old(parent.right) else elm)
    {
      if parent != null {
        if comp < 0 {
          parent.left := elm;
        } else {
          parent.right := elm;
        }
      } else {
        root := elm;
      }
    }

    /** VRB_SET, then linking. */
    method SetAndHang(elm: Node, parent: Node?, comp: int, ghost s: set<Node>)
      requires elm !in s && (parent != null ==> parent in s)
      modifies `root, elm`left, elm`right, elm`parent, elm`color, s`left, s`right
      ensures root == (if parent == null then elm else old(root)) && shape == old(shape)
      ensures Hung(old(Snapshot(s)), Snapshot(s + {elm}), elm, parent, comp < 0)
    {
      elm.parent := parent;
      elm.left, elm.right := null, null;
      elm.color := Red;
      Hang(elm, parent, comp);
    }

    method LinkLeaf(elm: Node, parent: Node?, comp: int, ghost ctx: Ctx)
      requires Linked() && shape == Plug(ctx, Leaf) && elm !in Nodes(shape)
      requires parent == Above(ctx) && (ctx.Hole? ==> (ctx.side == Left <==> comp < 0))
      modifies this, elm`left, elm`right, elm`parent, elm`color, Nodes(shape)`left, Nodes(shape)`right
      ensures Linked() && shape == Plug(ctx, Branch(Red, Leaf, elm, Leaf))
      ensures Nodes(shape) == old(Nodes(shape)) + {elm} && Contents() == Before(ctx) + [elm] + After(ctx)
    {
      ghost var s, m := Nodes(shape), Snapshot(Nodes(shape));
      View(ctx, Leaf);
      assert root == CtxRoot(ctx, null) by { PlugEmbeds(ctx, Leaf, m); }
      SetAndHang(elm, parent, comp, s);
      ghost var m' := Snapshot(s + {elm});
      LinkResult(ctx, elm, m, m');
      Reshape(Plug(ctx, Branch(Red, Leaf, elm, Leaf)));
    }

    /** The descent of VRB_INSERT. */
    method Slot(k: int) returns (found: Node?, parent: Node?, comp: int, ghost ctx: Ctx, ghost steps: nat)
      requires Valid()
      ensures Valid() && Logarithmic(steps, |Contents()|)
      ensures found != null ==> found.key == k && found == Scan(Contents(), k)
      ensures found == null ==>
        && Searching(ctx, Leaf, null, k)
        && parent == Above(ctx) && (ctx.Hole? ==> (ctx.side == Left <==> comp < 0))
    {
      found := root;
      parent, comp := null, 0;
      ctx, steps := Top, 0;
      ghost var t := shape;
      while found != null
        invariant Searching(ctx, t, found, k)
        invariant parent == Above(ctx) && (ctx.Hole? ==> (ctx.side == Left <==> comp < 0))
        invariant steps + Height(t) <= Height(shape)
        decreases Height(t)
      {
        steps := steps + 1;
        parent := found;
        comp := k - parent.key;
        if comp < 0 {
          SearchLeft(ctx, t, found, k);
          found := found.left;
          ctx, t := Hole(Left, t.color, t.node, t.right, ctx), t.left;
        } else if comp > 0 {
          SearchRight(ctx, t, found, k);
          found := found.right;
          ctx, t := Hole(Right, t.color, t.node, t.left, ctx), t.right;
        } else {
          SearchHit(ctx, t, found);
          StepsBound(shape, steps);
          return;
        }
      }
      StepsBound(shape, steps);
    }

    method Attach(elm: Node, parent: Node?, comp: int, ghost ctx: Ctx)
      requires Searching(ctx, Leaf, null, elm.key) && elm !in Nodes(shape)
      requires parent == Above(ctx) && (ctx.Hole? ==> (ctx.side == Left <==> comp < 0))
      modifies this, elm`left, elm`right, elm`parent, elm`color
      modifies Nodes(shape)`left, Nodes(shape)`right, Nodes(shape)`parent, Nodes(shape)`color
      ensures Sound() && Contents() == Before(ctx) + [elm] + After(ctx)
      ensures Nodes(shape) == old(Nodes(shape)) + {elm}
    {
      ghost var s := Before(ctx) + [elm] + After(ctx);
      SearchMiss(ctx, Leaf, elm.key);
      assert Sorted(s) by { InsertSorted(Before(ctx), elm, After(ctx)); }
      assert RedAtFocus(ctx, Branch(Red, Leaf, elm, Leaf)) by { PlugRedBlack(ctx, Leaf); }
      LinkLeaf(elm, parent, comp, ctx);
      InsertColor(elm, ctx, Branch(Red, Leaf, elm, Leaf));
    }

    /** A node whose key the descent does not meet is not linked. */
    lemma Unlinked(ctx: Ctx, elm: Node)
      requires Searching(ctx, Leaf, null, elm.key)
      ensures elm !in Nodes(shape)
    {
      SearchMiss(ctx, Leaf, elm.key);
      InorderHas(shape, elm);
      assert elm !in Before(ctx) && elm !in After(ctx);
    }

    /** VRB_INSERT: returns the node that already has the key, which may be `elm`
        itself, or null after adding `elm` at its place in the order. */
    method Insert(elm: Node) returns (r: Node?, ghost steps: nat)
      requires Valid()
      modifies this, elm`left, elm`right, elm`parent, elm`color
      modifies Nodes(shape)`left, Nodes(shape)`right, Nodes(shape)`parent, Nodes(shape)`color
      ensures Valid()
      ensures var s, i := old(Contents()), Rank(old(Contents()), elm.key);
        if i < |s| && s[i].key == elm.key
        then r == s[i] && shape == old(shape) && unchanged(elm)
        else r == null && Contents() == s[..i] + [elm] + s[i..] && Nodes(shape) == old(Nodes(shape)) + {elm}
      ensures Logarithmic(steps, |old(Contents())|)
    {
      var parent, comp;
      ghost var ctx;
      r, parent, comp, ctx, steps := Slot(elm.key);
      if r != null {
        return;
      }
      SearchMiss(ctx, Leaf, elm.key);
      Unlinked(ctx, elm);
      Attach(elm, parent, comp, ctx);
      Seal();
    }

    /** The children of the sibling of the focused subtree. */
    lemma Nephews(ctx: Ctx, t: Tree)
      requires Linked() && shape == Plug(ctx, t) && ctx.Hole? && ctx.other.Branch?
      ensures var s := ctx.other;
        && s.node.left == Root(s.left) && s.node.right == Root(s.right)
        && (s.left.Branch? ==> s.left.node.color == s.left.color)
        && (s.right.Branch? ==> s.right.node.color == s.right.color)
    {
      var s := ctx.other;
      var out := Hole(Opposite(ctx.side), ctx.color, ctx.node, t, ctx.up);
      View(Hole(Left, s.color, s.node, s.right, out), s.left);
      View(Hole(Right, s.color, s.node, s.left, out), s.right);
    }

    /** A red sibling: swap its colour with the parent's and rotate it up. */
    method RaiseRedLeft(parent: Node, tmp0: Node, ghost ctx: Ctx, ghost t: Tree) returns (tmp: Node, ghost ctx': Ctx)
      requires Linked() && shape == Plug(ctx, t) && ShortAtFocus(ctx, t)
      requires ctx.Hole? && ctx.side == Left && IsRed(ctx.other) && ctx.node == parent && ctx.other.node == tmp0
      modifies this, Nodes(shape)`left, Nodes(shape)`right, Nodes(shape)`parent, Nodes(shape)`color
      ensures Linked() && shape == Plug(ctx', t) && ShortAtFocus(ctx', t)
      ensures ctx'.Hole? && ctx'.side == Left && ctx'.node == parent && ctx'.color == Red
      ensures ctx'.other.Branch? && !IsRed(ctx'.other) && ctx'.other.node == tmp
      ensures Nodes(shape) == old(Nodes(shape)) && Inorder(shape) == old(Inorder(shape))
    {
      ghost var s, up := ctx.other, ctx.up;
      ghost var s' := s.(color := Black);
      SiblingExists(ctx, t);
      RedSiblingBalance(Left, t, parent, s.left, s.node, s.right, up);
      Paint(tmp0, Black, Hole(Right, Black, parent, t, up), s);
      Paint(parent, Red, up, Branch(Black, t, parent, s'));
      tmp := RotateLeft(parent, up, Branch(Red, t, parent, s'));
      ctx' := Hole(Left, Red, parent, s.left, Hole(Left, Black, s.node, s.right, up));
      View(ctx', t);
      tmp := parent.right;
    }

    /** The near child of the sibling is the red one: rotate it into the sibling's place. */
    method RaiseNearLeft(parent: Node, tmp0: Node, ghost ctx: Ctx, ghost t: Tree) returns (tmp: Node, ghost ctx': Ctx)
      requires Linked() && shape == Plug(ctx, t) && ShortAtFocus(ctx, t)
      requires ctx.Hole? && ctx.side == Left && ctx.node == parent
      requires ctx.other.Branch? && ctx.other.node == tmp0 && !IsRed(ctx.other)
      requires IsRed(ctx.other.left) && !IsRed(ctx.other.right)
      modifies this, Nodes(shape)`left, Nodes(shape)`right, Nodes(shape)`parent, Nodes(shape)`color
      ensures Linked() && shape == Plug(ctx', t) && ShortAtFocus(ctx', t)
      ensures ctx'.Hole? && ctx'.side == Left && ctx'.node == parent && ctx'.color == ctx.color
      ensures ctx'.other.Branch? && ctx'.other.node == tmp && !IsRed(ctx'.other) && IsRed(ctx'.other.right)
      ensures Nodes(shape) == old(Nodes(shape)) && Inorder(shape) == old(Inorder(shape))
    {
      ghost var s, n, up := ctx.other, ctx.other.left, ctx.up;
      ghost var n' := n.(color := Black);
      ghost var out := Hole(Right, ctx.color, parent, t, up);
      InnerBalance(Left, ctx.color, t, parent, n.left, n.node, n.right, s.node, s.right, up);
      Nephews(ctx, t);
      var oleft := tmp0.left;
      if oleft != null {
        Paint(oleft, Black, Hole(Left, Black, tmp0, s.right, out), n);
      }
      Paint(tmp0, Red, out, Branch(Black, n', tmp0, s.right));
      oleft := RotateRight(tmp0, out, Branch(Red, n', tmp0, s.right));
      ctx' := Hole(Left, ctx.color, parent, Branch(Black, n.left, n.node, Branch(Red, n.right, tmp0, s.right)), up);
      View(ctx', t);
      tmp := parent.right;
    }

    /** The far child of the sibling is red: one more rotation ends the fix-up. */
    method RaiseFarLeft(parent: Node, tmp: Node, ghost ctx: Ctx, ghost t: Tree)
      requires Linked() && shape == Plug(ctx, t) && ShortAtFocus(ctx, t) && !IsRed(t)
      requires ctx.Hole? && ctx.side == Left && ctx.node == parent
      requires ctx.other.Branch? && ctx.other.node == tmp && !IsRed(ctx.other) && IsRed(ctx.other.right)
      modifies this, Nodes(shape)`left, Nodes(shape)`right, Nodes(shape)`parent, Nodes(shape)`color
      ensures Linked() && RedBlack(shape) && !IsRed(shape)
      ensures Nodes(shape) == old(Nodes(shape)) && Inorder(shape) == old(Inorder(shape))
    {
      ghost var c, s, far, up := ctx.color, ctx.other, ctx.other.right, ctx.up;
      ghost var far' := far.(color := Black);
      LiftSiblingBalance(Left, c, t, parent, s.left, tmp, far, up);
      View(ctx, t);
      Paint(tmp, parent.color, Hole(Right, c, parent, t, up), s);
      Paint(parent, Black, up, Branch(c, t, parent, s.(color := c)));
      ViewOther(Hole(Left, Black, parent, s.(color := c), up), t);
      if tmp.right != null {
        Paint(tmp.right, Black, Hole(Right, c, tmp, s.left, Hole(Right, Black, parent, t, up)), far);
      }
      var tmp' := RotateLeft(parent, up, Branch(Black, t, parent, Branch(c, s.left, tmp, far')));
    }

    /** One round of the removal fix-up for a short left-hand subtree.  `done`
        stands for the break that leaves the loop with `elm` at the root. */
    method RoundLeft(elm0: Node?, parent0: Node, ghost ctx0: Ctx, ghost t0: Tree)
      returns (done: bool, elm: Node?, parent: Node?, ghost ctx: Ctx, ghost t: Tree)
      requires Linked() && shape == Plug(ctx0, t0) && ShortAtFocus(ctx0, t0) && !IsRed(t0)
      requires ctx0.Hole? && ctx0.side == Left && ctx0.node == parent0 && Root(t0) == elm0
      modifies this, Nodes(shape)`left, Nodes(shape)`right, Nodes(shape)`parent, Nodes(shape)`color
      ensures Linked() && Nodes(shape) == old(Nodes(shape)) && Inorder(shape) == old(Inorder(shape))
      ensures done ==> RedBlack(shape) && !IsRed(shape) && elm == root
      ensures !done ==>
        && shape == Plug(ctx, t) && ShortAtFocus(ctx, t) && elm == Root(t) && parent == Above(ctx)
        && (IsRed(t) || Depth(ctx) < Depth(ctx0))
    {
      ctx, t, elm, parent := ctx0, t0, elm0, parent0;
      SiblingExists(ctx, t);
      View(ctx, t);
      ViewOther(ctx, t);
      var tmp: Node := parent.right;
      if tmp.color == Red {
        tmp, ctx := RaiseRedLeft(parent, tmp, ctx, t);
      }
      Nephews(ctx, t);
      if (tmp.left == null || tmp.left.color == Black) && (tmp.right == null || tmp.right.color == Black) {
        PaintSiblingBalance(ctx, t);
        Paint(tmp, Red, Hole(Right, ctx.color, parent, t, ctx.up), ctx.other);
        elm := parent;
        t := Branch(ctx.color, t, parent, ctx.other.(color := Red));
        ctx := ctx.up;
        View(ctx, t);
        parent := elm.parent;
        done := false;
      } else {
        if tmp.right == null || tmp.right.color == Black {
          tmp, ctx := RaiseNearLeft(parent, tmp, ctx, t);
        }
        RaiseFarLeft(parent, tmp, ctx, t);
        elm := root;
        done := true;
      }
    }

    // The mirror images, for a short right-hand subtree.

    method RaiseRedRight(parent: Node, tmp0: Node, ghost ctx: Ctx, ghost t: Tree) returns (tmp: Node, ghost ctx': Ctx)
      requires Linked() && shape == Plug(ctx, t) && ShortAtFocus(ctx, t)
      requires ctx.Hole? && ctx.side == Right && IsRed(ctx.other) && ctx.node == parent && ctx.other.node == tmp0
      modifies this, Nodes(shape)`right, Nodes(shape)`left, Nodes(shape)`parent, Nodes(shape)`color
      ensures Linked() && shape == Plug(ctx', t) && ShortAtFocus(ctx', t)
      ensures ctx'.Hole? && ctx'.side == Right && ctx'.node == parent && ctx'.color == Red
      ensures ctx'.other.Branch? && !IsRed(ctx'.other) && ctx'.other.node == tmp
      ensures Nodes(shape) == old(Nodes(shape)) && Inorder(shape) == old(Inorder(shape))
    {
      ghost var s, up := ctx.other, ctx.up;
      ghost var s' := s.(color := Black);
      SiblingExists(ctx, t);
      RedSiblingBalance(Right, t, parent, s.right, s.node, s.left, up);
      Paint(tmp0, Black, Hole(Left, Black, parent, t, up), s);
      Paint(parent, Red, up, Branch(Black, s', parent, t));
      tmp := RotateRight(parent, up, Branch(Red, s', parent, t));
      ctx' := Hole(Right, Red, parent, s.right, Hole(Right, Black, s.node, s.left, up));
      View(ctx', t);
      tmp := parent.left;
    }

    method RaiseNearRight(parent: Node, tmp0: Node, ghost ctx: Ctx, ghost t: Tree) returns (tmp: Node, ghost ctx': Ctx)
      requires Linked() && shape == Plug(ctx, t) && ShortAtFocus(ctx, t)
      requires ctx.Hole? && ctx.side == Right && ctx.node == parent
      requires ctx.other.Branch? && ctx.other.node == tmp0 && !IsRed(ctx.other)
      requires IsRed(ctx.other.right) && !IsRed(ctx.other.left)
      modifies this, Nodes(shape)`right, Nodes(shape)`left, Nodes(shape)`parent, Nodes(shape)`color
      ensures Linked() && shape == Plug(ctx', t) && ShortAtFocus(ctx', t)
      ensures ctx'.Hole? && ctx'.side == Right && ctx'.node == parent && ctx'.color == ctx.color
      ensures ctx'.other.Branch? && ctx'.other.node == tmp && !IsRed(ctx'.other) && IsRed(ctx'.other.left)
      ensures Nodes(shape) == old(Nodes(shape)) && Inorder(shape) == old(Inorder(shape))
    {
      ghost var s, n, up := ctx.other, ctx.other.right, ctx.up;
      ghost var n' := n.(color := Black);
      ghost var out := Hole(Left, ctx.color, parent, t, up);
      InnerBalance(Right, ctx.color, t, parent, n.right, n.node, n.left, s.node, s.left, up);
      Nephews(ctx, t);
      var oright := tmp0.right;
      if oright != null {
        Paint(oright, Black, Hole(Right, Black, tmp0, s.left, out), n);
      }
      Paint(tmp0, Red, out, Branch(Black, s.left, tmp0, n'));
      oright := RotateLeft(tmp0, out, Branch(Red, s.left, tmp0, n'));
      ctx' := Hole(Right, ctx.color, parent, Branch(Black, Branch(Red, s.left, tmp0, n.left), n.node, n.right), up);
      View(ctx', t);
      tmp := parent.left;
    }

    method RaiseFarRight(parent: Node, tmp: Node, ghost ctx: Ctx, ghost t: Tree)
      requires Linked() && shape == Plug(ctx, t) && ShortAtFocus(ctx, t) && !IsRed(t)
      requires ctx.Hole? && ctx.side == Right && ctx.node == parent
      requires ctx.other.Branch? && ctx.other.node == tmp && !IsRed(ctx.other) && IsRed(ctx.other.left)
      modifies this, Nodes(shape)`right, Nodes(shape)`left, Nodes(shape)`parent, Nodes(shape)`color
      ensures Linked() && RedBlack(shape) && !IsRed(shape)
      ensures Nodes(shape) == old(Nodes(shape)) && Inorder(shape) == old(Inorder(shape))
    {
      ghost var c, s, far, up := ctx.color, ctx.other, ctx.other.left, ctx.up;
      ghost var far' := far.(color := Black);
      LiftSiblingBalance(Right, c, t, parent, s.right, tmp, far, up);
      View(ctx, t);
      Paint(tmp, parent.color, Hole(Left, c, parent, t, up), s);
      Paint(parent, Black, up, Branch(c, s.(color := c), parent, t));
      ViewOther(Hole(Right, Black, parent, s.(color := c), up), t);
      if tmp.left != null {
        Paint(tmp.left, Black, Hole(Left, c, tmp, s.right, Hole(Left, Black, parent, t, up)), far);
      }
      var tmp' := RotateRight(parent, up, Branch(Black, Branch(c, far', tmp, s.right), parent, t));
    }

    method RoundRight(elm0: Node?, parent0: Node, ghost ctx0: Ctx, ghost t0: Tree)
      returns (done: bool, elm: Node?, parent: Node?, ghost ctx: Ctx, ghost t: Tree)
      requires Linked() && shape == Plug(ctx0, t0) && ShortAtFocus(ctx0, t0) && !IsRed(t0)
      requires ctx0.Hole? && ctx0.side == Right && ctx0.node == parent0 && Root(t0) == elm0
      modifies this, Nodes(shape)`right, Nodes(shape)`left, Nodes(shape)`parent, Nodes(shape)`color
      ensures Linked() && Nodes(shape) == old(Nodes(shape)) && Inorder(shape) == old(Inorder(shape))
      ensures done ==> RedBlack(shape) && !IsRed(shape) && elm == root
      ensures !done ==>
        && shape == Plug(ctx, t) && ShortAtFocus(ctx, t) && elm == Root(t) && parent == Above(ctx)
        && (IsRed(t) || Depth(ctx) < Depth(ctx0))
    {
      ctx, t, elm, parent := ctx0, t0, elm0, parent0;
      SiblingExists(ctx, t);
      View(ctx, t);
      ViewOther(ctx, t);
      var tmp: Node := parent.left;
      if tmp.color == Red {
        tmp, ctx := RaiseRedRight(parent, tmp, ctx, t);
      }
      Nephews(ctx, t);
      if (tmp.right == null || tmp.right.color == Black) && (tmp.left == null || tmp.left.color == Black) {
        PaintSiblingBalance(ctx, t);
        Paint(tmp, Red, Hole(Left, ctx.color, parent, t, ctx.up), ctx.other);
        elm := parent;
        t := Branch(ctx.color, ctx.other.(color := Red), parent, t);
        ctx := ctx.up;
        View(ctx, t);
        parent := elm.parent;
        done := false;
      } else {
        if tmp.left == null || tmp.left.color == Black {
          tmp, ctx := RaiseNearRight(parent, tmp, ctx, t);
        }
        RaiseFarRight(parent, tmp, ctx, t);
        elm := root;
        done := true;
      }
    }

    /** The root is not the focused subtree unless nothing surrounds it. */
    lemma RootElsewhere(ctx: Ctx, t: Tree)
      requires Linked() && shape == Plug(ctx, t)
      ensures root == Root(t) <==> ctx.Top?
    {
      PlugNodes(ctx, t);
      PlugEmbeds(ctx, t, Snapshot(Nodes(shape)));
      CtxRootIn(ctx, Root(t));
    }

    /** VRB_REMOVE_COLOR: restores the colouring rules after a black node has
        gone from above the subtree at `elm0`. */
    method RemoveColor(parent0: Node?, elm0: Node?, ghost ctx0: Ctx, ghost t0: Tree)
      requires Linked() && shape == Plug(ctx0, t0) && ShortAtFocus(ctx0, t0)
      requires elm0 == Root(t0) && parent0 == Above(ctx0)
      modifies this, Nodes(shape)`left, Nodes(shape)`right, Nodes(shape)`parent, Nodes(shape)`color
      ensures Linked() && RedBlack(shape) && !IsRed(shape)
      ensures Nodes(shape) == old(Nodes(shape)) && Inorder(shape) == old(Inorder(shape))
    {
      var elm, parent := elm0, parent0;
      ghost var ctx, t := ctx0, t0;
      View(ctx, t);
      RootElsewhere(ctx, t);
      var done := false;
      while (elm == null || elm.color == Black) && elm != root
        invariant Linked() && shape == Plug(ctx, t) && ShortAtFocus(ctx, t) && !done
        invariant elm == Root(t) && parent == Above(ctx)
        invariant (IsRed(t) <==> elm != null && elm.color == Red) && (elm == root <==> ctx.Top?)
        invariant Nodes(shape) == old(Nodes(shape)) && Inorder(shape) == old(Inorder(shape))
        decreases if IsRed(t) then 0 else 1 + Depth(ctx)
      {
        View(ctx, t);
        if parent.left == elm {
          SideOfHole(ctx, t);
          done, elm, parent, ctx, t := RoundLeft(elm, parent, ctx, t);
        } else {
          done, elm, parent, ctx, t := RoundRight(elm, parent, ctx, t);
        }
        if done {
          ctx, t := Top, shape;
          break;
        }
        View(ctx, t);
        RootElsewhere(ctx, t);
      }
      if !done {
        MendBalance(ctx, t);
      }
      if elm != null {
        Paint(elm, Black, ctx, t);
      }
    }

    /** In a removal round the two children of the parent differ. */
    lemma SideOfHole(ctx: Ctx, t: Tree)
      requires Linked() && shape == Plug(ctx, t) && ctx.Hole? && ShortAtFocus(ctx, t)
      ensures ctx.node.left == Root(t) <==> ctx.side == Left
    {
      SiblingExists(ctx, t);
      PlugNodes(ctx, t);
      View(ctx, t);
    }

    /** The assignments that let the parent of `elm` bypass it. */
    method Bypass(elm: Node, child: Node?, ghost s: set<Node>) returns (parent: Node?)
      requires elm in s && (child != null ==> child in s) && (elm.parent != null ==> elm.parent in s)
      requires elm.parent != elm && elm != child && (child != null ==> child != elm.parent)
      modifies `root, s`left, s`right, s`parent
      ensures parent == old(elm.parent) && shape == old(shape)
      ensures root == if parent == null then child else old(root)
      ensures Spliced(old(Snapshot(s)), Snapshot(s - {elm}), elm, child, parent) && unchanged(elm)
    {
      parent := elm.parent;
      if child != null {
        child.parent := parent;
      }
      Replace(parent, elm, child);
    }

    /** Takes `elm`, which has at most the one child `child`, out of the links. */
    method Splice(elm: Node, child: Node?, ghost ctx: Ctx, ghost side: Side, ghost c: Color, ghost ch: Tree)
      returns (parent: Node?)
      requires Linked() && shape == Plug(ctx, Join(side, c, ch, elm, Leaf)) && child == Root(ch)
      modifies this, Nodes(shape)`left, Nodes(shape)`right, Nodes(shape)`parent
      ensures Linked() && shape == Plug(ctx, ch) && parent == Above(ctx)
      ensures Nodes(shape) == old(Nodes(shape)) - {elm} && unchanged(elm)
    {
      ghost var s, m := Nodes(shape), Snapshot(Nodes(shape));
      View(ctx, Join(side, c, ch, elm, Leaf));
      SpliceLinks(ctx, side, c, ch, elm);
      parent := Bypass(elm, child, s);
      ghost var m' := Snapshot(s - {elm});
      SpliceResult(ctx, side, c, elm, ch, m, m');
      Reshape(Plug(ctx, ch));
    }

    lemma SpliceLinks(ctx: Ctx, side: Side, c: Color, ch: Tree, elm: Node)
      requires Linked() && shape == Plug(ctx, Join(side, c, ch, elm, Leaf))
      ensures ch.Branch? ==> ch.node in Nodes(shape) && ch.node != elm && ch.node != Above(ctx)
      ensures Above(ctx) != elm && Root(shape) == CtxRoot(ctx, elm)
    {
      PlugNodes(ctx, Join(side, c, ch, elm, Leaf));
      PlugEmbeds(ctx, Join(side, c, ch, elm, Leaf), Snapshot(Nodes(shape)));
    }

    lemma SubstituteLinks(ctx: Ctx, t: Tree)
      requires Linked() && shape == Plug(ctx, t) && t.Branch?
      ensures t.left.Branch? ==> t.left.node in Nodes(shape) && t.left.node != t.node && t.left.node != Above(ctx)
      ensures t.right.Branch? ==> t.right.node in Nodes(shape) && t.right.node != t.node && t.right.node != Above(ctx)
      ensures t.left.Branch? && t.right.Branch? ==> t.left.node != t.right.node
      ensures Above(ctx) != t.node && Root(shape) == CtxRoot(ctx, t.node)
    {
      PlugNodes(ctx, t);
      PlugEmbeds(ctx, t, Snapshot(Nodes(shape)));
    }

    /** The assignments that give `elm` the place and the fields of `oldNode`. */
    method TakePlace(elm: Node, oldNode: Node, ghost s: set<Node>)
      requires oldNode in s && elm !in s
      requires oldNode.left != null && oldNode.left in s && oldNode.left != oldNode && oldNode.left != oldNode.parent
      requires oldNode.right != null ==>
        oldNode.right in s && oldNode.right != oldNode && oldNode.right != oldNode.parent
            && oldNode.right != oldNode.left
      requires oldNode.parent != null ==> oldNode.parent in s && oldNode.parent != oldNode
      modifies `root, s`left, s`right, s`parent, elm`left, elm`right, elm`parent, elm`color
      ensures shape == old(shape) && root == if old(oldNode.parent) == null then elm else old(root)
      ensures TookPlace(old(Snapshot(s)), Snapshot(s - {oldNode} + {elm}), oldNode, elm,
                        old(oldNode.left), old(oldNode.right), old(oldNode.parent))
    {
      elm.left, elm.right, elm.parent, elm.color := oldNode.left, oldNode.right, oldNode.parent, oldNode.color;
      Replace(oldNode.parent, oldNode, elm);
      oldNode.left.parent := elm;
      if oldNode.right != null {
        oldNode.right.parent := elm;
      }
    }

    method Substitute(elm: Node, oldNode: Node, ghost ctx: Ctx, ghost t: Tree)
      requires Linked() && shape == Plug(ctx, t) && t.Branch? && t.node == oldNode && t.left.Branch?
      requires elm !in Nodes(shape)
      modifies this, Nodes(shape)`left, Nodes(shape)`right, Nodes(shape)`parent
      modifies elm`left, elm`right, elm`parent, elm`color
      ensures Linked() && shape == Plug(ctx, t.(node := elm))
      ensures Nodes(shape) == old(Nodes(shape)) - {oldNode} + {elm}
    {
      ghost var s, m := Nodes(shape), Snapshot(Nodes(shape));
      View(ctx, t);
      SubstituteLinks(ctx, t);
      TakePlace(elm, oldNode, s);
      ghost var s' := s - {oldNode} + {elm};
      ghost var m' := Snapshot(s');
      SubstituteResult(ctx, t.color, t.left, oldNode, t.right, elm, m, m');
      Reshape(Plug(ctx, t.(node := elm)));
    }

    /** The state in which VRB_REMOVE reaches its `color` label: the node `gone`
        is out of the links, a node of colour `c` is missing above `child`. */
    ghost predicate TakenOut(gone: Node, s: seq<Node>, c: Color, parent: Node?, child: Node?, ctx: Ctx, ch: Tree)
      reads this, Nodes(shape)
    {
      && Linked() && shape == Plug(ctx, ch) && child == Root(ch) && parent == Above(ctx)
      && Inorder(shape) == Without(s, gone)
      && (c == Red ==> RedBlack(shape) && !IsRed(shape))
      && (c == Black ==> ShortAtFocus(ctx, ch))
    }

    /** The case of a node with at most one child. */
    method TakeOut(elm: Node, child: Node?, ghost ctx: Ctx, ghost side: Side, ghost c: Color, ghost ch: Tree)
      returns (parent: Node?, color: Color)
      requires Sound() && shape == Plug(ctx, Join(side, c, ch, elm, Leaf)) && child == Root(ch)
      modifies this, Nodes(shape)`left, Nodes(shape)`right, Nodes(shape)`parent
      ensures TakenOut(elm, old(Contents()), color, parent, child, ctx, ch)
      ensures Nodes(shape) == old(Nodes(shape)) - {elm}
    {
      View(ctx, Join(side, c, ch, elm, Leaf));
      SpliceInorder(ctx, side, c, elm, ch);
      SpliceBalance(ctx, side, c, elm, ch);
      color := elm.color;
      parent := Splice(elm, child, ctx, side, c, ch);
    }

    /** The walk to the successor: one step right, then left to the end. */
    method Successor(oldNode: Node, ghost ctx: Ctx, ghost t: Tree) returns (elm: Node, ghost spine: Ctx, ghost b: Tree)
      requires Linked() && shape == Plug(ctx, t) && t.Branch? && t.node == oldNode && t.right.Branch?
      ensures Linked() && t.right == Plug(spine, b) && LeftSpine(spine)
      ensures b.Branch? && b.left == Leaf && b.node == elm
    {
      View(ctx, t);
      elm := oldNode.right;
      spine, b := Top, t.right;
      ghost var outer := Hole(Right, t.color, t.node, t.left, ctx);
      PlugAppend(spine, outer, b);
      View(Append(spine, outer), b);
      while elm.left != null
        invariant Linked() && t.right == Plug(spine, b) && LeftSpine(spine)
        invariant b.Branch? && b.node == elm && elm.left == Root(b.left)
        decreases b
      {
        elm := elm.left;
        spine, b := Hole(Left, b.color, b.node, b.right, spine), b.left;
        PlugAppend(spine, outer, b);
        View(Append(spine, outer), b);
      }
    }

    /** The successor `elm` leaves its place and takes that of `oldNode`. */
    method Exchange(oldNode: Node, elm: Node, ghost ctx: Ctx, ghost t: Tree, ghost spine: Ctx, ghost b: Tree)
      returns (parent: Node?, child: Node?, color: Color, ghost ctx': Ctx, ghost ch: Tree)
      requires Linked() && shape == Plug(ctx, t) && t.Branch? && t.node == oldNode && t.left.Branch?
      requires b.Branch? && b.left == Leaf && b.node == elm && t.right == Plug(spine, b)
      modifies this, Nodes(shape)`left, Nodes(shape)`right, Nodes(shape)`parent, Nodes(shape)`color
      ensures Linked() && shape == Plug(ctx, Branch(t.color, t.left, elm, Plug(spine, b.right)))
          && shape == Plug(ctx', ch)
      ensures ctx' == Append(spine, Hole(Right, t.color, elm, t.left, ctx)) && ch == b.right
      ensures child == Root(ch) && parent == Above(ctx') && color == b.color
      ensures Nodes(shape) == old(Nodes(shape)) - {oldNode}
    {
      ch := b.right;
      ghost var outer := Append(spine, Hole(Right, t.color, oldNode, t.left, ctx));
      ctx' := Append(spine, Hole(Right, t.color, elm, t.left, ctx));
      SuccessorPlaces(ctx, t, spine, b);
      View(outer, b);
      child := elm.right;
      color := elm.color;
      parent := Splice(elm, child, outer, Right, b.color, ch);
      if elm.parent == oldNode {
        parent := elm;
      }
      Substitute(elm, oldNode, ctx, Branch(t.color, t.left, oldNode, Plug(spine, ch)));
    }

    /** The case of a node with two children: its successor is taken out and
        then put into its place. */
    method TakeOutInner(oldNode: Node, ghost ctx: Ctx, ghost t: Tree)
      returns (parent: Node?, child: Node?, color: Color, ghost ctx': Ctx, ghost ch: Tree)
      requires Sound() && shape == Plug(ctx, t) && t.Branch? && t.node == oldNode && t.left.Branch? && t.right.Branch?
      modifies this, Nodes(shape)`left, Nodes(shape)`right, Nodes(shape)`parent, Nodes(shape)`color
      ensures TakenOut(oldNode, old(Contents()), color, parent, child, ctx', ch)
      ensures Nodes(shape) == old(Nodes(shape)) - {oldNode}
    {
      var elm;
      ghost var spine, b;
      elm, spine, b := Successor(oldNode, ctx, t);
      SuccessorResult(ctx, t, spine, b);
      parent, child, color, ctx', ch := Exchange(oldNode, elm, ctx, t, spine, b);
    }

    /** VRB_REMOVE. */
    method Remove(elm: Node) returns (r: Node)
      requires Valid() && elm in Nodes(shape)
      modifies this, Nodes(shape)`left, Nodes(shape)`right, Nodes(shape)`parent, Nodes(shape)`color
      ensures Valid() && r == elm
      ensures Contents() == Without(old(Contents()), elm) && Nodes(shape) == old(Nodes(shape)) - {elm}
    {
      var child, parent, color;
      ghost var ctx, t := Focus(Top, shape, elm);
      ghost var ch;
      View(ctx, t);
      WithoutSorted(ctx, t);
      if elm.left == null {
        child := elm.right;
        ch := t.right;
        parent, color := TakeOut(elm, child, ctx, Right, t.color, ch);
      } else if elm.right == null {
        child := elm.left;
        ch := t.left;
        parent, color := TakeOut(elm, child, ctx, Left, t.color, ch);
      } else {
        parent, child, color, ctx, ch := TakeOutInner(elm, ctx, t);
      }
      if color == Black {
        RemoveColor(parent, child, ctx, ch);
      }
      Seal();
      return elm;
    }

    /** The walk to the predecessor: one step left, then right to the end. */
    method Predecessor(oldNode: Node, ghost ctx: Ctx, ghost t: Tree)
      returns (elm: Node, ghost spine: Ctx, ghost b: Tree)
      requires Linked() && shape == Plug(ctx, t) && t.Branch? && t.node == oldNode && t.left.Branch?
      ensures Linked() && t.left == Plug(spine, b) && RightSpine(spine)
      ensures b.Branch? && b.right == Leaf && b.node == elm
    {
      View(ctx, t);
      elm := oldNode.left;
      spine, b := Top, t.left;
      ghost var outer := Hole(Left, t.color, t.node, t.right, ctx);
      PlugAppend(spine, outer, b);
      View(Append(spine, outer), b);
      while elm.right != null
        invariant Linked() && t.left == Plug(spine, b) && RightSpine(spine)
        invariant b.Branch? && b.node == elm && elm.right == Root(b.right)
        decreases b
      {
        elm := elm.right;
        spine, b := Hole(Right, b.color, b.node, b.left, spine), b.right;
        PlugAppend(spine, outer, b);
        View(Append(spine, outer), b);
      }
    }

    /** The climb to the first ancestor that has `elm0` in its left subtree. */
    method ClimbNext(elm0: Node, ghost ctx0: Ctx, ghost t0: Tree) returns (r: Node?)
      requires Linked() && shape == Plug(ctx0, t0) && t0.Branch? && t0.node == elm0
      ensures r == First(After(ctx0))
    {
      var elm := elm0;
      ghost var ctx, t := ctx0, t0;
      View(ctx, t);
      while elm.parent != null && elm == elm.parent.right
        invariant Linked() && shape == Plug(ctx, t) && t.Branch? && t.node == elm
        invariant After(ctx) == After(ctx0) && elm.parent == Above(ctx)
        decreases ctx
      {
        View(ctx, t);
        elm := elm.parent;
        ctx, t := ctx.up, Join(ctx.side, ctx.color, t, ctx.node, ctx.other);
        View(ctx, t);
      }
      View(ctx, t);
      r := elm.parent;
    }

    method ClimbPrev(elm0: Node, ghost ctx0: Ctx, ghost t0: Tree) returns (r: Node?)
      requires Linked() && shape == Plug(ctx0, t0) && t0.Branch? && t0.node == elm0
      ensures r == Last(Before(ctx0))
    {
      var elm := elm0;
      ghost var ctx, t := ctx0, t0;
      View(ctx, t);
      while elm.parent != null && elm == elm.parent.left
        invariant Linked() && shape == Plug(ctx, t) && t.Branch? && t.node == elm
        invariant Before(ctx) == Before(ctx0) && elm.parent == Above(ctx)
        decreases ctx
      {
        View(ctx, t);
        elm := elm.parent;
        ctx, t := ctx.up, Join(ctx.side, ctx.color, t, ctx.node, ctx.other);
        View(ctx, t);
      }
      View(ctx, t);
      r := elm.parent;
    }

    /** VRB_NEXT. */
    method Next(elm: Node) returns (r: Node?)
      requires Valid() && elm in Nodes(shape)
      ensures Valid()
      ensures r == Following(Contents(), elm)
    {
      ghost var ctx, t := Focus(Top, shape, elm);
      FocusNeighbours(ctx, t);
      View(ctx, t);
      if elm.right != null {
        ghost var spine, b;
        r, spine, b := Successor(elm, ctx, t);
        SpineFirst(spine, b);
        NonEmpty(t.right);
      } else if elm.parent != null && elm == elm.parent.left {
        View(ctx, t);
        r := elm.parent;
      } else {
        r := ClimbNext(elm, ctx, t);
      }
    }

    /** VRB_PREV. */
    method Prev(elm: Node) returns (r: Node?)
      requires Valid() && elm in Nodes(shape)
      ensures Valid()
      ensures r == Preceding(Contents(), elm)
    {
      ghost var ctx, t := Focus(Top, shape, elm);
      FocusNeighbours(ctx, t);
      View(ctx, t);
      if elm.left != null {
        ghost var spine, b;
        r, spine, b := Predecessor(elm, ctx, t);
        SpineLast(spine, b);
        NonEmpty(t.left);
      } else if elm.parent != null && elm == elm.parent.right {
        View(ctx, t);
        r := elm.parent;
      } else {
        r := ClimbPrev(elm, ctx, t);
      }
    }

    /** VRB_MINMAX. */
    method MinMax(val: int) returns (parent: Node?)
      requires Valid()
      ensures Valid()
      ensures parent == if val < 0 then First(Contents()) else Last(Contents())
    {
      var tmp := root;
      parent := null;
      ghost var ctx, t := Top, shape;
      while tmp != null
        invariant Valid() && shape == Plug(ctx, t) && tmp == Root(t) && parent == Above(ctx)
        invariant if val < 0 then LeftSpine(ctx) else RightSpine(ctx)
        decreases t
      {
        View(ctx, t);
        parent := tmp;
        if val < 0 {
          tmp := tmp.left;
          ctx, t := Hole(Left, t.color, t.node, t.right, ctx), t.left;
        } else {
          tmp := tmp.right;
          ctx, t := Hole(Right, t.color, t.node, t.left, ctx), t.right;
        }
      }
      PlugInorder(ctx, Leaf);
      if val < 0 {
        LeftSpineBefore(ctx);
      } else {
        RightSpineAfter(ctx);
      }
    }
  }
}
