/** The splay tree: every operation first moves the key, or a neighbour of it, to
    the root. */
module Splay {
  import opened SplayShape
  import opened SplayRounds

  /** What a splay leaves at the root: the key, or the nearest node above it, or the
      nearest below. */
  ghost predicate Nearest(t: Tree, key: int) {
    && t.Fork?
    && (t.x.key == key
        || (key < t.x.key && AllBelow(Inorder(t.l), key))
        || (t.x.key < key && AllAbove(Inorder(t.r), key)))
  }

  /** The nodes of the three trees and the sentinel are all different. */
  ghost predicate Separate(top: Node, l: Spine, m: Tree, r: Spine) {
    && Proper(m) && ProperSpine(l) && ProperSpine(r)
    && Nodes(m) !! SpineNodes(l) && Nodes(m) !! SpineNodes(r) && SpineNodes(l) !! SpineNodes(r)
    && top !in Nodes(m) + SpineNodes(l) + SpineNodes(r)
  }

  /** The state of the loop: `m` in the middle under `root`, the spines under `top`. */
  ghost predicate Split(root: Node?, top: Node, l: Spine, m: Tree, r: Spine)
    reads Nodes(m)`left, Nodes(m)`right, SpineNodes(l)`left, SpineNodes(l)`right, SpineNodes(r)`left
    reads SpineNodes(r)`right
    reads top`left, top`right
  {
    && m.Fork? && root == m.x && Separate(top, l, m, r)
    && Embeds(m) && EmbedsLeft(l, top) && EmbedsRight(r, top)
  }

  lemma LinkedLeftSeparate(top: Node, l: Spine, m: Tree, r: Spine)
    requires m.Fork? && Separate(top, l, m, r)
    ensures Separate(top, l, m.l, Link(m.x, m.r, r))
  {
  }

  lemma LinkedRightSeparate(top: Node, l: Spine, m: Tree, r: Spine)
    requires m.Fork? && Separate(top, l, m, r)
    ensures Separate(top, Link(m.x, m.l, l), m.r, r)
  {
  }

  lemma Assembled(l: Spine, m: Tree, r: Spine, key: int)
    requires m.Fork? && (m.x.key == key || Stuck(m, key))
    requires ProperSpine(l) && ProperSpine(r) && Proper(m)
    requires Nodes(m) !! SpineNodes(l) && Nodes(m) !! SpineNodes(r)
    requires AllBelow(InorderLeft(l), key) && AllAbove(InorderRight(r), key)
    ensures var t := Fork(PlugLeft(l, m.l), m.x, PlugRight(r, m.r));
            Inorder(t) == Whole(l, m, r) && Nodes(t) == SpineNodes(l) + Nodes(m) + SpineNodes(r) && Nearest(t, key)
  {
    AssembledWhole(l, m, r);
    PlugLeftInorder(l, m.l);
    PlugRightInorder(r, m.r);
  }

  lemma AssembledWhole(l: Spine, m: Tree, r: Spine)
    requires m.Fork? && ProperSpine(l) && ProperSpine(r) && Proper(m)
    requires Nodes(m) !! SpineNodes(l) && Nodes(m) !! SpineNodes(r)
    ensures var t := Fork(PlugLeft(l, m.l), m.x, PlugRight(r, m.r));
            Inorder(t) == Whole(l, m, r) && Nodes(t) == SpineNodes(l) + Nodes(m) + SpineNodes(r)
  {
    PlugLeftInorder(l, m.l);
    PlugRightInorder(r, m.r);
    PlugLeftProper(l, m.l);
    PlugRightProper(r, m.r);
    Regroup(InorderLeft(l), Inorder(m.l), [m.x], Inorder(m.r));
    Assoc(InorderLeft(l) + Inorder(m.l) + [m.x], Inorder(m.r), InorderRight(r));
  }

  /** In a sorted tree a splay for the key of a member brings that member up. */
  lemma NearestIs(t: Tree, elm: Node)
    requires Sorted(Inorder(t)) && Nearest(t, elm.key) && elm in Inorder(t)
    ensures t.x == elm
  {
    NearestHit(t, elm.key);
    var i :| 0 <= i < |Inorder(t)| && Inorder(t)[i] == elm;
    var j := |Inorder(t.l)|;
    assert Inorder(t)[j] == t.x;
  }

  ghost predicate Absent(s: seq<Node>, key: int) {
    forall i :: 0 <= i < |s| ==> s[i].key != key
  }

  /** A splay decides membership. */
  lemma NearestHit(t: Tree, key: int)
    requires Sorted(Inorder(t)) && Nearest(t, key)
    ensures t.x.key != key ==> Absent(Inorder(t), key)
    ensures t.x in Inorder(t)
  {
    SortedParts(Inorder(t.l), t.x, Inorder(t.r));
    assert Inorder(t)[|Inorder(t.l)|] == t.x;
  }

  lemma GreatestBelow(u: Tree, key: int)
    requires Sorted(Inorder(u)) && Nearest(u, key) && AllBelow(Inorder(u), key)
    ensures u.r.Leaf?
  {
    var a, b := Inorder(u.l), Inorder(u.r);
    SortedParts(a, u.x, b);
    assert Inorder(u)[|a|] == u.x;
    assert forall i :: 0 <= i < |b| ==> Inorder(u)[|a| + 1 + i] == b[i];
    FirstBelow(b, key);
  }

  lemma WithoutRoot(u: Tree, t: Tree, b: seq<Node>)
    requires t.Fork? && Proper(t) && Proper(u) && Nodes(u) == Nodes(t.l) && u.Fork? && u.r.Leaf?
    requires Inorder(u) == Inorder(t.l) && Inorder(t.r) == b && Sorted(Inorder(t))
    ensures var w := Fork(u.l, u.x, t.r);
            var k := |Inorder(u)|;
            Proper(w) && Nodes(w) == Nodes(u) + Nodes(t.r) && Sorted(Inorder(w))
            && Inorder(w) == Inorder(t)[..k] + Inorder(t)[k + 1..] && Inorder(t)[k] == t.x
  {
    var a := Inorder(u);
    assert Inorder(u.r) == [] && a == Inorder(u.l) + [u.x];
    assert Inorder(t)[..|a|] == a && Inorder(t)[|a| + 1..] == b;
    WithoutSorted(Inorder(t), |a|);
  }

  lemma WithoutSorted(s: seq<Node>, k: nat)
    requires Sorted(s) && k < |s|
    ensures Sorted(s[..k] + s[k + 1..])
  {
  }

  lemma InsertedBelow(t: Tree, elm: Node)
    requires Proper(t) && elm !in Nodes(t) && t.Fork?
    ensures var u := Fork(t.l, elm, Fork(Leaf, t.x, t.r));
            Proper(u) && Nodes(u) == Nodes(t) + {elm}
            && Inorder(u) == Inorder(t.l) + [elm] + ([] + [t.x] + Inorder(t.r))
  {
    assert Proper(Fork(Leaf, t.x, t.r));
    assert Inorder(Fork(Leaf, t.x, t.r)) == [] + [t.x] + Inorder(t.r);
  }

  lemma InsertedAbove(t: Tree, elm: Node)
    requires Proper(t) && elm !in Nodes(t) && t.Fork?
    ensures var u := Fork(Fork(t.l, t.x, Leaf), elm, t.r);
            Proper(u) && Nodes(u) == Nodes(t) + {elm}
            && Inorder(u) == (Inorder(t.l) + [t.x] + []) + [elm] + Inorder(t.r)
  {
    assert Proper(Fork(t.l, t.x, Leaf));
    assert Inorder(Fork(t.l, t.x, Leaf)) == Inorder(t.l) + [t.x] + [];
  }

  lemma OrderedBelow(a: seq<Node>, x: Node, b: seq<Node>, elm: Node)
    requires Sorted(a + [x] + b) && AllBelow(a, elm.key) && elm.key < x.key
    ensures var s := a + [elm] + ([] + [x] + b);
            Sorted(s) && s == (a + [x] + b)[..|a|] + [elm] + (a + [x] + b)[|a|..]
  {
    SortedParts(a, x, b);
    assert [] + [x] + b == [x] + b;
    SortedJoin([], x, b);
    SortedJoin(a, elm, [] + [x] + b);
    assert (a + [x] + b)[..|a|] == a && (a + [x] + b)[|a|..] == [x] + b;
  }

  lemma OrderedAbove(a: seq<Node>, x: Node, b: seq<Node>, elm: Node)
    requires Sorted(a + [x] + b) && AllAbove(b, elm.key) && x.key < elm.key
    ensures var s := (a + [x] + []) + [elm] + b;
            Sorted(s) && s == (a + [x] + b)[..|a| + 1] + [elm] + (a + [x] + b)[|a| + 1..]
  {
    SortedParts(a, x, b);
    assert a + [x] + [] == a + [x];
    SortedJoin(a, x, []);
    SortedJoin(a + [x] + [], elm, b);
    assert (a + [x] + b)[..|a| + 1] == a + [x] && (a + [x] + b)[|a| + 1..] == b;
  }

  class Head {
    var root: Node?
    ghost var shape: Tree
    ghost var repr: set<Node>

    ghost predicate Valid()
      reads this, repr
    {
      repr == Nodes(shape) && root == Root(shape) && Proper(shape) && Embeds(shape) && Sorted(Inorder(shape))
    }

    constructor ()
      ensures Valid() && Inorder(shape) == []
    {
      root, shape, repr := null, Leaf, {};
    }

    /** The writes of VSPLAY_ROTATE_RIGHT. */
    method TurnRight(top: Node, ghost l: Spine, ghost m: Tree, ghost r: Spine)
      requires Split(root, top, l, m, r) && m.l.Fork?
      modifies `root, m.x`left, m.l.x`right
      ensures root == m.l.x && Embeds(RotatedRight(m)) && EmbedsLeft(l, top) && EmbedsRight(r, top)
    {
      assert Embeds(m.l) && Proper(m.l);
      var tmp := root.left;
      root.left := tmp.right;
      tmp.right := root;
      root := tmp;
      assert Embeds(m.l.l) && Embeds(m.l.r) && Embeds(m.r);
      assert Embeds(Fork(m.l.r, m.x, m.r));
    }

    method TurnLeft(top: Node, ghost l: Spine, ghost m: Tree, ghost r: Spine)
      requires Split(root, top, l, m, r) && m.r.Fork?
      modifies `root, m.x`right, m.r.x`left
      ensures root == m.r.x && Embeds(RotatedLeft(m)) && EmbedsLeft(l, top) && EmbedsRight(r, top)
    {
      assert Embeds(m.r) && Proper(m.r);
      var tmp := root.right;
      root.right := tmp.left;
      tmp.left := root;
      root := tmp;
      assert Embeds(m.r.r) && Embeds(m.r.l) && Embeds(m.l);
      assert Embeds(Fork(m.l, m.x, m.r.l));
    }

    /** VSPLAY_ROTATE_RIGHT. */
    method RotateRight(top: Node, ghost l: Spine, ghost m: Tree, ghost r: Spine)
      requires Split(root, top, l, m, r) && m.l.Fork?
      modifies `root, m.x`left, m.l.x`right
      ensures Split(root, top, l, RotatedRight(m), r)
      ensures Inorder(RotatedRight(m)) == Inorder(m) && Nodes(RotatedRight(m)) == Nodes(m)
    {
      RotatedRightProper(m);
      RotatedRightInorder(m);
      TurnRight(top, l, m, r);
    }

    /** VSPLAY_ROTATE_LEFT. */
    method RotateLeft(top: Node, ghost l: Spine, ghost m: Tree, ghost r: Spine)
      requires Split(root, top, l, m, r) && m.r.Fork?
      modifies `root, m.x`right, m.r.x`left
      ensures Split(root, top, l, RotatedLeft(m), r)
      ensures Inorder(RotatedLeft(m)) == Inorder(m) && Nodes(RotatedLeft(m)) == Nodes(m)
    {
      RotatedLeftProper(m);
      RotatedLeftInorder(m);
      TurnLeft(top, l, m, r);
    }

    /** The first write of VSPLAY_LINKLEFT. */
    method HangAbove(top: Node, right: Node, ghost l: Spine, ghost m: Tree, ghost r: Spine)
      requires Split(root, top, l, m, r) && right == Bottom(r, top)
      modifies right`left
      ensures Embeds(m) && EmbedsLeft(l, top) && EmbedsRight(r, top) && right.left == m.x
    {
      right.left := root;
    }

    /** The first write of VSPLAY_LINKRIGHT. */
    method HangBelow(top: Node, left: Node, ghost l: Spine, ghost m: Tree, ghost r: Spine)
      requires Split(root, top, l, m, r) && left == Bottom(l, top)
      modifies left`right
      ensures Embeds(m) && EmbedsLeft(l, top) && EmbedsRight(r, top) && left.right == m.x
    {
      left.right := root;
    }

    /** VSPLAY_LINKLEFT: the root, with what is right of it, goes to the larger ones. */
    method LinkLeft(top: Node, right: Node, ghost l: Spine, ghost m: Tree, ghost r: Spine) returns (right': Node)
      requires Split(root, top, l, m, r) && m.l.Fork? && right == Bottom(r, top)
      modifies `root, right`left
      ensures Split(root, top, l, m.l, Link(m.x, m.r, r)) && right' == m.x
    {
      LinkedLeftSeparate(top, l, m, r);
      HangAbove(top, right, l, m, r);
      right' := root;
      root := root.left;
    }

    /** VSPLAY_LINKRIGHT. */
    method LinkRight(top: Node, left: Node, ghost l: Spine, ghost m: Tree, ghost r: Spine) returns (left': Node)
      requires Split(root, top, l, m, r) && m.r.Fork? && left == Bottom(l, top)
      modifies `root, left`right
      ensures Split(root, top, Link(m.x, m.l, l), m.r, r) && left' == m.x
    {
      LinkedRightSeparate(top, l, m, r);
      HangBelow(top, left, l, m, r);
      left' := root;
      root := root.right;
    }

    /** The first half of VSPLAY_ASSEMBLE: the spines are closed. */
    method Close(top: Node, left: Node, right: Node, ghost l: Spine, ghost m: Tree, ghost r: Spine)
      requires Split(root, top, l, m, r) && left == Bottom(l, top) && right == Bottom(r, top)
      modifies left`right, right`left
      ensures Embeds(PlugLeft(l, m.l)) && top.right == Root(PlugLeft(l, m.l))
      ensures Embeds(PlugRight(r, m.r)) && top.left == Root(PlugRight(r, m.r))
    {
      left.right := root.left;
      right.left := root.right;
      assert EmbedsLeft(l, top) && EmbedsRight(r, top);
      PlugLeftEmbeds(l, m.l, top);
      PlugRightEmbeds(r, m.r, top);
    }

    /** VSPLAY_ASSEMBLE. */
    method Assemble(top: Node, left: Node, right: Node, ghost l: Spine, ghost m: Tree, ghost r: Spine)
      requires Split(root, top, l, m, r) && left == Bottom(l, top) && right == Bottom(r, top)
      modifies left`right, right`left, m.x`left, m.x`right
      ensures Embeds(Fork(PlugLeft(l, m.l), m.x, PlugRight(r, m.r)))
      ensures Proper(Fork(PlugLeft(l, m.l), m.x, PlugRight(r, m.r)))
    {
      PlugLeftProper(l, m.l);
      PlugRightProper(r, m.r);
      Close(top, left, right, l, m, r);
      root.left := top.right;
      root.right := top.left;
    }

    /** One round of the loop when the key is below the root's. */
    method StepDown(top: Node, right: Node, key: int, ghost l: Spine, ghost m: Tree, ghost r: Spine)
      returns (done: bool, right': Node, ghost m': Tree, ghost r': Spine)
      requires Split(root, top, l, m, r) && right == Bottom(r, top) && key < root.key
      modifies `root, right`left, Nodes(m)`left, Nodes(m)`right
      ensures Split(root, top, l, m', r') && right' == Bottom(r', top)
      ensures (done, m', r') == Down(m, r, key)
    {
      done, right', m', r' := true, right, m, r;
      var tmp := root.left;
      if tmp == null {
        return;
      }
      if key < tmp.key {
        RotateRight(top, l, m, r);
        m' := RotatedRight(m);
        if root.left == null {
          return;
        }
      }
      right' := LinkLeft(top, right, l, m', r);
      done, m', r' := false, m'.l, Link(m'.x, m'.r, r);
    }

    /** One round of the loop when the key is above the root's. */
    method StepUp(top: Node, left: Node, key: int, ghost l: Spine, ghost m: Tree, ghost r: Spine)
      returns (done: bool, left': Node, ghost l': Spine, ghost m': Tree)
      requires Split(root, top, l, m, r) && left == Bottom(l, top) && root.key < key
      modifies `root, left`right, Nodes(m)`left, Nodes(m)`right
      ensures Split(root, top, l', m', r) && left' == Bottom(l', top)
      ensures (done, l', m') == Up(l, m, key)
    {
      done, left', l', m' := true, left, l, m;
      var tmp := root.right;
      if tmp == null {
        return;
      }
      if key > tmp.key {
        RotateLeft(top, l, m, r);
        m' := RotatedLeft(m);
        if root.right == null {
          return;
        }
      }
      left' := LinkRight(top, left, l, m', r);
      done, l', m' := false, Link(m'.x, m'.l, l), m'.r;
    }

    method RoundDown(top: Node, right: Node, key: int, ghost t: Tree, ghost l: Spine, ghost m: Tree, ghost r: Spine,
        ghost steps: nat)
      returns (done: bool, right': Node, ghost m': Tree, ghost r': Spine)
      requires Split(root, top, l, m, r) && right == Bottom(r, top) && key < root.key
      requires Passed(t, key, l, m, r) && OnCourse(t, key, l, Parted(m, key), r, steps)
      modifies `root, right`left, Nodes(m)`left, Nodes(m)`right
      ensures Split(root, top, l, m', r') && right' == Bottom(r', top)
      ensures Passed(t, key, l, m', r') && if done then Stuck(m', key) else Size(m') < Size(m)
      ensures OnCourse(t, key, l, if done then Here(m') else Parted(m', key), r', steps + 1)
    {
      DownPassed(t, key, l, m, r);
      DownParted(m, r, key);
      done, right', m', r' := StepDown(top, right, key, l, m, r);
    }

    method RoundUp(top: Node, left: Node, key: int, ghost t: Tree, ghost l: Spine, ghost m: Tree, ghost r: Spine,
        ghost steps: nat)
      returns (done: bool, left': Node, ghost l': Spine, ghost m': Tree)
      requires Split(root, top, l, m, r) && left == Bottom(l, top) && root.key < key
      requires Passed(t, key, l, m, r) && OnCourse(t, key, l, Parted(m, key), r, steps)
      modifies `root, left`right, Nodes(m)`left, Nodes(m)`right
      ensures Split(root, top, l', m', r) && left' == Bottom(l', top)
      ensures Passed(t, key, l', m', r) && if done then Stuck(m', key) else Size(m') < Size(m)
      ensures OnCourse(t, key, l', if done then Here(m') else Parted(m', key), r, steps + 1)
    {
      UpPassed(t, key, l, m, r);
      UpParted(l, m, key);
      done, left', l', m' := StepUp(top, left, key, l, m, r);
    }

    /** The body of the loop, on either side. */
    method Round(top: Node, left: Node, right: Node, key: int, ghost t: Tree, ghost l: Spine, ghost m: Tree,
        ghost r: Spine, ghost steps: nat)
      returns (done: bool, left': Node, right': Node, ghost l': Spine, ghost m': Tree, ghost r': Spine)
      requires Split(root, top, l, m, r) && left == Bottom(l, top) && right == Bottom(r, top) && root.key != key
      requires Passed(t, key, l, m, r) && OnCourse(t, key, l, Parted(m, key), r, steps)
      modifies `root, left`right, right`left, Nodes(m)`left, Nodes(m)`right
      ensures Split(root, top, l', m', r') && left' == Bottom(l', top) && right' == Bottom(r', top)
      ensures Passed(t, key, l', m', r') && if done then Stuck(m', key) else Size(m') < Size(m)
      ensures OnCourse(t, key, l', if done then Here(m') else Parted(m', key), r', steps + 1)
    {
      left', right', l', r' := left, right, l, r;
      if key < root.key {
        done, right', m', r' := RoundDown(top, right, key, t, l, m, r, steps);
      } else {
        done, left', l', m' := RoundUp(top, left, key, t, l, m, r, steps);
      }
    }

    /** The loop of VSPLAY, on a sentinel `top`: it ends because the middle tree
        shrinks. */
    method Loop(top: Node, key: int, ghost t: Tree)
      returns (left: Node, right: Node, ghost l: Spine, ghost m: Tree, ghost r: Spine, ghost steps: nat)
      requires Split(root, top, End, t, End) && Sorted(Inorder(t))
      modifies `root, top`left, top`right, Nodes(t)`left, Nodes(t)`right
      ensures Split(root, top, l, m, r) && left == Bottom(l, top) && right == Bottom(r, top)
      ensures Passed(t, key, l, m, r) && (m.x.key == key || Stuck(m, key))
      ensures OnCourse(t, key, l, Here(m), r, steps)
    {
      var done := false;
      left, right, l, m, r, steps := top, top, End, t, End, 0;
      assert [] + Inorder(m) + [] == Inorder(m);
      while root.key != key && !done
        invariant Split(root, top, l, m, r) && left == Bottom(l, top) && right == Bottom(r, top)
        invariant Passed(t, key, l, m, r) && (done ==> Stuck(m, key))
        invariant OnCourse(t, key, l, if done then Here(m) else Parted(m, key), r, steps)
        decreases !done, Size(m)
      {
        done, left, right, l, m, r := Round(top, left, right, key, t, l, m, r, steps);
        steps := steps + 1;
      }
    }

    /** The end of a splay of `t`: its nodes, in its order, are one tree again. */
    method Finish(top: Node, left: Node, right: Node, ghost t: Tree, ghost l: Spine, ghost m: Tree, ghost r: Spine)
      requires Split(root, top, l, m, r) && left == Bottom(l, top) && right == Bottom(r, top)
      requires Whole(l, m, r) == Inorder(t) && SpineNodes(l) + Nodes(m) + SpineNodes(r) == Nodes(t)
      requires repr == Nodes(t) && Sorted(Inorder(t))
      modifies `shape, left`right, right`left, m.x`left, m.x`right
      ensures Valid() && shape == Fork(PlugLeft(l, m.l), m.x, PlugRight(r, m.r))
      ensures Inorder(shape) == Inorder(t)
    {
      AssembledWhole(l, m, r);
      Assemble(top, left, right, l, m, r);
      shape := Fork(PlugLeft(l, m.l), m.x, PlugRight(r, m.r));
    }

    /** VSPLAY: the in-order sequence stays, and a nearest node comes to the root. */
    method Splay(key: int) returns (ghost steps: nat)
      requires Valid() && root != null
      modifies `root, `shape, repr`left, repr`right
      ensures Valid() && Nearest(shape, key) && repr == old(repr)
      ensures Inorder(shape) == old(Inorder(shape))
      ensures shape == Splayed(old(shape), key) && steps == Parted(old(shape), key).rounds
    {
      var node := new Node(0);
      ghost var l, m, r;
      var left, right;
      left, right, l, m, r, steps := Loop(node, key, shape);
      Assembled(l, m, r, key);
      Finish(node, left, right, shape, l, m, r);
    }

    /** VSPLAY_FIND. */
    method Find(key: int) returns (r: Node?, ghost steps: nat)
      requires Valid()
      modifies `root, `shape, repr`left, repr`right
      ensures (shape, steps) == Found(old(shape), key)
      ensures Valid() && Inorder(shape) == old(Inorder(shape)) && repr == old(repr)
      ensures r == null ==> Absent(Inorder(shape), key)
      ensures r != null ==> r in Inorder(shape) && r.key == key
    {
      if root == null {
        return null, 0;
      }
      steps := Splay(key);
      NearestHit(shape, key);
      r := if root.key == key then root else null;
    }

    /** The cut of VSPLAY_INSERT above the new node. */
    method PlaceBelow(elm: Node) returns (ghost k: nat)
      requires Valid() && Nearest(shape, elm.key) && elm !in repr && elm.key < root.key
      modifies this, root`left, elm`left, elm`right
      ensures Valid() && repr == old(repr) + {elm} && k <= |old(Inorder(shape))|
      ensures old(shape).Fork? && shape == Fork(old(shape).l, elm, Fork(Leaf, old(shape).x, old(shape).r))
      ensures Inorder(shape) == old(Inorder(shape))[..k] + [elm] + old(Inorder(shape))[k..]
    {
      ghost var t := shape;
      InsertedBelow(t, elm);
      OrderedBelow(Inorder(t.l), t.x, Inorder(t.r), elm);
      elm.left := root.left;
      elm.right := root;
      root.left := null;
      root := elm;
      shape := Fork(t.l, elm, Fork(Leaf, t.x, t.r));
      repr := repr + {elm};
      k := |Inorder(t.l)|;
      assert Embeds(t.l) && Embeds(t.r) && Embeds(Fork(Leaf, t.x, t.r));
    }

    method PlaceAbove(elm: Node) returns (ghost k: nat)
      requires Valid() && Nearest(shape, elm.key) && elm !in repr && root.key < elm.key
      modifies this, root`right, elm`left, elm`right
      ensures Valid() && repr == old(repr) + {elm} && k <= |old(Inorder(shape))|
      ensures old(shape).Fork? && shape == Fork(Fork(old(shape).l, old(shape).x, Leaf), elm, old(shape).r)
      ensures Inorder(shape) == old(Inorder(shape))[..k] + [elm] + old(Inorder(shape))[k..]
    {
      ghost var t := shape;
      InsertedAbove(t, elm);
      OrderedAbove(Inorder(t.l), t.x, Inorder(t.r), elm);
      elm.right := root.right;
      elm.left := root;
      root.right := null;
      root := elm;
      shape := Fork(Fork(t.l, t.x, Leaf), elm, t.r);
      repr := repr + {elm};
      k := |Inorder(t.l)| + 1;
      assert Embeds(t.l) && Embeds(t.r) && Embeds(Fork(t.l, t.x, Leaf));
    }

    method PlaceFirst(elm: Node)
      requires Valid() && root == null
      modifies this, elm`left, elm`right
      ensures Valid() && repr == old(repr) + {elm} && Inorder(shape) == [elm] && old(Inorder(shape)) == []
      ensures old(shape).Leaf? && shape == Fork(Leaf, elm, Leaf)
    {
      elm.left, elm.right := null, null;
      root := elm;
      shape, repr := Fork(Leaf, elm, Leaf), {elm};
    }

    /** VSPLAY_INSERT: the node that has the key already, which may be `elm` itself,
        or null when `elm` went in at its place in the order. */
    method Insert(elm: Node) returns (r: Node?, ghost k: nat, ghost steps: nat)
      requires Valid()
      modifies this, repr`left, repr`right, elm`left, elm`right
      ensures Valid() && (shape, steps) == Inserted(old(shape), elm)
      ensures r == null ==>
          repr == old(repr) + {elm} && Absent(old(Inorder(shape)), elm.key) && k <= |old(Inorder(shape))|
      ensures r == null ==> Inorder(shape) == old(Inorder(shape))[..k] + [elm] + old(Inorder(shape))[k..]
      ensures r != null ==>
          repr == old(repr) && Inorder(shape) == old(Inorder(shape)) && r in Inorder(shape) && r.key == elm.key
    {
      r, k, steps := null, 0, 0;
      if root == null {
        PlaceFirst(elm);
        return;
      }
      steps := Splay(elm.key);
      NearestHit(shape, elm.key);
      InorderHas(shape, elm);
      if elm.key < root.key {
        k := PlaceBelow(elm);
      } else if elm.key > root.key {
        k := PlaceAbove(elm);
      } else {
        r := root;
      }
    }

    /** The tree without its root, which has no left subtree. */
    method DropMin()
      requires Valid() && root != null && root.left == null
      modifies this
      ensures Valid() && repr <= old(repr) && |old(Inorder(shape))| > 0 && Inorder(shape) == old(Inorder(shape))[1..]
      ensures old(shape).Fork? && old(shape).l.Leaf? && shape == old(shape).r
    {
      ghost var t := shape;
      SortedParts(Inorder(t.l), t.x, Inorder(t.r));
      root := root.right;
      shape, repr := t.r, Nodes(t.r);
      assert Inorder(t.l) == [];
    }

    /** The left subtree alone, splayed for the key of the root it had; `tmp` is what
        was right of that root. */
    method CutRight(key: int) returns (tmp: Node?, ghost steps: nat)
      requires Valid() && root != null && root.left != null
      modifies this, repr`left, repr`right
      ensures old(shape).Fork? && old(shape).l.Fork? && Valid() && Nearest(shape, key)
      ensures Inorder(shape) == Inorder(old(shape).l) && Nodes(shape) == Nodes(old(shape).l)
      ensures shape == Splayed(old(shape).l, key) && steps == Parted(old(shape).l, key).rounds
      ensures tmp == Root(old(shape).r) && Embeds(old(shape).r)
    {
      ghost var t := shape;
      SortedParts(Inorder(t.l), t.x, Inorder(t.r));
      tmp := root.right;
      root := root.left;
      shape, repr := t.l, Nodes(t.l);
      steps := Splay(key);
    }

    method HangRight(tmp: Node?, ghost b: Tree)
      requires Valid() && shape.Fork? && shape.r.Leaf? && tmp == Root(b) && Embeds(b)
      requires Proper(Joined(shape, b)) && Sorted(Inorder(Joined(shape, b)))
      modifies this, root`right
      ensures Valid() && shape == Joined(old(shape), b) && repr == old(repr) + Nodes(b)
    {
      ghost var u := shape;
      root.right := tmp;
      shape, repr := Joined(u, b), Nodes(u) + Nodes(b);
      assert Embeds(u.l) && Embeds(b);
    }

    /** The tree without its root, which has a left subtree: what was right of the
        root goes under the greatest node of what was left of it. */
    method DropRoot(key: int) returns (ghost k: nat, ghost steps: nat)
      requires Valid() && root != null && root.left != null && root.key == key
      modifies this, repr`left, repr`right
      ensures old(shape).Fork? && old(shape).l.Fork? && steps == Parted(old(shape).l, key).rounds
      ensures shape == Joined(Splayed(old(shape).l, key), old(shape).r)
      ensures Valid() && repr <= old(repr) && k < |old(Inorder(shape))| && old(Inorder(shape))[k].key == key
      ensures Inorder(shape) == old(Inorder(shape))[..k] + old(Inorder(shape))[k + 1..]
    {
      ghost var t := shape;
      SortedParts(Inorder(t.l), t.x, Inorder(t.r));
      k := |Inorder(t.l)|;
      var tmp;
      tmp, steps := CutRight(key);
      GreatestBelow(shape, key);
      WithoutRoot(shape, t, Inorder(t.r));
      HangRight(tmp, t.r);
    }

    /** VSPLAY_REMOVE once the splay has brought the key to the root. */
    method DropFound(key: int) returns (ghost k: nat, ghost steps: nat)
      requires Valid() && root != null && root.key == key
      modifies this, repr`left, repr`right
      ensures Valid() && repr <= old(repr) && k < |old(Inorder(shape))| && old(Inorder(shape))[k].key == key
      ensures Inorder(shape) == old(Inorder(shape))[..k] + old(Inorder(shape))[k + 1..]
      ensures old(shape).Fork? && (shape, steps) == WithoutTop(old(shape), key)
    {
      k, steps := 0, 0;
      if root.left == null {
        assert Inorder(shape)[0] == shape.x;
        DropMin();
      } else {
        k, steps := DropRoot(key);
      }
    }

    /** VSPLAY_REMOVE: it gives back its argument when the key was there. */
    method Remove(elm: Node) returns (r: Node?, ghost k: nat, ghost steps: nat)
      requires Valid()
      modifies this, repr`left, repr`right
      ensures Valid() && repr <= old(repr) && (shape, steps) == Removed(old(shape), elm.key)
      ensures r == null ==> Absent(old(Inorder(shape)), elm.key) && Inorder(shape) == old(Inorder(shape))
      ensures r != null ==> r == elm && k < |old(Inorder(shape))| && old(Inorder(shape))[k].key == elm.key
      ensures r != null ==> Inorder(shape) == old(Inorder(shape))[..k] + old(Inorder(shape))[k + 1..]
    {
      r, k, steps := null, 0, 0;
      if root == null {
        return;
      }
      steps := Splay(elm.key);
      NearestHit(shape, elm.key);
      if root.key == elm.key {
        ghost var more;
        k, more := DropFound(elm.key);
        steps := steps + more;
        r := elm;
      }
    }

    /** One round of VSPLAY_MINMAX toward the minimum, as toward a key below all. */
    method StepMin(top: Node, right: Node, ghost key: int, ghost l: Spine, ghost m: Tree, ghost r: Spine)
      returns (done: bool, right': Node, ghost m': Tree, ghost r': Spine)
      requires Split(root, top, l, m, r) && right == Bottom(r, top) && AllAbove(Inorder(m), key)
      modifies `root, right`left, Nodes(m)`left, Nodes(m)`right
      ensures Split(root, top, l, m', r') && right' == Bottom(r', top)
      ensures (done, m', r') == Down(m, r, key)
    {
      done, right', m', r' := true, right, m, r;
      if root.left == null {
        return;
      }
      MemberAbove(m.l, m, key);
      RotateRight(top, l, m, r);
      m' := RotatedRight(m);
      if root.left == null {
        return;
      }
      right' := LinkLeft(top, right, l, m', r);
      done, m', r' := false, m'.l, Link(m'.x, m'.r, r);
    }

    /** One round of VSPLAY_MINMAX toward the maximum. */
    method StepMax(top: Node, left: Node, ghost key: int, ghost l: Spine, ghost m: Tree, ghost r: Spine)
      returns (done: bool, left': Node, ghost l': Spine, ghost m': Tree)
      requires Split(root, top, l, m, r) && left == Bottom(l, top) && AllBelow(Inorder(m), key)
      modifies `root, left`right, Nodes(m)`left, Nodes(m)`right
      ensures Split(root, top, l', m', r) && left' == Bottom(l', top)
      ensures (done, l', m') == Up(l, m, key)
    {
      done, left', l', m' := true, left, l, m;
      if root.right == null {
        return;
      }
      MemberBelow(m.r, m, key);
      RotateLeft(top, l, m, r);
      m' := RotatedLeft(m);
      if root.right == null {
        return;
      }
      left' := LinkRight(top, left, l, m', r);
      done, l', m' := false, Link(m'.x, m'.l, l), m'.r;
    }

    /** The body of the loop of VSPLAY_MINMAX: that of VSPLAY for a key `beyond` all. */
    method RoundMinMax(top: Node, left: Node, right: Node, max: bool, ghost beyond: int, ghost t: Tree, ghost l: Spine,
        ghost m: Tree, ghost r: Spine, ghost steps: nat)
      returns (done: bool, left': Node, right': Node, ghost l': Spine, ghost m': Tree, ghost r': Spine)
      requires Split(root, top, l, m, r) && left == Bottom(l, top) && right == Bottom(r, top)
      requires Passed(t, beyond, l, m, r) && OnCourse(t, beyond, l, Parted(m, beyond), r, steps)
          && Beyond(t, max, beyond)
      modifies `root, left`right, right`left, Nodes(m)`left, Nodes(m)`right
      ensures Split(root, top, l', m', r') && left' == Bottom(l', top) && right' == Bottom(r', top)
      ensures Passed(t, beyond, l', m', r') && if done then Stuck(m', beyond) else Size(m') < Size(m)
      ensures OnCourse(t, beyond, l', if done then Here(m') else Parted(m', beyond), r', steps + 1)
    {
      BeyondMiddle(t, max, beyond, l, m, r);
      left', right', l', r' := left, right, l, r;
      if !max {
        DownPassed(t, beyond, l, m, r);
        DownParted(m, r, beyond);
        done, right', m', r' := StepMin(top, right, beyond, l, m, r);
      } else {
        UpPassed(t, beyond, l, m, r);
        UpParted(l, m, beyond);
        done, left', l', m' := StepMax(top, left, beyond, l, m, r);
      }
    }

    method LoopMinMax(top: Node, max: bool, ghost beyond: int, ghost t: Tree)
      returns (left: Node, right: Node, ghost l: Spine, ghost m: Tree, ghost r: Spine, ghost steps: nat)
      requires Split(root, top, End, t, End) && Sorted(Inorder(t)) && Beyond(t, max, beyond)
      modifies `root, top`left, top`right, Nodes(t)`left, Nodes(t)`right
      ensures Split(root, top, l, m, r) && left == Bottom(l, top) && right == Bottom(r, top)
      ensures Passed(t, beyond, l, m, r) && Stuck(m, beyond) && OnCourse(t, beyond, l, Here(m), r, steps)
    {
      var done := false;
      left, right, l, m, r, steps := top, top, End, t, End, 0;
      assert [] + Inorder(m) + [] == Inorder(m);
      while !done
        invariant Split(root, top, l, m, r) && left == Bottom(l, top) && right == Bottom(r, top)
        invariant Passed(t, beyond, l, m, r) && (done ==> Stuck(m, beyond))
        invariant OnCourse(t, beyond, l, if done then Here(m) else Parted(m, beyond), r, steps)
        decreases !done, Size(m)
      {
        done, left, right, l, m, r := RoundMinMax(top, left, right, max, beyond, t, l, m, r, steps);
        steps := steps + 1;
      }
    }

    /** VSPLAY_MIN_MAX on a tree that is not empty: the first or the last node in the
        order comes to the root, as a splay for a key beyond it would bring it. */
    method MinMax(max: bool) returns (r: Node, ghost beyond: int, ghost steps: nat)
      requires Valid() && root != null
      modifies `root, `shape, repr`left, repr`right
      ensures Valid() && Inorder(shape) == old(Inorder(shape)) && repr == old(repr) && root == r
      ensures |Inorder(shape)| > 0 && r == Inorder(shape)[if max then |Inorder(shape)| - 1 else 0]
      ensures old(shape).Fork? && Beyond(old(shape), max, beyond)
      ensures shape == Splayed(old(shape), beyond) && steps == Parted(old(shape), beyond).rounds
    {
      beyond := SomeBeyond(shape, max);
      var node := new Node(0);
      ghost var l, m, rs;
      var left, right;
      left, right, l, m, rs, steps := LoopMinMax(node, max, beyond, shape);
      BeyondEnds(shape, max, beyond, l, m, rs);
      Finish(node, left, right, shape, l, m, rs);
      r := root;
    }

    /** VSPLAY_NEXT of a node in the tree: its successor in the order, or null. */
    method Next(elm: Node) returns (r: Node?, ghost k: nat)
      requires Valid() && elm in Inorder(shape)
      modifies `root, `shape, repr`left, repr`right
      ensures Valid() && Inorder(shape) == old(Inorder(shape)) && repr == old(repr)
      ensures k < |Inorder(shape)| && Inorder(shape)[k] == elm
      ensures r == if k + 1 < |Inorder(shape)| then Inorder(shape)[k + 1] else null
    {
      ghost var steps := Splay(elm.key);
      NearestIs(shape, elm);
      r := elm.right;
      ghost var t := shape.r;
      k := |Inorder(shape.l)|;
      assert Inorder(shape)[k] == elm;
      if r != null {
        while r.left != null
          invariant t.Fork? && r == t.x && Embeds(t) && Inorder(t)[0] == Inorder(shape.r)[0]
          decreases t
        {
          r := r.left;
          t := t.l;
        }
        assert Inorder(shape)[k + 1] == Inorder(shape.r)[0];
      }
    }
  }
}
