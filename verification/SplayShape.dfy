/** The trees that the top-down splay loop works on: a middle tree, and the two
    spines on which the loop hangs what it has passed. */
module SplayShape {

  class Node {
    const key: int
    var left: Node?
    var right: Node?

    constructor (key: int)
      ensures this.key == key && left == null && right == null
    {
      this.key := key;
      left, right := null, null;
    }
  }

  datatype Tree = Leaf | Fork(l: Tree, x: Node, r: Tree)

  /** A spine from its bottom up: each node with the subtree on its outer side.  The
      inner link of the bottom node is not part of the spine. */
  datatype Spine = End | Link(x: Node, side: Tree, rest: Spine)

  function Root(t: Tree): Node? {
    if t.Leaf? then null else t.x
  }

  function Nodes(t: Tree): set<Node> {
    if t.Leaf? then {} else Nodes(t.l) + {t.x} + Nodes(t.r)
  }

  lemma {:induction false} InorderHas(t: Tree, x: Node)
    ensures x in Inorder(t) <==> x in Nodes(t)
  {
    if t.Fork? {
      InorderHas(t.l, x);
      InorderHas(t.r, x);
    }
  }

  function SpineNodes(s: Spine): set<Node> {
    if s.End? then {} else {s.x} + Nodes(s.side) + SpineNodes(s.rest)
  }

  /** The node to whose inner link the next tree is attached. */
  function Bottom(s: Spine, top: Node): (r: Node)
    ensures if s.End? then r == top else r in SpineNodes(s)
  {
    if s.End? then top else s.x
  }

  function Size(t: Tree): nat {
    if t.Leaf? then 0 else Size(t.l) + 1 + Size(t.r)
  }

  function Inorder(t: Tree): seq<Node> {
    if t.Leaf? then [] else Inorder(t.l) + [t.x] + Inorder(t.r)
  }

  function InorderLeft(s: Spine): seq<Node> {
    if s.End? then [] else InorderLeft(s.rest) + Inorder(s.side) + [s.x]
  }

  function InorderRight(s: Spine): seq<Node> {
    if s.End? then [] else [s.x] + Inorder(s.side) + InorderRight(s.rest)
  }

  ghost predicate Proper(t: Tree) {
    t.Fork? ==>
      t.x !in Nodes(t.l) && t.x !in Nodes(t.r) && Nodes(t.l) !! Nodes(t.r) && Proper(t.l) && Proper(t.r)
  }

  ghost predicate ProperSpine(s: Spine) {
    s.Link? ==>
      s.x !in Nodes(s.side) && s.x !in SpineNodes(s.rest) && Nodes(s.side) !! SpineNodes(s.rest)
      && Proper(s.side) && ProperSpine(s.rest)
  }

  ghost predicate Embeds(t: Tree)
    reads Nodes(t)`left, Nodes(t)`right
  {
    t.Fork? ==> t.x.left == Root(t.l) && t.x.right == Root(t.r) && Embeds(t.l) && Embeds(t.r)
  }

  /** The tree of smaller nodes hangs on top.right, linked by right pointers. */
  ghost predicate EmbedsLeft(s: Spine, top: Node)
    reads SpineNodes(s)`left, SpineNodes(s)`right, top`right
  {
    s.Link? ==>
      s.x.left == Root(s.side) && Embeds(s.side) && Bottom(s.rest, top).right == s.x && EmbedsLeft(s.rest, top)
  }

  /** The tree of larger nodes hangs on top.left, linked by left pointers. */
  ghost predicate EmbedsRight(s: Spine, top: Node)
    reads SpineNodes(s)`left, SpineNodes(s)`right, top`left
  {
    s.Link? ==>
      s.x.right == Root(s.side) && Embeds(s.side) && Bottom(s.rest, top).left == s.x && EmbedsRight(s.rest, top)
  }

  /** The spine of smaller nodes closed with `t` at its bottom. */
  function PlugLeft(s: Spine, t: Tree): Tree {
    if s.End? then t else PlugLeft(s.rest, Fork(s.side, s.x, t))
  }

  function PlugRight(s: Spine, t: Tree): Tree {
    if s.End? then t else PlugRight(s.rest, Fork(t, s.x, s.side))
  }

  lemma Regroup(a: seq<Node>, b: seq<Node>, c: seq<Node>, d: seq<Node>)
    ensures a + (b + c + d) == a + b + c + d
  {
  }

  lemma Assoc(a: seq<Node>, b: seq<Node>, c: seq<Node>)
    ensures a + (b + c) == a + b + c
  {
  }

  lemma {:induction false} PlugLeftInorder(s: Spine, t: Tree)
    ensures Inorder(PlugLeft(s, t)) == InorderLeft(s) + Inorder(t)
    decreases s
  {
    if s.Link? {
      PlugLeftInorder(s.rest, Fork(s.side, s.x, t));
      Regroup(InorderLeft(s.rest), Inorder(s.side), [s.x], Inorder(t));
    }
  }

  lemma {:induction false} PlugRightInorder(s: Spine, t: Tree)
    ensures Inorder(PlugRight(s, t)) == Inorder(t) + InorderRight(s)
    decreases s
  {
    if s.Link? {
      PlugRightInorder(s.rest, Fork(t, s.x, s.side));
      Regroup(Inorder(t), [s.x], Inorder(s.side), InorderRight(s.rest));
    }
  }

  lemma {:induction false} PlugLeftProper(s: Spine, t: Tree)
    requires ProperSpine(s) && Proper(t) && SpineNodes(s) !! Nodes(t)
    ensures Proper(PlugLeft(s, t)) && Nodes(PlugLeft(s, t)) == SpineNodes(s) + Nodes(t)
    decreases s
  {
    if s.Link? {
      PlugLeftProper(s.rest, Fork(s.side, s.x, t));
    }
  }

  lemma {:induction false} PlugRightProper(s: Spine, t: Tree)
    requires ProperSpine(s) && Proper(t) && SpineNodes(s) !! Nodes(t)
    ensures Proper(PlugRight(s, t)) && Nodes(PlugRight(s, t)) == SpineNodes(s) + Nodes(t)
    decreases s
  {
    if s.Link? {
      PlugRightProper(s.rest, Fork(t, s.x, s.side));
    }
  }

  /** Closing the spine: once the bottom's inner link is the root of `t`. */
  lemma {:induction false} PlugLeftEmbeds(s: Spine, t: Tree, top: Node)
    requires ProperSpine(s) && SpineNodes(s) !! Nodes(t) && top !in SpineNodes(s) + Nodes(t)
    requires EmbedsLeft(s, top) && Embeds(t) && Bottom(s, top).right == Root(t)
    ensures Embeds(PlugLeft(s, t)) && top.right == Root(PlugLeft(s, t))
    decreases s
  {
    if s.Link? {
      PlugLeftEmbeds(s.rest, Fork(s.side, s.x, t), top);
    }
  }

  lemma {:induction false} PlugRightEmbeds(s: Spine, t: Tree, top: Node)
    requires ProperSpine(s) && SpineNodes(s) !! Nodes(t) && top !in SpineNodes(s) + Nodes(t)
    requires EmbedsRight(s, top) && Embeds(t) && Bottom(s, top).left == Root(t)
    ensures Embeds(PlugRight(s, t)) && top.left == Root(PlugRight(s, t))
    decreases s
  {
    if s.Link? {
      PlugRightEmbeds(s.rest, Fork(t, s.x, s.side), top);
    }
  }

  /** Strictly increasing keys. */
  ghost predicate Sorted(s: seq<Node>) {
    forall i, j :: 0 <= i < j < |s| ==> s[i].key < s[j].key
  }

  ghost predicate AllBelow(s: seq<Node>, key: int) {
    forall i :: 0 <= i < |s| ==> s[i].key < key
  }

  ghost predicate AllAbove(s: seq<Node>, key: int) {
    forall i :: 0 <= i < |s| ==> key < s[i].key
  }

  lemma SortedParts(a: seq<Node>, x: Node, b: seq<Node>)
    requires Sorted(a + [x] + b)
    ensures Sorted(a) && Sorted(b) && AllBelow(a, x.key) && AllAbove(b, x.key)
  {
    var s := a + [x] + b;
    assert forall i :: 0 <= i < |a| ==> s[i] == a[i];
    assert s[|a|] == x;
    assert forall i :: 0 <= i < |b| ==> s[|a| + 1 + i] == b[i];
  }

  lemma SortedJoin(a: seq<Node>, x: Node, b: seq<Node>)
    requires Sorted(a) && Sorted(b) && AllBelow(a, x.key) && AllAbove(b, x.key)
    ensures Sorted(a + [x] + b)
  {
  }
}
