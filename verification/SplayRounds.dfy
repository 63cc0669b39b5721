/** The rounds of a splay, as functions on trees and spines, and the tree that a
    whole splay makes. */
module SplayRounds {
  import opened SplayShape

  function RotatedRight(m: Tree): Tree
    requires m.Fork? && m.l.Fork?
  {
    Fork(m.l.l, m.l.x, Fork(m.l.r, m.x, m.r))
  }

  function RotatedLeft(m: Tree): Tree
    requires m.Fork? && m.r.Fork?
  {
    Fork(Fork(m.l, m.x, m.r.l), m.r.x, m.r.r)
  }

  lemma RotatedRightInorder(m: Tree)
    requires m.Fork? && m.l.Fork?
    ensures Inorder(RotatedRight(m)) == Inorder(m)
  {
    Regroup(Inorder(m.l.l) + [m.l.x], Inorder(m.l.r), [m.x], Inorder(m.r));
  }

  lemma RotatedLeftInorder(m: Tree)
    requires m.Fork? && m.r.Fork?
    ensures Inorder(RotatedLeft(m)) == Inorder(m)
  {
    Regroup(Inorder(m.l) + [m.x], Inorder(m.r.l), [m.r.x], Inorder(m.r.r));
  }

  lemma RotatedRightProper(m: Tree)
    requires m.Fork? && m.l.Fork? && Proper(m)
    ensures Proper(RotatedRight(m)) && Nodes(RotatedRight(m)) == Nodes(m)
  {
    assert Proper(m.l);
    assert Proper(Fork(m.l.r, m.x, m.r));
  }

  lemma RotatedLeftProper(m: Tree)
    requires m.Fork? && m.r.Fork? && Proper(m)
    ensures Proper(RotatedLeft(m)) && Nodes(RotatedLeft(m)) == Nodes(m)
  {
    assert Proper(m.r);
    assert Proper(Fork(m.l, m.x, m.r.l));
  }

  function Whole(l: Spine, m: Tree, r: Spine): seq<Node> {
    InorderLeft(l) + Inorder(m) + InorderRight(r)
  }

  /** The rotation at the beginning of a round below the root's key, if it is due. */
  function Lowered(m: Tree, key: int): (n: Tree)
    requires m.Fork?
    ensures n.Fork? && Size(n) == Size(m)
  {
    if m.l.Fork? && key < m.l.x.key then RotatedRight(m) else m
  }

  function Raised(m: Tree, key: int): (n: Tree)
    requires m.Fork?
    ensures n.Fork? && Size(n) == Size(m)
  {
    if m.r.Fork? && m.r.x.key < key then RotatedLeft(m) else m
  }

  /** One round below the root's key: whether the loop ends, and what it leaves. */
  function Down(m: Tree, r: Spine, key: int): (bool, Tree, Spine)
    requires m.Fork?
  {
    var n := Lowered(m, key);
    if n.l.Leaf? then (true, n, r) else (false, n.l, Link(n.x, n.r, r))
  }

  /** One round above the root's key. */
  function Up(l: Spine, m: Tree, key: int): (bool, Spine, Tree)
    requires m.Fork?
  {
    var n := Raised(m, key);
    if n.r.Leaf? then (true, l, n) else (false, Link(n.x, n.l, l), n.r)
  }

  /** A tree taken apart at the node that a splay brings up, and how many rounds of
      the loop that takes. */
  datatype Parts = Parts(a: Tree, x: Node, b: Tree, rounds: nat)

  function Here(m: Tree): Parts
    requires m.Fork?
  {
    Parts(m.l, m.x, m.r, 0)
  }

  function Parted(t: Tree, key: int): Parts
    requires t.Fork?
    decreases Size(t)
  {
    if key == t.x.key then Here(t)
    else if key < t.x.key then
      var n := Lowered(t, key);
      if n.l.Leaf? then Here(n).(rounds := 1)
      else
        var p := Parted(n.l, key);
        Parts(p.a, p.x, Fork(p.b, n.x, n.r), p.rounds + 1)
    else
      var n := Raised(t, key);
      if n.r.Leaf? then Here(n).(rounds := 1)
      else
        var p := Parted(n.r, key);
        Parts(Fork(n.l, n.x, p.a), p.x, p.b, p.rounds + 1)
  }

  /** The tree after a splay. */
  function Splayed(t: Tree, key: int): Tree
    requires t.Fork?
  {
    var p := Parted(t, key);
    Fork(p.a, p.x, p.b)
  }

  /** Each operation: the tree afterwards, and the rounds it takes. */
  function Found(t: Tree, key: int): (Tree, nat) {
    if t.Leaf? then (t, 0) else (Splayed(t, key), Parted(t, key).rounds)
  }

  function Inserted(t: Tree, elm: Node): (Tree, nat) {
    if t.Leaf? then (Fork(Leaf, elm, Leaf), 0)
    else
      var s := Splayed(t, elm.key);
      (if elm.key < s.x.key then Fork(s.l, elm, Fork(Leaf, s.x, s.r))
       else if s.x.key < elm.key then Fork(Fork(s.l, s.x, Leaf), elm, s.r)
       else s,
       Parted(t, elm.key).rounds)
  }

  /** `b` hung below the root of `u`, on its right side. */
  function Joined(u: Tree, b: Tree): Tree
    requires u.Fork?
  {
    Fork(u.l, u.x, b)
  }

  function WithoutTop(s: Tree, key: int): (Tree, nat)
    requires s.Fork?
  {
    if s.l.Leaf? then (s.r, 0) else (Joined(Splayed(s.l, key), s.r), Parted(s.l, key).rounds)
  }

  function Removed(t: Tree, key: int): (Tree, nat) {
    if t.Leaf? then (t, 0)
    else
      var s, n := Splayed(t, key), Parted(t, key).rounds;
      if s.x.key != key then (s, n) else (WithoutTop(s, key).0, n + WithoutTop(s, key).1)
  }

  /** After `steps` rounds: closing the spines around what the rest of the loop will
      make of the middle gives the whole result. */
  ghost predicate OnCourse(t: Tree, key: int, l: Spine, p: Parts, r: Spine, steps: nat)
    requires t.Fork?
  {
    Parted(t, key) == Parts(PlugLeft(l, p.a), p.x, PlugRight(r, p.b), steps + p.rounds)
  }

  lemma DownParted(m: Tree, r: Spine, key: int)
    requires m.Fork? && key < m.x.key
    ensures
      var (done, m', r') := Down(m, r, key);
      var p, p' := Parted(m, key), if done then Here(m') else Parted(m', key);
      p.a == p'.a && p.x == p'.x && PlugRight(r, p.b) == PlugRight(r', p'.b) && p.rounds == p'.rounds + 1
  {
  }

  lemma UpParted(l: Spine, m: Tree, key: int)
    requires m.Fork? && m.x.key < key
    ensures
      var (done, l', m') := Up(l, m, key);
      var p, p' := Parted(m, key), if done then Here(m') else Parted(m', key);
      PlugLeft(l, p.a) == PlugLeft(l', p'.a) && p.x == p'.x && p.b == p'.b && p.rounds == p'.rounds + 1
  {
  }

  lemma LinkAbove(m: Tree, r: Spine, key: int)
    requires m.Fork? && Sorted(Inorder(m)) && key < m.x.key && AllAbove(InorderRight(r), key)
    ensures Sorted(Inorder(m.l)) && AllAbove(InorderRight(Link(m.x, m.r, r)), key)
    ensures Inorder(m.l) + InorderRight(Link(m.x, m.r, r)) == Inorder(m) + InorderRight(r)
  {
    SortedParts(Inorder(m.l), m.x, Inorder(m.r));
    Regroup(Inorder(m.l), [m.x], Inorder(m.r), InorderRight(r));
  }

  lemma LinkBelow(l: Spine, m: Tree, key: int)
    requires m.Fork? && Sorted(Inorder(m)) && m.x.key < key && AllBelow(InorderLeft(l), key)
    ensures Sorted(Inorder(m.r)) && AllBelow(InorderLeft(Link(m.x, m.l, l)), key)
    ensures InorderLeft(Link(m.x, m.l, l)) + Inorder(m.r) == InorderLeft(l) + Inorder(m)
  {
    SortedParts(Inorder(m.l), m.x, Inorder(m.r));
    Regroup(InorderLeft(l), Inorder(m.l), [m.x], Inorder(m.r));
  }

  /** Where the loop stops short of the key. */
  ghost predicate Stuck(m: Tree, key: int) {
    m.Fork? && ((key < m.x.key && m.l.Leaf?) || (m.x.key < key && m.r.Leaf?))
  }

  lemma WholeDown(l: Spine, m: Tree, r: Spine, m': Tree, r': Spine)
    requires Inorder(m') + InorderRight(r') == Inorder(m) + InorderRight(r)
    ensures Whole(l, m', r') == Whole(l, m, r)
  {
    Assoc(InorderLeft(l), Inorder(m), InorderRight(r));
    Assoc(InorderLeft(l), Inorder(m'), InorderRight(r'));
  }

  /** What the loop keeps: the order and the nodes of the tree it started with, and
      on the spines only what is on the right side of the key. */
  ghost predicate Passed(t: Tree, key: int, l: Spine, m: Tree, r: Spine) {
    && Whole(l, m, r) == Inorder(t) && SpineNodes(l) + Nodes(m) + SpineNodes(r) == Nodes(t)
    && Sorted(Inorder(m)) && AllBelow(InorderLeft(l), key) && AllAbove(InorderRight(r), key)
  }

  lemma LoweredKeeps(m: Tree, key: int)
    requires m.Fork?
    ensures Inorder(Lowered(m, key)) == Inorder(m) && Nodes(Lowered(m, key)) == Nodes(m)
  {
    if m.l.Fork? && key < m.l.x.key {
      RotatedRightInorder(m);
    }
  }

  lemma RaisedKeeps(m: Tree, key: int)
    requires m.Fork?
    ensures Inorder(Raised(m, key)) == Inorder(m) && Nodes(Raised(m, key)) == Nodes(m)
  {
    if m.r.Fork? && m.r.x.key < key {
      RotatedLeftInorder(m);
    }
  }

  lemma DownPassed(t: Tree, key: int, l: Spine, m: Tree, r: Spine)
    requires m.Fork? && key < m.x.key && Passed(t, key, l, m, r)
    ensures var (done, m', r') := Down(m, r, key);
            Passed(t, key, l, m', r') && if done then Stuck(m', key) else Size(m') < Size(m)
  {
    LoweredKeeps(m, key);
    var n := Lowered(m, key);
    if n.l.Fork? {
      LinkAbove(n, r, key);
      WholeDown(l, m, r, n.l, Link(n.x, n.r, r));
      assert Nodes(n.l) + SpineNodes(Link(n.x, n.r, r)) == Nodes(n) + SpineNodes(r);
    }
  }

  lemma UpPassed(t: Tree, key: int, l: Spine, m: Tree, r: Spine)
    requires m.Fork? && m.x.key < key && Passed(t, key, l, m, r)
    ensures var (done, l', m') := Up(l, m, key);
            Passed(t, key, l', m', r) && if done then Stuck(m', key) else Size(m') < Size(m)
  {
    RaisedKeeps(m, key);
    var n := Raised(m, key);
    if n.r.Fork? {
      LinkBelow(l, n, key);
      assert SpineNodes(Link(n.x, n.l, l)) + Nodes(n.r) == SpineNodes(l) + Nodes(n);
    }
  }

  // ---------- the first and the last node ----------

  /** A key above all of the tree, or below. */
  ghost predicate Beyond(t: Tree, max: bool, key: int) {
    if max then AllBelow(Inorder(t), key) else AllAbove(Inorder(t), key)
  }

  lemma SomeBeyond(t: Tree, max: bool) returns (key: int)
    requires Sorted(Inorder(t))
    ensures Beyond(t, max, key)
  {
    var s := Inorder(t);
    key := if s == [] then 0 else if max then s[|s| - 1].key + 1 else s[0].key - 1;
  }

  lemma MemberAbove(u: Tree, m: Tree, key: int)
    requires m.Fork? && AllAbove(Inorder(m), key) && u.Fork? && (u == m.l || u == m)
    ensures key < u.x.key
  {
    InorderHas(m, u.x);
  }

  lemma MemberBelow(u: Tree, m: Tree, key: int)
    requires m.Fork? && AllBelow(Inorder(m), key) && u.Fork? && (u == m.r || u == m)
    ensures u.x.key < key
  {
    InorderHas(m, u.x);
  }

  lemma BeyondMiddle(t: Tree, max: bool, key: int, l: Spine, m: Tree, r: Spine)
    requires m.Fork? && Beyond(t, max, key) && Passed(t, key, l, m, r)
    ensures Beyond(m, max, key) && (if max then m.x.key < key else key < m.x.key)
  {
    var a, b := InorderLeft(l), Inorder(m);
    assert forall i :: 0 <= i < |b| ==> b[i] == Inorder(t)[|a| + i];
    if max {
      MemberBelow(m, m, key);
    } else {
      MemberAbove(m, m, key);
    }
  }

  /** Once the loop has ended, nothing is left on the side of the key. */
  lemma BeyondEnds(t: Tree, max: bool, key: int, l: Spine, m: Tree, r: Spine)
    requires Beyond(t, max, key) && Passed(t, key, l, m, r) && Stuck(m, key)
    ensures if max then m.r.Leaf? && r == End else m.l.Leaf? && l == End
  {
    BeyondMiddle(t, max, key, l, m, r);
    var a, b, c := InorderLeft(l), Inorder(m), InorderRight(r);
    assert forall i :: 0 <= i < |c| ==> c[i] == Inorder(t)[|a| + |b| + i];
    assert forall i :: 0 <= i < |a| ==> a[i] == Inorder(t)[i];
    NothingBetween(if max then c else a, key);
  }

  lemma FirstBelow(s: seq<Node>, key: int)
    requires AllBelow(s, key)
    ensures s == [] || s[0].key < key
  {
  }

  lemma NothingBetween(s: seq<Node>, key: int)
    requires AllBelow(s, key) && AllAbove(s, key)
    ensures s == []
  {
    FirstBelow(s, key);
  }
}
