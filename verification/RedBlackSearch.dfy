/** Searching: the order of the keys along the in-order sequence, and the scan of
    that sequence which the descents through the tree must agree with. */
module RedBlackSearch {
  import opened RedBlackShape

  predicate Sorted(s: seq<Node>) {
    forall i, j :: 0 <= i < j < |s| ==> s[i].key < s[j].key
  }

  predicate AllBelow(s: seq<Node>, k: int) {
    forall i :: 0 <= i < |s| ==> s[i].key < k
  }

  predicate AllAbove(s: seq<Node>, k: int) {
    forall i :: 0 <= i < |s| ==> k < s[i].key
  }

  /** How many nodes a scan from the left passes before it meets a key that is
      not below `k`. */
  function Rank(s: seq<Node>, k: int): (r: nat)
    ensures r <= |s|
  {
    if s == [] || k <= s[0].key then 0 else 1 + Rank(s[1..], k)
  }

  /** The first node of `s` whose key is at least `k`. */
  function Scan(s: seq<Node>, k: int): Node? {
    if Rank(s, k) < |s| then s[Rank(s, k)] else null
  }

  lemma {:induction false} RankSplit(a: seq<Node>, b: seq<Node>, k: int)
    requires AllBelow(a, k) && (b == [] || k <= b[0].key)
    ensures Rank(a + b, k) == |a|
  {
    if a == [] {
      assert a + b == b;
    } else {
      assert (a + b)[1..] == a[1..] + b;
      RankSplit(a[1..], b, k);
    }
  }

  predicate Bracketed(ctx: Ctx, k: int) {
    AllBelow(Before(ctx), k) && AllAbove(After(ctx), k)
  }

  lemma SortedAround(p: seq<Node>, x: Node, q: seq<Node>)
    requires Sorted(p + [x] + q)
    ensures AllBelow(p, x.key) && AllAbove(q, x.key)
  {
    var s := p + [x] + q;
    assert s[|p|] == x;
    forall i | 0 <= i < |p| ensures p[i].key < x.key {
      assert s[i] == p[i];
    }
    forall i | 0 <= i < |q| ensures x.key < q[i].key {
      assert s[|p| + 1 + i] == q[i];
    }
  }

  lemma FocusSorted(ctx: Ctx, t: Tree)
    requires t.Branch? && Sorted(Inorder(Plug(ctx, t)))
    ensures AllBelow(Before(ctx) + Inorder(t.left), t.node.key)
    ensures AllAbove(Inorder(t.right) + After(ctx), t.node.key)
  {
    FocusInorder(ctx, t);
    SortedAround(Before(ctx) + Inorder(t.left), t.node, Inorder(t.right) + After(ctx));
  }

  lemma {:induction false} DescendLeft(ctx: Ctx, t: Tree, k: int)
    requires t.Branch? && Sorted(Inorder(Plug(ctx, t))) && Bracketed(ctx, k) && k < t.node.key
    ensures Bracketed(Hole(Left, t.color, t.node, t.right, ctx), k)
  {
    FocusSorted(ctx, t);
    var q := Inorder(t.right) + After(ctx);
    var after := After(Hole(Left, t.color, t.node, t.right, ctx));
    assert after == [t.node] + q;
  }

  lemma {:induction false} DescendRight(ctx: Ctx, t: Tree, k: int)
    requires t.Branch? && Sorted(Inorder(Plug(ctx, t))) && Bracketed(ctx, k) && t.node.key < k
    ensures Bracketed(Hole(Right, t.color, t.node, t.left, ctx), k)
  {
    FocusSorted(ctx, t);
    var p := Before(ctx) + Inorder(t.left);
    var before := Before(Hole(Right, t.color, t.node, t.left, ctx));
    assert before == p + [t.node];
  }

  /** The focused node carries the key: the scan stops at it. */
  lemma {:induction false} ScanHit(ctx: Ctx, t: Tree)
    requires t.Branch? && Sorted(Inorder(Plug(ctx, t)))
    ensures Scan(Inorder(Plug(ctx, t)), t.node.key) == t.node
  {
    var p, q := Before(ctx) + Inorder(t.left), Inorder(t.right) + After(ctx);
    FocusSorted(ctx, t);
    FocusInorder(ctx, t);
    assert p + [t.node] + q == p + ([t.node] + q);
    RankSplit(p, [t.node] + q, t.node.key);
  }

  /** The descent has run off the tree: the scan stops just behind the context. */
  lemma {:induction false} ScanMiss(ctx: Ctx, k: int)
    requires Bracketed(ctx, k)
    ensures Inorder(Plug(ctx, Leaf)) == Before(ctx) + After(ctx)
    ensures Rank(Inorder(Plug(ctx, Leaf)), k) == |Before(ctx)|
    ensures Scan(Inorder(Plug(ctx, Leaf)), k) == if After(ctx) == [] then null else After(ctx)[0]
  {
    PlugInorder(ctx, Leaf);
    assert Inorder(Plug(ctx, Leaf)) == Before(ctx) + After(ctx);
    RankSplit(Before(ctx), After(ctx), k);
  }

  lemma InsertSorted(a: seq<Node>, x: Node, b: seq<Node>)
    requires Sorted(a + b) && AllBelow(a, x.key) && AllAbove(b, x.key)
    ensures Sorted(a + [x] + b)
  {
    var s, s' := a + b, a + [x] + b;
    forall i, j | 0 <= i < j < |s'| ensures s'[i].key < s'[j].key {
      if i != |a| && j != |a| {
        assert s'[i] == s[if i < |a| then i else i - 1] && s'[j] == s[if j < |a| then j else j - 1];
      }
    }
  }

  lemma SortedWithoutMiddle(p: seq<Node>, x: Node, q: seq<Node>)
    requires Sorted(p + [x] + q)
    ensures Sorted(p + q)
  {
    var s, s' := p + [x] + q, p + q;
    forall i, j | 0 <= i < j < |s'| ensures s'[i].key < s'[j].key {
      assert s'[i] == s[if i < |p| then i else i + 1] && s'[j] == s[if j < |p| then j else j + 1];
    }
  }

  lemma WithoutSorted(ctx: Ctx, t: Tree)
    requires t.Branch? && Distinct(Plug(ctx, t)) && Sorted(Inorder(Plug(ctx, t)))
    ensures Sorted(Without(Inorder(Plug(ctx, t)), t.node))
  {
    WithoutFocus(ctx, t);
    FocusInorder(ctx, t);
    SortedWithoutMiddle(Before(ctx) + Inorder(t.left), t.node, Inorder(t.right) + After(ctx));
  }

  // ---------- the keys of a sequence ----------

  function Keys(s: seq<Node>): set<int> {
    if s == [] then {} else {s[0].key} + Keys(s[1..])
  }

  lemma {:induction false} KeysAppend(a: seq<Node>, b: seq<Node>)
    ensures Keys(a + b) == Keys(a) + Keys(b)
  {
    if a == [] {
      assert a + b == b;
    } else {
      assert (a + b)[1..] == a[1..] + b;
      KeysAppend(a[1..], b);
    }
  }

  lemma KeysInserted(s: seq<Node>, i: nat, x: Node)
    requires i <= |s|
    ensures Keys(s[..i] + [x] + s[i..]) == Keys(s) + {x.key}
  {
    KeysAppend(s[..i], s[i..]);
    assert s[..i] + s[i..] == s;
    KeysAppend(s[..i] + [x], s[i..]);
    KeysAppend(s[..i], [x]);
  }

  lemma {:induction false} KeysAbove(s: seq<Node>, k: int)
    requires AllAbove(s, k)
    ensures k !in Keys(s)
  {
    if s != [] {
      KeysAbove(s[1..], k);
    }
  }

  lemma {:induction false} KeysWithout(s: seq<Node>, x: Node)
    requires Sorted(s) && x in s
    ensures Keys(Without(s, x)) == Keys(s) - {x.key}
  {
    if s[0] == x {
      KeysAbove(s[1..], x.key);
    } else {
      KeysWithout(s[1..], x);
      assert s[0].key != x.key by {
        var i :| 0 <= i < |s| && s[i] == x;
        assert s[0].key < s[i].key;
      }
      assert Without(s, x)[1..] == Without(s[1..], x);
    }
  }

  /** The scan meets a key exactly when some node of the sequence has it. */
  lemma {:induction false} KeysScanned(s: seq<Node>, k: int)
    requires Sorted(s)
    ensures (Scan(s, k) != null && Scan(s, k).key == k) <==> k in Keys(s)
  {
    if s != [] {
      if s[0].key < k {
        KeysScanned(s[1..], k);
      } else if k < s[0].key {
        KeysAbove(s, k);
      }
    }
  }

  lemma {:induction false} KeysHas(s: seq<Node>, x: Node)
    requires x in s
    ensures x.key in Keys(s)
  {
    if s[0] != x {
      KeysHas(s[1..], x);
    }
  }
}
