/** The amortised cost of splaying: every round of the loop is paid by a potential
    of the tree, so that a long run of operations costs no more than if every one
    of them had met a balanced tree. */
module SplayCost {
  import opened SplayShape
  import opened SplayRounds

  /** The logarithm to base two, rounded down. */
  function Lg(n: nat): nat {
    if n <= 1 then 0 else 1 + Lg(n / 2)
  }

  function Rank(n: nat): nat {
    2 * Lg(n)
  }

  function Potential(t: Tree): nat {
    if t.Leaf? then 0 else Rank(Size(t)) + Potential(t.l) + Potential(t.r)
  }

  lemma {:induction false} RankGrows(a: nat, b: nat)
    requires a <= b
    ensures Rank(a) <= Rank(b)
    decreases b
  {
    if 1 < a {
      RankGrows(a / 2, b / 2);
    }
  }

  /** Two parts of `n` cannot both be nearly as large as `n`. */
  lemma {:induction false} TwoParts(a: nat, b: nat, n: nat)
    requires 1 <= a && 1 <= b && a + b <= n
    ensures Rank(a) + Rank(b) + 2 <= 2 * Rank(n)
  {
    var c, d := if a <= b then a else b, if a <= b then b else a;
    RankGrows(c, d);
    RankGrows(d, n);
    RankGrows(2 * c, n);
    assert Lg(2 * c) == 1 + Lg(c);
  }

  lemma {:induction false} PartedSize(t: Tree, key: int)
    requires t.Fork?
    ensures Size(Parted(t, key).a) + 1 + Size(Parted(t, key).b) == Size(t)
    decreases Size(t)
  {
    if key < t.x.key {
      var n := Lowered(t, key);
      if n.l.Fork? {
        PartedSize(n.l, key);
      }
    } else if t.x.key < key {
      var n := Raised(t, key);
      if n.r.Fork? {
        PartedSize(n.r, key);
      }
    }
  }

  /** What taking `t` apart at the key costs is covered by what the potential loses,
      up to twice the rank of the tree and one round. */
  ghost predicate Covered(t: Tree, key: int)
    requires t.Fork?
  {
    var p := Parted(t, key);
    p.rounds + Potential(p.a) + Potential(p.b) <= Potential(t) + 2 * Rank(Size(t)) + 1
  }

  /** A rotation and a link. */
  lemma {:induction false} ZigZigDown(t: Tree, key: int)
    requires t.Fork? && key < t.x.key && t.l.Fork? && key < t.l.x.key && (t.l.l.Fork? ==> Covered(t.l.l, key))
    ensures Covered(t, key)
  {
    var n := RotatedRight(t);
    assert Size(t.l) == Size(n.l) + 1 + Size(t.l.r) && Size(t) == Size(n.l) + 1 + Size(n.r);
    RankGrows(Size(n.r), Size(t));
    if n.l.Fork? {
      var p := Parted(n.l, key);
      PartedSize(n.l, key);
      TwoParts(Size(n.l), Size(n.r), Size(t));
      RankGrows(Size(Fork(p.b, n.x, n.r)), Size(t));
      RankGrows(Size(n.l), Size(t.l));
    }
  }

  lemma {:induction false} ZigZigUp(t: Tree, key: int)
    requires t.Fork? && t.x.key < key && t.r.Fork? && t.r.x.key < key && (t.r.r.Fork? ==> Covered(t.r.r, key))
    ensures Covered(t, key)
  {
    var n := RotatedLeft(t);
    assert Size(t.r) == Size(t.r.l) + 1 + Size(n.r) && Size(t) == Size(n.l) + 1 + Size(n.r);
    RankGrows(Size(n.l), Size(t));
    if n.r.Fork? {
      var p := Parted(n.r, key);
      PartedSize(n.r, key);
      TwoParts(Size(n.l), Size(n.r), Size(t));
      RankGrows(Size(Fork(n.l, n.x, p.a)), Size(t));
      RankGrows(Size(n.r), Size(t.r));
    }
  }

  /** A link, and what the next round does, which is on the other side. */
  lemma {:induction false} ZigDown(t: Tree, key: int)
    requires t.Fork? && key < t.x.key && t.l.Fork? && t.l.x.key <= key
    requires t.l.r.Fork? ==> Covered(t.l.r, key)
    requires t.l.r.Fork? && t.l.r.r.Fork? ==> Covered(t.l.r.r, key)
    ensures Covered(t, key)
  {
    var l := t.l;
    var p := Parted(l, key);
    PartedSize(l, key);
    RankGrows(Size(Fork(p.b, t.x, t.r)), Size(t));
    RankGrows(2, Size(t));
    if l.x.key < key && l.r.Fork? {
      var n := Raised(l, key);
      RankGrows(Size(l), Size(t));
      RankGrows(Size(n.l), Size(l));
      if n.r.Fork? {
        var q := Parted(n.r, key);
        PartedSize(n.r, key);
        RankGrows(Size(n.r), Size(l.r));
        if l.r.x.key < key {
          TwoParts(Size(n.l), Size(n.r), Size(l));
          RankGrows(Size(Fork(n.l, n.x, q.a)), Size(l));
        } else {
          TwoParts(Size(Fork(n.l, n.x, q.a)), Size(Fork(p.b, t.x, t.r)), Size(t));
          RankGrows(Size(l.r), Size(l));
        }
      }
    }
  }

  lemma {:induction false} ZigUp(t: Tree, key: int)
    requires t.Fork? && t.x.key < key && t.r.Fork? && key <= t.r.x.key
    requires t.r.l.Fork? ==> Covered(t.r.l, key)
    requires t.r.l.Fork? && t.r.l.l.Fork? ==> Covered(t.r.l.l, key)
    ensures Covered(t, key)
  {
    var r := t.r;
    var p := Parted(r, key);
    PartedSize(r, key);
    RankGrows(Size(Fork(t.l, t.x, p.a)), Size(t));
    RankGrows(2, Size(t));
    if key < r.x.key && r.l.Fork? {
      var n := Lowered(r, key);
      RankGrows(Size(r), Size(t));
      RankGrows(Size(n.r), Size(r));
      if n.l.Fork? {
        var q := Parted(n.l, key);
        PartedSize(n.l, key);
        RankGrows(Size(n.l), Size(r.l));
        if key < r.l.x.key {
          TwoParts(Size(n.r), Size(n.l), Size(r));
          RankGrows(Size(Fork(q.b, n.x, n.r)), Size(r));
        } else {
          TwoParts(Size(Fork(q.b, n.x, n.r)), Size(Fork(t.l, t.x, p.a)), Size(t));
          RankGrows(Size(r.l), Size(r));
        }
      }
    }
  }

  lemma {:induction false} AllCovered(t: Tree, key: int)
    requires t.Fork?
    ensures Covered(t, key)
    decreases t
  {
    if key < t.x.key && t.l.Fork? {
      if key < t.l.x.key {
        if t.l.l.Fork? {
          AllCovered(t.l.l, key);
        }
        ZigZigDown(t, key);
      } else {
        if t.l.r.Fork? {
          AllCovered(t.l.r, key);
          if t.l.r.r.Fork? {
            AllCovered(t.l.r.r, key);
          }
        }
        ZigDown(t, key);
      }
    } else if t.x.key < key && t.r.Fork? {
      if t.r.x.key < key {
        if t.r.r.Fork? {
          AllCovered(t.r.r, key);
        }
        ZigZigUp(t, key);
      } else {
        if t.r.l.Fork? {
          AllCovered(t.r.l, key);
          if t.r.l.l.Fork? {
            AllCovered(t.r.l.l, key);
          }
        }
        ZigUp(t, key);
      }
    }
  }

  // ---------- the operations ----------

  lemma {:induction false} PotentialOf(a: Tree, x: Node, b: Tree)
    ensures Potential(Fork(a, x, b)) == Rank(Size(a) + 1 + Size(b)) + Potential(a) + Potential(b)
  {
  }

  /** What AllCovered says, with the two parts named. */
  lemma {:induction false} PartsPay(t: Tree, key: int, a: Tree, x: Node, b: Tree, n: nat)
    requires t.Fork? && Splayed(t, key) == Fork(a, x, b) && Size(t) <= n
    ensures Parted(t, key).rounds + Potential(a) + Potential(b) <= Potential(t) + 2 * Rank(n) + 1
    ensures Size(a) + 1 + Size(b) == Size(t)
  {
    AllCovered(t, key);
    PartedSize(t, key);
    RankGrows(Size(t), n);
  }

  // In what follows `n` is at least the size of the tree before and after.

  lemma {:induction false} FoundPays(t: Tree, key: int, n: nat)
    requires Size(t) <= n
    ensures var (t', rounds) := Found(t, key);
            rounds + Potential(t') <= Potential(t) + 3 * Rank(n) + 1 && Size(t') == Size(t)
  {
    if t.Fork? {
      var s := Splayed(t, key);
      PartsPay(t, key, s.l, s.x, s.r, n);
      PotentialOf(s.l, s.x, s.r);
      RankGrows(Size(t), n);
    }
  }

  lemma {:induction false} BelowPotential(a: Tree, x: Node, b: Tree, elm: Node, n: nat)
    requires Size(a) + 2 + Size(b) <= n
    ensures var t := Fork(a, elm, Fork(Leaf, x, b));
            Potential(t) <= Potential(a) + Potential(b) + 2 * Rank(n) && Size(t) == Size(a) + 2 + Size(b)
  {
    PotentialOf(Leaf, x, b);
    PotentialOf(a, elm, Fork(Leaf, x, b));
    RankGrows(1 + Size(b), n);
    RankGrows(Size(a) + 2 + Size(b), n);
  }

  lemma {:induction false} AbovePotential(a: Tree, x: Node, b: Tree, elm: Node, n: nat)
    requires Size(a) + 2 + Size(b) <= n
    ensures var t := Fork(Fork(a, x, Leaf), elm, b);
            Potential(t) <= Potential(a) + Potential(b) + 2 * Rank(n) && Size(t) == Size(a) + 2 + Size(b)
  {
    PotentialOf(a, x, Leaf);
    PotentialOf(Fork(a, x, Leaf), elm, b);
    RankGrows(Size(a) + 1, n);
    RankGrows(Size(a) + 2 + Size(b), n);
  }

  lemma {:induction false} InsertedPays(t: Tree, elm: Node, n: nat)
    requires Size(t) < n
    ensures var (t', rounds) := Inserted(t, elm);
            rounds + Potential(t') <= Potential(t) + 4 * Rank(n) + 1 && Size(t') <= Size(t) + 1
  {
    if t.Leaf? {
      PotentialOf(Leaf, elm, Leaf);
    } else {
      var s := Splayed(t, elm.key);
      PartsPay(t, elm.key, s.l, s.x, s.r, n);
      if elm.key < s.x.key {
        BelowPotential(s.l, s.x, s.r, elm, n);
      } else if s.x.key < elm.key {
        AbovePotential(s.l, s.x, s.r, elm, n);
      } else {
        FoundPays(t, elm.key, n);
      }
    }
  }

  /** The end of a removal: `u` is the left subtree after its own splay. */
  lemma {:induction false} WithoutTopPays(s: Tree, key: int, n: nat)
    requires s.Fork? && Size(s) <= n
    ensures var (t', rounds) := WithoutTop(s, key);
            rounds + Potential(t') <= Potential(s.l) + Potential(s.r) + 3 * Rank(n) + 1 && Size(t') <= Size(s)
  {
    if s.l.Fork? {
      var u := Splayed(s.l, key);
      PartsPay(s.l, key, u.l, u.x, u.r, n);
      PotentialOf(u.l, u.x, s.r);
      RankGrows(Size(u.l) + 1 + Size(s.r), n);
    }
  }

  lemma {:induction false} RemovedPays(t: Tree, key: int, n: nat)
    requires Size(t) <= n
    ensures var (t', rounds) := Removed(t, key);
            rounds + Potential(t') <= Potential(t) + 5 * Rank(n) + 2 && Size(t') <= Size(t)
  {
    if t.Fork? {
      var s := Splayed(t, key);
      PartsPay(t, key, s.l, s.x, s.r, n);
      if s.x.key == key {
        WithoutTopPays(s, key, n);
      } else {
        FoundPays(t, key, n);
      }
    }
  }

  // ---------- whole runs ----------

  datatype Op = Find(key: int) | Insert(elm: Node) | Remove(key: int)

  function Applied(t: Tree, op: Op): (Tree, nat) {
    match op
    case Find(key) => Found(t, key)
    case Insert(elm) => Inserted(t, elm)
    case Remove(key) => Removed(t, key)
  }

  /** The rounds of all the splays of a run. */
  function Rounds(t: Tree, ops: seq<Op>): nat
    decreases |ops|
  {
    if ops == [] then 0
    else Applied(t, ops[0]).1 + Rounds(Applied(t, ops[0]).0, ops[1..])
  }

  function Inserts(ops: seq<Op>): nat {
    if ops == [] then 0 else (if ops[0].Insert? then 1 else 0) + Inserts(ops[1..])
  }

  lemma {:induction false} OneMore(m: nat, c: nat)
    requires 0 < m
    ensures m * c == c + (m - 1) * c
  {
  }

  lemma {:induction false} Sums(a: nat, b: nat, c: nat)
    ensures (a + 1 + b) * c == a * c + c + b * c
  {
  }

  /** A run on any tree: `n` bounds what the tree can grow to. */
  lemma {:induction false} RunPays(t: Tree, ops: seq<Op>, n: nat)
    requires Size(t) + Inserts(ops) <= n
    ensures Rounds(t, ops) <= Potential(t) + |ops| * (10 * Lg(n) + 2)
    decreases |ops|
  {
    if ops != [] {
      var t' := Applied(t, ops[0]).0;
      match ops[0] {
        case Find(key) => FoundPays(t, key, n);
        case Insert(elm) => InsertedPays(t, elm, n);
        case Remove(key) => RemovedPays(t, key, n);
      }
      RunPays(t', ops[1..], n);
      OneMore(|ops|, 10 * Lg(n) + 2);
    }
  }

  /** The Balance Theorem: m operations, n of them insertions, on an empty tree take
      no more than m * (10 lg n + 2) rounds. */
  lemma {:induction false} BalanceTheorem(ops: seq<Op>)
    ensures Rounds(Leaf, ops) <= |ops| * (10 * Lg(Inserts(ops)) + 2)
  {
    RunPays(Leaf, ops, Inserts(ops));
  }

  /** No tree starts with more potential than a sequence of as many accesses pays. */
  lemma {:induction false} PotentialBound(t: Tree, n: nat)
    requires Size(t) <= n
    ensures Potential(t) <= Size(t) * Rank(n)
  {
    if t.Fork? {
      RankGrows(Size(t), n);
      PotentialBound(t.l, n);
      PotentialBound(t.r, n);
      PotentialOf(t.l, t.x, t.r);
      Sums(Size(t.l), Size(t.r), Rank(n));
    }
  }

  predicate Accesses(ops: seq<Op>) {
    forall i :: 0 <= i < |ops| ==> ops[i].Find?
  }

  lemma {:induction false} AccessesPay(t: Tree, ops: seq<Op>)
    requires Accesses(ops)
    decreases |ops|
    ensures Rounds(t, ops) <= Potential(t) + |ops| * (6 * Lg(Size(t)) + 1)
  {
    if ops != [] {
      FoundPays(t, ops[0].key, Size(t));
      AccessesPay(Applied(t, ops[0]).0, ops[1..]);
      OneMore(|ops|, 6 * Lg(Size(t)) + 1);
    }
  }

  /** The amortised cost of an access, on whatever tree a run of at least as many
      accesses as nodes begins. */
  lemma {:induction false} AccessTheorem(t: Tree, ops: seq<Op>)
    requires Accesses(ops)
    ensures Rounds(t, ops) <= Size(t) * (2 * Lg(Size(t))) + |ops| * (6 * Lg(Size(t)) + 1)
    ensures Size(t) <= |ops| ==> Rounds(t, ops) <= |ops| * (8 * Lg(Size(t)) + 1)
  {
    PotentialBound(t, Size(t));
    AccessesPay(t, ops);
    Scaled(Size(t), |ops|, 2 * Lg(Size(t)), 6 * Lg(Size(t)) + 1);
  }

  lemma {:induction false} Scaled(n: nat, m: nat, a: nat, b: nat)
    ensures n <= m ==> n * a + m * b <= m * (a + b)
  {
    assert m * (a + b) == m * a + m * b;
    if n <= m {
      assert n * a <= m * a;
    }
  }
}
