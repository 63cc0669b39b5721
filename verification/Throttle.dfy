/** One partition of the throttle: buckets updated in place and found through a
    red-black tree. */
module Throttle {
  import opened RedBlackShape
  import opened RedBlackSearch
  import opened RedBlackTree
  import T = TokenBucket
  import R = ThrottleRuns
  import S = ThrottleSystem

  /** struct tbucket.  The tree node it embeds has the digest as its key. */
  class Bucket {
    const digest: int
    const entry: Node
    var lastUsed: real
    var period: real
    var block: real
    var tokens: int
    var capacity: int

    ghost function State(): T.Bucket
      reads this
    {
      T.Bucket(tokens, lastUsed, block, capacity, period)
    }

    /** tb_alloc. */
    constructor (digest: int, limit: int, period: real, now: real)
      ensures this.digest == digest && entry.key == digest && fresh(entry)
      ensures State() == T.Bucket(limit, now, 0.0, limit, period)
    {
      this.digest := digest;
      entry := new Node(digest);
      lastUsed := now;
      this.period := period;
      block := 0.0;
      tokens := limit;
      capacity := limit;
    }

    /** calc_tokens. */
    method CalcTokens(now: real)
      requires T.Fine(State(), now)
      modifies `tokens
      ensures State() == old(State()).(tokens := T.Refill(old(State()), now))
      ensures old(tokens) <= tokens <= capacity
      ensures tokens == capacity
           || tokens as real > old(tokens) as real + T.Credit(capacity, period, now - lastUsed) - 1.0
      ensures T.Fine(State(), now)
    {
      R.RefillBounds(State(), now);
      var delta := now - lastUsed;
      assert 0.0 <= delta;
      tokens := tokens + ((delta / period) * capacity as real).Floor;
      if tokens > capacity {
        tokens := capacity;
      }
    }

    /** The part of is_denied that works on the bucket. */
    method Take(blockFor: real, now: real) returns (ret: bool)
      requires T.Fine(State(), now)
      modifies this
      ensures (State(), ret) == T.Deny(old(State()), blockFor, now)
      ensures 0.0 < blockFor && now < old(block) ==> ret && lastUsed == now && block == old(block)
      ensures !ret ==> lastUsed == now
      ensures T.Fine(State(), now)
    {
      ret := true;
      var blocked := false;
      CalcTokens(now);
      if 0.0 < blockFor && now < block {
        blocked := true;
        lastUsed := now;
      }
      if tokens > 0 {
        tokens := tokens - 1;
        if !blocked {
          ret := false;
        }
        lastUsed := now;
      } else if 0.0 < blockFor && !blocked {
        block := now + blockFor;
      }
      if 0.0 < blockFor && !ret && !blocked {
        block := 0.0;
      }
    }
  }

  /** The nodes of `s` whose keys are not in `gone`. */
  function Kept(s: seq<Node>, gone: set<int>): seq<Node> {
    if s == [] then [] else (if s[0].key in gone then [] else [s[0]]) + Kept(s[1..], gone)
  }

  lemma {:induction false} KeptAppend(a: seq<Node>, b: seq<Node>, gone: set<int>)
    ensures Kept(a + b, gone) == Kept(a, gone) + Kept(b, gone)
  {
    if a == [] {
      assert a + b == b;
    } else {
      assert (a + b)[1..] == a[1..] + b;
      KeptAppend(a[1..], b, gone);
    }
  }

  lemma DropKey<V>(all: map<int, V>, done: set<int>, k: int, gone: set<int>)
    ensures all - ((done + {k}) * gone) == if k in gone then all - (done * gone) - {k} else all - (done * gone)
  {
    assert (done + {k}) * gone == done * gone + (if k in gone then {k} else {});
  }

  lemma TakeNext(s: seq<Node>, i: nat)
    requires i < |s|
    ensures s[..i + 1] == s[..i] + [s[i]]
  {
  }

  /** One step of the traversal: what is next, and what removal leaves. */
  lemma KeptStep(s: seq<Node>, i: nat, gone: set<int>)
    requires i < |s| && Sorted(Kept(s[..i], gone) + s[i..])
    ensures
      var k, x, rest := Kept(s[..i], gone), s[i], s[i + 1..];
      && k + s[i..] == k + [x] + rest
      && Following(k + [x] + rest, x) == (if i + 1 < |s| then s[i + 1] else null)
      && Without(k + [x] + rest, x) == k + rest
      && Kept(s[..i + 1], gone) == (if x.key in gone then k else k + [x])
      && Keys(s[..i + 1]) == Keys(s[..i]) + {x.key}
  {
    var k, x, rest := Kept(s[..i], gone), s[i], s[i + 1..];
    assert s[i..] == [x] + rest;
    assert k + s[i..] == k + [x] + rest;
    SortedAround(k, x, rest);
    assert x !in k;
    NeighboursSplit(k, x, rest);
    WithoutSplit(k, x, rest);
    assert s[..i + 1] == s[..i] + [x];
    KeptAppend(s[..i], [x], gone);
    KeysAppend(s[..i], [x]);
    assert Kept([x], gone) == if x.key in gone then [] else [x];
  }

  /** struct vsthrottle: one partition.  `owner` stands for the cast from a tree
      node to the bucket that embeds it. */
  class Partition {
    const buckets: RbTree
    var owner: map<int, Bucket>
    var gcCount: nat

    ghost function Footprint(): set<object>
      reads this, buckets
    {
      {this, buckets} + buckets.repr + owner.Values
    }

    ghost predicate Valid()
      reads `owner, buckets, buckets.repr, Nodes(buckets.shape)
    {
      && buckets.Valid()
      && owner.Keys == Keys(buckets.Contents())
      && forall d :: d in owner ==> owner[d].digest == d
    }

    /** The buckets as values. */
    ghost function Abs(): S.Buckets
      reads `owner, owner.Values
    {
      map d | d in owner :: owner[d].State()
    }

    ghost function Part(): S.Partition
      reads this, owner.Values
    {
      S.Partition(Abs(), gcCount)
    }

    constructor ()
      ensures Valid() && Abs() == map[] && gcCount == 0 && fresh(Footprint())
    {
      buckets := new RbTree();
      owner := map[];
      gcCount := 0;
    }

    /** AZ(VRB_INSERT(...)): the entry of a bucket that is not there yet. */
    method AddEntry(n: Node)
      requires buckets.Valid() && n.key !in Keys(buckets.Contents()) && n !in buckets.repr
      modifies buckets, buckets.repr, n
      ensures buckets.Valid() && buckets.repr == old(buckets.repr) + {n}
      ensures Keys(buckets.Contents()) == old(Keys(buckets.Contents())) + {n.key}
    {
      ghost var s := buckets.Contents();
      KeysScanned(s, n.key);
      var dup;
      ghost var steps;
      dup, steps := buckets.Insert(n);
      assert dup == null;
      KeysInserted(s, Rank(s, n.key), n);
    }

    /** get_bucket. */
    method GetBucket(digest: int, limit: int, period: real, now: real) returns (b: Bucket)
      requires Valid()
      modifies this`owner, buckets, buckets.repr
      ensures Valid() && fresh(buckets.repr - old(buckets.repr))
      ensures digest in owner && owner[digest] == b
      ensures if digest in old(owner) then owner == old(owner)
              else owner == old(owner)[digest := b] && fresh(b) && b.State() == T.Bucket(limit, now, 0.0, limit, period)
    {
      var n: Node?;
      ghost var steps;
      n, steps := buckets.Find(digest);
      KeysScanned(buckets.Contents(), digest);
      if n != null {
        b := owner[n.key];
      } else {
        b := new Bucket(digest, limit, period, now);
        AddEntry(b.entry);
        owner := owner[digest := b];
      }
    }

    /** VRB_REMOVE of a node of this partition. */
    method DropEntry(n: Node)
      requires buckets.Valid() && n in buckets.Contents()
      modifies buckets, buckets.repr
      ensures buckets.Valid() && buckets.repr == old(buckets.repr) - {n}
      ensures buckets.Contents() == Without(old(buckets.Contents()), n)
      ensures Keys(buckets.Contents()) == Keys(old(buckets.Contents())) - {n.key}
    {
      KeysWithout(buckets.Contents(), n);
      InorderHas(buckets.shape, n);
      var r := buckets.Remove(n);
    }

    static ghost function ExpiredIn(all: map<int, Bucket>, now: real): set<int>
      reads all.Values
    {
      set d | d in all && S.Expired(all[d].State(), now)
    }

    /** `gone` are the keys of the expired buckets. */
    static ghost predicate Marks(all: map<int, Bucket>, gone: set<int>, now: real)
      reads all.Values
    {
      forall d :: d in all ==> (d in gone <==> S.Expired(all[d].State(), now))
    }

    /** The body of the loop of run_gc. */
    method Visit(x: Node, now: real, ghost all: map<int, Bucket>, ghost gone: set<int>)
      requires Valid() && x in buckets.Contents() && x.key in owner && Marks(all, gone, now)
      modifies this`owner, buckets, buckets.repr
      ensures Valid() && buckets.repr <= old(buckets.repr) && Marks(all, gone, now)
      ensures
        var expired := S.Expired(old(owner[x.key].State()), now);
        && owner == (if expired then old(owner) - {x.key} else old(owner))
        && buckets.Contents() == (if expired then Without(old(buckets.Contents()), x) else old(buckets.Contents()))
    {
      if now - owner[x.key].lastUsed > owner[x.key].period {
        DropEntry(x);
        owner := owner - {x.key};
      }
    }

    /** How far a collection has come: the first `i` of the nodes `s` are done. */
    ghost predicate Visiting(s: seq<Node>, i: nat, gone: set<int>, all: map<int, Bucket>, x: Node?)
      reads `owner, buckets, buckets.repr, Nodes(buckets.shape)
    {
      && Valid() && i <= |s| && x == (if i < |s| then s[i] else null)
      && buckets.Contents() == Kept(s[..i], gone) + s[i..]
      && owner == all - (Keys(s[..i]) * gone)
    }

    lemma VisitingStep(s: seq<Node>, i: nat, gone: set<int>, all: map<int, Bucket>, x: Node)
      requires Visiting(s, i, gone, all, x)
      ensures i < |s| && x in buckets.Contents() && x in Nodes(buckets.shape) && x.key in owner
          && owner[x.key] == all[x.key]
      ensures Following(buckets.Contents(), x) == if i + 1 < |s| then s[i + 1] else null
      ensures (if x.key in gone then Without(buckets.Contents(), x) else buckets.Contents())
          == Kept(s[..i + 1], gone) + s[i + 1..]
      ensures (if x.key in gone then owner - {x.key} else owner) == all - (Keys(s[..i + 1]) * gone)
    {
      KeptStep(s, i, gone);
      assert x in buckets.Contents();
      assert x in Nodes(buckets.shape) by { InorderHas(buckets.shape, x); }
      assert x.key in owner by { KeysHas(buckets.Contents(), x); }
      DropKey(all, Keys(s[..i]), x.key, gone);
    }

    lemma VisitingStart(gone: set<int>)
      requires Valid()
      ensures Visiting(buckets.Contents(), 0, gone, owner, First(buckets.Contents()))
    {
    }

    lemma VisitingDone(s: seq<Node>, i: nat, gone: set<int>, all: map<int, Bucket>)
      requires Visiting(s, i, gone, all, null) && gone <= Keys(s)
      ensures Valid() && owner == all - gone && s[..i] == s
    {
      assert s[..i] == s && Keys(s) * gone == gone;
    }

    method VisitNext(x: Node, now: real, ghost s: seq<Node>, ghost i: nat, ghost gone: set<int>,
        ghost all: map<int, Bucket>)
      returns (y: Node?)
      requires Visiting(s, i, gone, all, x)
      requires Marks(all, gone, now)
      modifies this`owner, buckets, buckets.repr
      ensures Marks(all, gone, now)
      ensures Visiting(s, i + 1, gone, all, y) && buckets.repr <= old(buckets.repr)
    {
      VisitingStep(s, i, gone, all, x);
      ghost var c := Kept(s[..i + 1], gone) + s[i + 1..];
      ghost var o := all - (Keys(s[..i + 1]) * gone);
      y := buckets.Next(x);
      Visit(x, now, all, gone);
      assert buckets.Contents() == c && owner == o;
    }

    /** run_gc: visits every bucket once, in key order, and drops the expired ones. */
    method RunGc(now: real) returns (ghost visited: seq<Node>)
      requires Valid()
      modifies this`owner, buckets, buckets.repr
      ensures Valid() && buckets.repr <= old(buckets.repr)
      ensures owner == old(owner) - old(ExpiredIn(owner, now))
      ensures visited == old(buckets.Contents())
    {
      ghost var s, gone, all := buckets.Contents(), ExpiredIn(owner, now), owner;
      ghost var i := 0;
      visited := [];
      var x := buckets.MinMax(-1);
      VisitingStart(gone);
      while x != null
        invariant Visiting(s, i, gone, all, x) && buckets.repr <= old(buckets.repr)
        invariant visited == s[..i] && Marks(all, gone, now)
        decreases |s| - i
      {
        TakeNext(s, i);
        visited := visited + [s[i]];
        x := VisitNext(x, now, s, i, gone, all);
        i := i + 1;
      }
      VisitingDone(s, i, gone, all);
    }

    /** get_bucket, seen through the values of the buckets. */
    method Fetch(digest: int, limit: int, period: real, now: real, ghost r: T.Rule) returns (b: Bucket)
      requires Valid() && r.limit == limit && r.period == period
      modifies this`owner, buckets, buckets.repr
      ensures Valid() && fresh(buckets.repr - old(buckets.repr)) && fresh(owner.Values - old(owner.Values))
      ensures digest in owner && owner[digest] == b
      ensures b.State() == R.Fetch(r, S.Lookup(old(Abs()), digest), now)
      ensures Abs() == old(Abs())[digest := b.State()]
    {
      b := GetBucket(digest, limit, period, now);
      AbsFetched(digest);
    }

    twostate lemma AbsFetched(digest: int)
      requires old(Valid()) && digest in owner
      requires owner == if digest in old(owner) then old(owner) else old(owner)[digest := owner[digest]]
      requires forall d :: d in old(owner) ==> old(owner)[d].State() == old(owner[d].State())
      ensures Abs() == old(Abs())[digest := owner[digest].State()]
      ensures digest in old(Abs()) ==> owner[digest].State() == old(Abs())[digest]
    {
      forall d | d in owner && d != digest
        ensures d in old(Abs()) && owner[d].State() == old(Abs())[d]
      {
        assert owner[d] == old(owner)[d];
      }
    }

    twostate lemma AbsCollected(now: real)
      requires owner == old(owner) - old(ExpiredIn(owner, now))
      requires forall d :: d in owner ==> owner[d].State() == old(owner[d].State())
      ensures Abs() == S.Collected(old(Abs()), now)
    {
      forall d | d in owner
        ensures d in S.Collected(old(Abs()), now) && owner[d].State() == old(Abs())[d]
      {
        assert owner[d] == old(owner)[d];
      }
    }

    /** The values after one bucket, and no other, has changed. */
    twostate lemma AbsUpdate(digest: int)
      requires old(Valid()) && digest in owner && owner == old(owner)
      requires forall b :: b in owner.Values && b != owner[digest] ==> b.State() == old(b.State())
      ensures Abs() == old(Abs())[digest := owner[digest].State()]
    {
      forall d | d in owner && d != digest
        ensures owner[d].State() == old(owner[d].State())
      {
        assert owner[d] in owner.Values && owner[d] != owner[digest];
      }
    }

    method Charge(digest: int, b: Bucket, blockFor: real, now: real) returns (ret: bool)
      requires Valid() && digest in owner && owner[digest] == b && T.Fine(b.State(), now)
      modifies b
      ensures Valid()
      ensures var (b', denied) := T.Deny(old(b.State()), blockFor, now);
        ret == denied && Abs() == old(Abs())[digest := b']
    {
      ret := b.Take(blockFor, now);
      AbsUpdate(digest);
    }

    method CollectNow(now: real)
      requires Valid()
      modifies this`owner, buckets, buckets.repr
      ensures Valid() && buckets.repr <= old(buckets.repr) && owner.Values <= old(owner.Values)
      ensures Abs() == S.Collected(old(Abs()), now)
    {
      ghost var visited := RunGc(now);
      AbsCollected(now);
    }

    method SetCount(n: nat)
      requires Valid()
      modifies this`gcCount
      ensures Valid() && gcCount == n && Abs() == old(Abs())
    {
      gcCount := n;
    }

    /** The end of is_denied: count the call, collect when it is time. */
    method Tick(now: real)
      requires Valid()
      modifies this`owner, this`gcCount, buckets, buckets.repr
      ensures Valid() && buckets.repr <= old(buckets.repr) && owner.Values <= old(owner.Values)
      ensures Part() == S.Ticked(old(Part()), now)
    {
      SetCount(gcCount + 1);
      if gcCount == S.GC_INTVL {
        CollectNow(now);
        SetCount(0);
      }
    }

    method Debit(digest: int, limit: int, period: real, blockFor: real, now: real, ghost ruleOf: int -> T.Rule)
      returns (ret: bool)
      requires Valid() && ruleOf(digest) == T.Rule(limit, period, blockFor) && T.Sane(ruleOf(digest))
      requires S.PartOk(ruleOf, Part(), now)
      modifies this`owner, buckets, buckets.repr, owner.Values
      ensures Valid() && fresh(buckets.repr - old(buckets.repr)) && fresh(owner.Values - old(owner.Values))
      ensures (S.Ticked(S.Partition(Abs(), gcCount), now), R.Denied(ret))
           == S.PartStep(ruleOf, old(Part()), S.Call(S.AskDenied, digest, now), true)
    {
      var b := Fetch(digest, limit, period, now, ruleOf(digest));
      S.PartStepFetched(ruleOf, old(Part()), S.Call(S.AskDenied, digest, now), Abs());
      ret := Charge(digest, b, blockFor, now);
    }

    method IsDenied(digest: int, limit: int, period: real, blockFor: real, now: real, ghost ruleOf: int -> T.Rule)
      returns (ret: bool)
      requires Valid() && ruleOf(digest) == T.Rule(limit, period, blockFor) && T.Sane(ruleOf(digest))
      requires S.PartOk(ruleOf, Part(), now)
      modifies this`owner, this`gcCount, buckets, buckets.repr, owner.Values
      ensures Valid() && fresh(buckets.repr - old(buckets.repr)) && fresh(owner.Values - old(owner.Values))
      ensures (Part(), R.Denied(ret)) == S.PartStep(ruleOf, old(Part()), S.Call(S.AskDenied, digest, now), true)
    {
      ret := Debit(digest, limit, period, blockFor, now, ruleOf);
      Tick(now);
    }

    method Remaining(digest: int, limit: int, period: real, now: real, ghost ruleOf: int -> T.Rule) returns (ret: int)
      requires Valid() && ruleOf(digest).limit == limit && ruleOf(digest).period == period && T.Sane(ruleOf(digest))
      requires S.PartOk(ruleOf, Part(), now)
      modifies this`owner, buckets, buckets.repr, owner.Values
      ensures Valid() && fresh(buckets.repr - old(buckets.repr)) && fresh(owner.Values - old(owner.Values))
      ensures (Part(), R.Tokens(ret)) == S.PartStep(ruleOf, old(Part()), S.Call(S.AskRemaining, digest, now), true)
    {
      var b := Fetch(digest, limit, period, now, ruleOf(digest));
      S.PartStepFetched(ruleOf, old(Part()), S.Call(S.AskRemaining, digest, now), Abs());
      Refresh(digest, b, now);
      ret := b.tokens;
    }

    method Refresh(digest: int, b: Bucket, now: real)
      requires Valid() && digest in owner && owner[digest] == b && T.Fine(b.State(), now)
      modifies b
      ensures Valid() && b.State() == old(b.State()).(tokens := T.Refill(old(b.State()), now))
      ensures Abs() == old(Abs())[digest := b.State()]
    {
      b.CalcTokens(now);
      AbsUpdate(digest);
    }

    method Blocked(digest: int, limit: int, period: real, now: real, ghost ruleOf: int -> T.Rule) returns (ret: real)
      requires Valid() && ruleOf(digest).limit == limit && ruleOf(digest).period == period && T.Sane(ruleOf(digest))
      requires S.PartOk(ruleOf, Part(), now)
      modifies this`owner, buckets, buckets.repr
      ensures Valid() && fresh(buckets.repr - old(buckets.repr)) && fresh(owner.Values - old(owner.Values))
      ensures (Part(), R.Wait(ret)) == S.PartStep(ruleOf, old(Part()), S.Call(S.AskBlocked, digest, now), true)
    {
      var b := Fetch(digest, limit, period, now, ruleOf(digest));
      S.PartStepFetched(ruleOf, old(Part()), S.Call(S.AskBlocked, digest, now), Abs());
      ret := b.block - now;
      if ret <= 0.0 {
        ret := 0.0;
      }
    }
  }
}
