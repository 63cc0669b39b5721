/** The throttle itself: sixteen partitions with disjoint footprints, of which a call
    works on the one that its digest points to. */
module Vsthrottle {
  import opened RedBlackShape
  import opened Throttle
  import T = TokenBucket
  import R = ThrottleRuns
  import S = ThrottleSystem

  /** A partition is as it was when nothing it consists of has changed. */
  twostate lemma Untouched(p: Partition)
    requires old(p.Valid()) && forall o :: o in old(p.Footprint()) ==> unchanged(o)
    ensures p.Valid() && p.Footprint() == old(p.Footprint()) && p.Part() == old(p.Part())
  {
    assert p in old(p.Footprint()) && p.buckets in old(p.Footprint());
    assert p.buckets.repr == Nodes(p.buckets.shape);
    assert forall n :: n in p.buckets.repr ==> n in old(p.Footprint());
    assert forall b :: b in p.owner.Values ==> b in old(p.Footprint());
  }

  // The calls on one partition, with all it consists of as their frame.

  method IsDeniedOn(v: Partition, d: int, limit: int, period: real, block: real, now: real, ghost ruleOf: int -> T.Rule,
      ghost rest: set<object>)
    returns (ret: bool)
    requires v.Valid() && S.PartOk(ruleOf, v.Part(), now) && T.Sane(ruleOf(d))
        && ruleOf(d) == T.Rule(limit, period, block)
    requires rest !! v.Footprint()
    modifies v.Footprint()
    ensures v.Valid() && fresh(v.Footprint() - old(v.Footprint())) && forall o :: o in rest ==> unchanged(o)
    ensures (v.Part(), R.Denied(ret)) == S.PartStep(ruleOf, old(v.Part()), S.Call(S.AskDenied, d, now), true)
  {
    ret := v.IsDenied(d, limit, period, block, now, ruleOf);
  }

  method RemainingOn(v: Partition, d: int, limit: int, period: real, now: real, ghost ruleOf: int -> T.Rule,
      ghost rest: set<object>)
    returns (ret: int)
    requires v.Valid() && S.PartOk(ruleOf, v.Part(), now) && T.Sane(ruleOf(d)) && ruleOf(d).limit == limit
        && ruleOf(d).period == period
    requires rest !! v.Footprint()
    modifies v.Footprint()
    ensures v.Valid() && fresh(v.Footprint() - old(v.Footprint())) && forall o :: o in rest ==> unchanged(o)
    ensures (v.Part(), R.Tokens(ret)) == S.PartStep(ruleOf, old(v.Part()), S.Call(S.AskRemaining, d, now), true)
  {
    ret := v.Remaining(d, limit, period, now, ruleOf);
  }

  method BlockedOn(v: Partition, d: int, limit: int, period: real, now: real, ghost ruleOf: int -> T.Rule,
      ghost rest: set<object>)
    returns (ret: real)
    requires v.Valid() && S.PartOk(ruleOf, v.Part(), now) && T.Sane(ruleOf(d)) && ruleOf(d).limit == limit
        && ruleOf(d).period == period
    requires rest !! v.Footprint()
    modifies v.Footprint()
    ensures v.Valid() && fresh(v.Footprint() - old(v.Footprint())) && forall o :: o in rest ==> unchanged(o)
    ensures (v.Part(), R.Wait(ret)) == S.PartStep(ruleOf, old(v.Part()), S.Call(S.AskBlocked, d, now), true)
  {
    ret := v.Blocked(d, limit, period, now, ruleOf);
  }

  /** The partition a call works on, and what the others consist of. */
  datatype Around = Around(part: nat, rest: set<object>)

  ghost predicate Pairwise(fs: seq<set<object>>) {
    forall i, j :: 0 <= i < j < |fs| ==> fs[i] !! fs[j]
  }

  lemma PairwiseMore(fs: seq<set<object>>, f: set<object>)
    requires Pairwise(fs) && forall i :: 0 <= i < |fs| ==> fs[i] !! f
    ensures Pairwise(fs + [f])
  {
  }

  /** A partition that consists of `f` and has seen no call. */
  ghost predicate Unused(p: Partition, f: set<object>)
    reads p, p.buckets, p.buckets.repr, Nodes(p.buckets.shape), p.owner.Values
  {
    p.Valid() && p.Part() == S.Partition(map[], 0) && p.Footprint() == f
  }

  class Vsthrottle {
    const parts: seq<Partition>
    /** The partitions as values. */
    ghost var state: S.System

    ghost predicate Shows(ps: S.System)
      reads parts, set p | p in parts :: p.buckets
      reads set p, n | p in parts && n in p.buckets.repr :: n
      reads set p, n | p in parts && n in Nodes(p.buckets.shape) :: n
      reads set p, b | p in parts && b in p.owner.Values :: b
    {
      && |parts| == |ps| == S.N_PART
      && forall i :: 0 <= i < S.N_PART ==> parts[i].Valid() && parts[i].Part() == ps[i]
    }

    /** No two partitions share an object. */
    ghost predicate Disjoint()
      reads parts, set p | p in parts :: p.buckets
    {
      && (forall i, j :: 0 <= i < j < |parts| ==> parts[i].Footprint() !! parts[j].Footprint())
      && forall i :: 0 <= i < |parts| ==> this !in parts[i].Footprint()
    }

    ghost predicate Valid()
      reads this, parts, set p | p in parts :: p.buckets
      reads set p, n | p in parts && n in p.buckets.repr :: n
      reads set p, n | p in parts && n in Nodes(p.buckets.shape) :: n
      reads set p, b | p in parts && b in p.owner.Values :: b
    {
      Shows(state) && Disjoint()
    }

    /** The objects that a call on the digest may change. */
    ghost function Touched(digest: T.Option<int>): set<object>
      requires |parts| == S.N_PART
      reads parts, set p | p in parts :: p.buckets
    {
      if digest.None? then {} else parts[S.PartOf(digest.value)].Footprint()
    }

    /** What all partitions but the partition `k` consist of. */
    ghost function Rest(k: nat): (r: set<object>)
      reads parts, set p | p in parts :: p.buckets
      ensures forall i :: 0 <= i < |parts| && i != k ==> parts[i].Footprint() <= r
    {
      set i, o | 0 <= i < |parts| && i != k && o in parts[i].Footprint() :: o
    }

    /** After a call on the partition `c.part`, which has kept to its own objects and to
        new ones, the other partitions are as they were. */
    twostate lemma OthersStay(c: Around)
      requires old(Valid()) && c.part < S.N_PART && parts[c.part].Valid()
      requires forall i :: 0 <= i < S.N_PART && i != c.part ==> old(parts[i].Footprint()) <= c.rest
      requires forall o :: o in c.rest ==> unchanged(o)
      requires fresh(parts[c.part].Footprint() - old(parts[c.part].Footprint()))
      ensures Shows(old(state)[c.part := parts[c.part].Part()]) && Disjoint()
    {
      forall i | 0 <= i < S.N_PART && i != c.part
        ensures parts[i].Valid() && parts[i].Part() == old(state)[i]
            && parts[i].Footprint() == old(parts[i].Footprint())
      {
        Untouched(parts[i]);
      }
    }

    lemma Elsewhere(k: nat)
      requires Valid() && k < S.N_PART
      ensures Rest(k) !! parts[k].Footprint()
    {
    }

    ghost method Settle(ps: S.System)
      requires Shows(ps) && Disjoint()
      modifies `state
      ensures Valid() && state == ps
    {
      state := ps;
    }

    /** The sixteen partitions of a throttle that has seen no call. */
    static method Load() returns (ps: seq<Partition>, ghost fs: seq<set<object>>)
      ensures |ps| == |fs| == S.N_PART && Pairwise(fs)
      ensures forall i :: 0 <= i < |ps| ==> Unused(ps[i], fs[i]) && fresh(fs[i])
    {
      ps, fs := [], [];
      while |ps| < S.N_PART
        invariant |ps| == |fs| <= S.N_PART && Pairwise(fs)
        invariant forall i :: 0 <= i < |ps| ==> Unused(ps[i], fs[i])
        invariant forall i :: 0 <= i < |fs| ==> fresh(fs[i])
      {
        var p := new Partition();
        PairwiseMore(fs, p.Footprint());
        ps, fs := ps + [p], fs + [p.Footprint()];
      }
    }

    constructor ()
      ensures Valid() && state == S.NoCalls()
    {
      var ps;
      ghost var fs;
      ps, fs := Load();
      parts := ps;
      state := S.NoCalls();
      new;
      assert forall i :: 0 <= i < |parts| ==> Unused(parts[i], fs[i]);
      assert forall i, j :: 0 <= i < j < |parts| ==> fs[i] !! fs[j];
    }

    method IsDeniedAt(d: int, limit: int, period: real, block: real, now: real, ghost ruleOf: int -> T.Rule)
      returns (ret: bool, ghost ps: S.System)
      requires Valid() && S.SystemOk(ruleOf, state, now) && T.Sane(ruleOf(d))
      requires ruleOf(d) == T.Rule(limit, period, block)
      modifies Touched(T.Some(d))
      ensures Shows(ps) && Disjoint()
      ensures (ps, R.Denied(ret)) == S.SystemStep(ruleOf, state, S.Call(S.AskDenied, d, now), true)
    {
      var v := parts[S.PartOf(d)];
      ghost var rest := Rest(S.PartOf(d));
      Elsewhere(S.PartOf(d));
      ret := IsDeniedOn(v, d, limit, period, block, now, ruleOf, rest);
      OthersStay(Around(S.PartOf(d), rest));
      ps := state[S.PartOf(d) := v.Part()];
    }

    /** vmod_is_denied; `digest` is None for a null key, which is always denied. */
    method IsDenied(digest: T.Option<int>, limit: int, period: real, block: real, now: real,
        ghost ruleOf: int -> T.Rule)
      returns (ret: bool)
      requires Valid() && S.SystemOk(ruleOf, state, now)
      requires digest.Some? ==> T.Sane(ruleOf(digest.value)) && ruleOf(digest.value) == T.Rule(limit, period, block)
      modifies `state, Touched(digest)
      ensures Valid()
      ensures digest.None? ==> ret == true && state == old(state)
      ensures digest.Some? ==>
          (state, R.Denied(ret)) == S.SystemStep(ruleOf, old(state), S.Call(S.AskDenied, digest.value, now), true)
    {
      if digest.None? {
        return true;
      }
      ghost var ps;
      ret, ps := IsDeniedAt(digest.value, limit, period, block, now, ruleOf);
      Settle(ps);
    }

    method RemainingAt(d: int, limit: int, period: real, now: real, ghost ruleOf: int -> T.Rule)
      returns (ret: int, ghost ps: S.System)
      requires Valid() && S.SystemOk(ruleOf, state, now) && T.Sane(ruleOf(d))
      requires ruleOf(d).limit == limit && ruleOf(d).period == period
      modifies Touched(T.Some(d))
      ensures Shows(ps) && Disjoint()
      ensures (ps, R.Tokens(ret)) == S.SystemStep(ruleOf, state, S.Call(S.AskRemaining, d, now), true)
    {
      var v := parts[S.PartOf(d)];
      ghost var rest := Rest(S.PartOf(d));
      Elsewhere(S.PartOf(d));
      ret := RemainingOn(v, d, limit, period, now, ruleOf, rest);
      OthersStay(Around(S.PartOf(d), rest));
      ps := state[S.PartOf(d) := v.Part()];
    }

    /** vmod_remaining. */
    method Remaining(digest: T.Option<int>, limit: int, period: real, now: real, ghost ruleOf: int -> T.Rule)
      returns (ret: int)
      requires Valid() && S.SystemOk(ruleOf, state, now)
      requires digest.Some? ==>
          T.Sane(ruleOf(digest.value)) && ruleOf(digest.value).limit == limit && ruleOf(digest.value).period == period
      modifies `state, Touched(digest)
      ensures Valid()
      ensures digest.None? ==> ret == -1 && state == old(state)
      ensures digest.Some? ==>
          (state, R.Tokens(ret)) == S.SystemStep(ruleOf, old(state), S.Call(S.AskRemaining, digest.value, now), true)
    {
      if digest.None? {
        return -1;
      }
      ghost var ps;
      ret, ps := RemainingAt(digest.value, limit, period, now, ruleOf);
      Settle(ps);
    }

    method BlockedAt(d: int, limit: int, period: real, now: real, ghost ruleOf: int -> T.Rule)
      returns (ret: real, ghost ps: S.System)
      requires Valid() && S.SystemOk(ruleOf, state, now) && T.Sane(ruleOf(d))
      requires ruleOf(d).limit == limit && ruleOf(d).period == period
      modifies Touched(T.Some(d))
      ensures Shows(ps) && Disjoint()
      ensures (ps, R.Wait(ret)) == S.SystemStep(ruleOf, state, S.Call(S.AskBlocked, d, now), true)
    {
      var v := parts[S.PartOf(d)];
      ghost var rest := Rest(S.PartOf(d));
      Elsewhere(S.PartOf(d));
      ret := BlockedOn(v, d, limit, period, now, ruleOf, rest);
      OthersStay(Around(S.PartOf(d), rest));
      ps := state[S.PartOf(d) := v.Part()];
    }

    /** vmod_blocked. */
    method Blocked(digest: T.Option<int>, limit: int, period: real, now: real, ghost ruleOf: int -> T.Rule)
      returns (ret: real)
      requires Valid() && S.SystemOk(ruleOf, state, now)
      requires digest.Some? ==>
          T.Sane(ruleOf(digest.value)) && ruleOf(digest.value).limit == limit && ruleOf(digest.value).period == period
      modifies `state, Touched(digest)
      ensures Valid()
      ensures digest.None? ==> ret == -1.0 && state == old(state)
      ensures digest.Some? ==>
          (state, R.Wait(ret)) == S.SystemStep(ruleOf, old(state), S.Call(S.AskBlocked, digest.value, now), true)
    {
      if digest.None? {
        return -1.0;
      }
      ghost var ps;
      ret, ps := BlockedAt(digest.value, limit, period, now, ruleOf);
      Settle(ps);
    }
  }
}
