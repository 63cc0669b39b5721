/** When the throttle forgets a bucket: which calls collect, and what they find. */
module ThrottleSchedule {
  import opened TokenBucket
  import opened ThrottleRuns
  import opened ThrottleSystem

  /** The throttle after a run of calls. */
  function Later(ruleOf: int -> Rule, ps: System, from: real, cs: seq<Call>): (r: System)
    requires SystemOk(ruleOf, ps, from) && Calls(ruleOf, from, cs)
    ensures |r| == N_PART
    decreases |cs|
  {
    if cs == [] then ps
    else
      SystemLater(ruleOf, ps, from, cs[0].now);
      Later(ruleOf, SystemStep(ruleOf, ps, cs[0], true).0, cs[0].now, cs[1..])
  }

  predicate OnPart(c: Call, i: nat) {
    c.kind == AskDenied && PartOf(c.digest) == i
  }

  /** How many calls of is_denied the partition `i` has had. */
  function Asked(cs: seq<Call>, i: nat): nat {
    if cs == [] then 0 else (if OnPart(cs[0], i) then 1 else 0) + Asked(cs[1..], i)
  }

  lemma CountStep(ruleOf: int -> Rule, ps: System, c: Call, i: nat)
    requires SystemOk(ruleOf, ps, c.now) && Sane(ruleOf(c.digest)) && i < N_PART && 0 <= ps[i].gcCount < 1000
    ensures var g := SystemStep(ruleOf, ps, c, true).0[i].gcCount;
            g == (ps[i].gcCount + if OnPart(c, i) then 1 else 0) % 1000
  {
  }

  lemma ModSum(g: int, x: int, y: int)
    ensures ((g + x) % 1000 + y) % 1000 == (g + (x + y)) % 1000
  {
  }

  /** The counter of a partition is the number of its is_denied calls modulo 1000. */
  lemma {:induction false} CountAfter(ruleOf: int -> Rule, ps: System, from: real, cs: seq<Call>, i: nat)
    requires SystemOk(ruleOf, ps, from) && Calls(ruleOf, from, cs) && i < N_PART && 0 <= ps[i].gcCount < 1000
    ensures Later(ruleOf, ps, from, cs)[i].gcCount == (ps[i].gcCount + Asked(cs, i)) % 1000
    decreases |cs|
  {
    if cs != [] {
      SystemLater(ruleOf, ps, from, cs[0].now);
      CountStep(ruleOf, ps, cs[0], i);
      CountAfter(ruleOf, SystemStep(ruleOf, ps, cs[0], true).0, cs[0].now, cs[1..], i);
      ModSum(ps[i].gcCount, if OnPart(cs[0], i) then 1 else 0, Asked(cs[1..], i));
    }
  }

  /** The call at `k` is a thousandth one of its partition, and comes more than a
      period after the bucket was last used. */
  predicate Sweeps(cs: seq<Call>, k: nat, g: int, i: nat, b: Bucket)
    requires k < |cs|
  {
    OnPart(cs[k], i) && (g + Asked(cs[..k + 1], i)) % 1000 == 0 && cs[k].now - b.lastUsed > b.period
  }

  ghost predicate Swept(cs: seq<Call>, g: int, i: nat, b: Bucket) {
    exists k :: 0 <= k < |cs| && Sweeps(cs, k, g, i, b)
  }

  lemma SweepsShift(cs: seq<Call>, k: nat, g: int, i: nat, b: Bucket)
    requires 0 < k < |cs|
    ensures Sweeps(cs, k, g, i, b) <==> Sweeps(cs[1..], k - 1, (g + if OnPart(cs[0], i) then 1 else 0) % 1000, i, b)
  {
    assert cs[..k + 1][1..] == cs[1..][..k];
    ModSum(g, if OnPart(cs[0], i) then 1 else 0, Asked(cs[1..][..k], i));
  }

  lemma SweptCons(cs: seq<Call>, g: int, i: nat, b: Bucket)
    requires cs != []
    ensures Swept(cs, g, i, b) <==>
            Sweeps(cs, 0, g, i, b) || Swept(cs[1..], (g + if OnPart(cs[0], i) then 1 else 0) % 1000, i, b)
  {
    var g' := (g + if OnPart(cs[0], i) then 1 else 0) % 1000;
    if Swept(cs, g, i, b) {
      var k :| 0 <= k < |cs| && Sweeps(cs, k, g, i, b);
      if 0 < k {
        SweepsShift(cs, k, g, i, b);
      }
    }
    if Swept(cs[1..], g', i, b) {
      var k :| 0 <= k < |cs[1..]| && Sweeps(cs[1..], k, g', i, b);
      SweepsShift(cs, k + 1, g, i, b);
    }
  }

  lemma {:induction false} StepOfOther(ruleOf: int -> Rule, ps: System, cs: seq<Call>, d: int)
    requires cs != [] && SystemOk(ruleOf, ps, cs[0].now) && Sane(ruleOf(cs[0].digest)) && cs[0].digest != d
    requires 0 <= ps[PartOf(d)].gcCount < 1000
    ensures
      var s, i := StateOf(ps, d), PartOf(d);
      StateOf(SystemStep(ruleOf, ps, cs[0], true).0, d) ==
        if s.Some? && Sweeps(cs, 0, ps[i].gcCount, i, s.value) then None else s
  {
    var i := PartOf(d);
    assert cs[..1] == [cs[0]] && [cs[0]][1..] == [];
    assert Asked(cs[..1], i) == (if OnPart(cs[0], i) then 1 else 0) + Asked([], i);
  }

  /** A bucket that the calls are not on is there after them, and as it was, unless
      one of them was a thousandth is_denied of its partition and came more than a
      period after its last use. */
  lemma {:induction false} ForgottenExactly(ruleOf: int -> Rule, ps: System, from: real, cs: seq<Call>, d: int)
    requires SystemOk(ruleOf, ps, from) && Calls(ruleOf, from, cs) && 0 <= ps[PartOf(d)].gcCount < 1000
    requires forall c :: c in cs ==> c.digest != d
    ensures
      var s, i := StateOf(ps, d), PartOf(d);
      StateOf(Later(ruleOf, ps, from, cs), d) ==
        if s.Some? && Swept(cs, ps[i].gcCount, i, s.value) then None else s
    decreases |cs|
  {
    if cs != [] {
      var c, s, i := cs[0], StateOf(ps, d), PartOf(d);
      SystemLater(ruleOf, ps, from, c.now);
      assert c in cs;
      StepOfOther(ruleOf, ps, cs, d);
      CountStep(ruleOf, ps, c, i);
      var ps' := SystemStep(ruleOf, ps, c, true).0;
      ForgottenExactly(ruleOf, ps', c.now, cs[1..], d);
      if s.Some? {
        SweptCons(cs, ps[i].gcCount, i, s.value);
      }
    }
  }
}
