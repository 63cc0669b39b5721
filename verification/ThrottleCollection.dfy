/** What garbage collection, denied calls and pending blocks do and do not change
    over whole runs on one rule. */
module ThrottleCollection {
  import opened TokenBucket
  import opened ThrottleRuns

  // ---------- a throttle that never collects ----------

  function KeepStep(r: Rule, s: State, e: Event): (State, Answer)
    requires Sane(r) && Ok(r, s, e.now)
  {
    if e.Collect? then (s, Silent) else Step(r, s, e)
  }

  function KeepAnswers(r: Rule, s: State, from: real, es: seq<Event>): (a: seq<Answer>)
    requires Sane(r) && Ok(r, s, from) && Ordered(from, es)
    ensures |a| == |es|
    decreases |es|
  {
    if es == [] then []
    else
      StepOk(r, s, es[0], es[0].now);
      [KeepStep(r, s, es[0]).1] + KeepAnswers(r, KeepStep(r, s, es[0]).0, es[0].now, es[1..])
  }

  /** The rules whose blocks are over by the time an idle bucket is collected. */
  predicate BlockFits(r: Rule) {
    r.block <= 0.0 || r.block * r.limit as real <= r.period * (r.limit - 1) as real
  }

  /** What a call would find as good as a new bucket. */
  predicate Idle(r: Rule, s: State, now: real) {
    s.Some? ==>
      && s.value.deadline <= now
      && (s.value.tokens == r.limit || r.period <= now - s.value.lastUsed)
  }

  /** A pending block ends within a period of the last use. */
  predicate Settled(r: Rule, s: State) {
    s.Some? ==>
      if r.block <= 0.0 then s.value.deadline == 0.0
      else s.value.deadline == 0.0 || s.value.deadline <= s.value.lastUsed + r.period
  }

  predicate Alike(r: Rule, a: State, b: State, now: real) {
    && Ok(r, a, now) && Ok(r, b, now) && Settled(r, a) && Settled(r, b)
    && (a == b || (Idle(r, a, now) && Idle(r, b, now)))
  }

  lemma IdleRefill(r: Rule, s: State, now: real)
    requires Sane(r) && Ok(r, s, now) && Idle(r, s, now)
    ensures Refill(Fetch(r, s, now), now) == r.limit
  {
    var b := Fetch(r, s, now);
    FetchOk(r, s, now);
    RefillBounds(b, now);
    if b.tokens != r.limit {
      CreditGrows(r.limit, r.period, r.period, now - b.lastUsed);
      CreditOfPeriod(r.limit, r.period);
    }
  }

  /** A refill that leaves nothing had nothing and earned less than one token. */
  lemma EmptyRefill(b: Bucket, now: real)
    requires Fine(b, now) && 0 < b.capacity && Refill(b, now) <= 0
    ensures b.tokens == 0 && Credit(b.capacity, b.period, now - b.lastUsed) < 1.0
  {
    RefillBounds(b, now);
    CreditGrows(b.capacity, b.period, 0.0, now - b.lastUsed);
  }

  lemma DenySettled(r: Rule, b: Bucket, now: real)
    requires Sane(r) && Ok(r, Some(b), now) && Settled(r, Some(b)) && BlockFits(r)
    ensures Settled(r, Some(Deny(b, r.block, now).0))
  {
    if Refill(b, now) <= 0 && 0.0 < r.block && !(now < b.deadline) {
      LimitPositive(r);
      EmptyRefill(b, now);
      NewDeadline(r, now - b.lastUsed);
    }
  }

  /** A call that is denied for want of a token comes soon after the last use. */
  lemma NewDeadline(r: Rule, dt: real)
    requires Sane(r) && BlockFits(r) && 0.0 < r.block && 0 < r.limit && Credit(r.limit, r.period, dt) < 1.0
    ensures dt + r.block <= r.period
  {
    CreditScaled(r.limit, r.period, dt);
    assert (r.limit - 1) as real == r.limit as real - 1.0;
    BlockArithmetic(r.limit as real, r.period, r.block, dt, Credit(r.limit, r.period, dt));
  }

  lemma LimitPositive(r: Rule)
    requires Sane(r) && BlockFits(r) && 0.0 < r.block
    ensures 0 < r.limit
  {
    assert r.limit == 0 ==> r.block * r.limit as real == 0.0;
    assert r.limit == 0 ==> r.period * (r.limit - 1) as real == -r.period;
  }

  lemma BlockArithmetic(n: real, period: real, block: real, dt: real, credit: real)
    requires 0.0 < period && 1.0 <= n && block * n <= period * (n - 1.0) && credit < 1.0 && credit * period == dt * n
    ensures dt + block <= period
  {
    MulGrows(credit, 1.0, period);
    assert period * (n - 1.0) == period * n - period;
    assert (dt + block) * n == dt * n + block * n;
    Cancel(dt + block, period, n);
  }

  lemma Cancel(a: real, b: real, n: real)
    requires 0.0 < n && a * n <= b * n
    ensures a <= b
  {
  }

  lemma CollectAlike(r: Rule, a: State, b: State, e: Event)
    requires Sane(r) && BlockFits(r) && Alike(r, a, b, e.now) && e.Collect? && 0.0 <= e.now
    ensures Alike(r, Step(r, a, e).0, b, e.now)
  {
  }

  /** Same answer, and still alike. */
  lemma StepAlike(r: Rule, a: State, b: State, e: Event)
    requires Sane(r) && BlockFits(r) && Alike(r, a, b, e.now) && 0.0 <= e.now
    ensures Step(r, a, e).1 == KeepStep(r, b, e).1
    ensures Alike(r, Step(r, a, e).0, KeepStep(r, b, e).0, e.now)
  {
    StepOk(r, a, e, e.now);
    StepOk(r, b, e, e.now);
    if e.Collect? {
      CollectAlike(r, a, b, e);
    } else {
      var x, y := Fetch(r, a, e.now), Fetch(r, b, e.now);
      FetchOk(r, a, e.now);
      FetchOk(r, b, e.now);
      DenySettled(r, x, e.now);
      DenySettled(r, y, e.now);
      if a != b {
        IdleRefill(r, a, e.now);
        IdleRefill(r, b, e.now);
      }
    }
  }

  lemma AlikeLater(r: Rule, a: State, b: State, now: real, later: real)
    requires Alike(r, a, b, now) && now <= later
    ensures Alike(r, a, b, later)
  {
  }

  lemma {:induction false} RunsAlike(r: Rule, a: State, b: State, from: real, es: seq<Event>)
    requires Sane(r) && BlockFits(r) && Alike(r, a, b, from) && 0.0 <= from && Ordered(from, es)
    ensures Answers(r, a, from, es) == KeepAnswers(r, b, from, es)
    decreases |es|
  {
    if es != [] {
      var e := es[0];
      AlikeLater(r, a, b, from, e.now);
      StepAlike(r, a, b, e);
      RunsAlike(r, Step(r, a, e).0, KeepStep(r, b, e).0, e.now, es[1..]);
    }
  }

  ghost predicate CollectionInvisible(r: Rule)
    requires Sane(r)
  {
    forall from, es :: 0.0 <= from && Ordered(from, es) ==> Answers(r, None, from, es) == KeepAnswers(r, None, from, es)
  }

  /** Up to the first collection both throttles do the same. */
  lemma {:induction false} KeepAppend(r: Rule, s: State, from: real, es: seq<Event>, mid: real, fs: seq<Event>)
    requires Sane(r) && Ok(r, s, from) && Ordered(from, es) && Ordered(mid, fs) && from <= mid
    requires forall e :: e in es ==> e.now <= mid && !e.Collect?
    ensures Ordered(from, es + fs) && Ok(r, Run(r, s, from, es), mid)
    ensures KeepAnswers(r, s, from, es + fs) == Answers(r, s, from, es) + KeepAnswers(r, Run(r, s, from, es), mid, fs)
    decreases |es|
  {
    OrderedAppend(from, es, mid, fs);
    if es == [] {
      assert es + fs == fs;
      KeepAnyStart(r, s, from, mid, fs);
    } else {
      StepOk(r, s, es[0], es[0].now);
      assert es[0] in es;
      assert (es + fs)[1..] == es[1..] + fs;
      var (s', x) := Step(r, s, es[0]);
      KeepAppend(r, s', es[0].now, es[1..], mid, fs);
      Cons(x, Answers(r, s', es[0].now, es[1..]), KeepAnswers(r, Run(r, s, from, es), mid, fs));
    }
  }

  lemma KeepAnyStart(r: Rule, s: State, from: real, from': real, es: seq<Event>)
    requires Sane(r) && Ok(r, s, from) && Ok(r, s, from') && Ordered(from, es) && Ordered(from', es)
    ensures KeepAnswers(r, s, from, es) == KeepAnswers(r, s, from', es)
  {
  }

  /** A time for the denied call and a later time for the collection that lies
      within the block it begins, although the bucket is idle for over a period. */
  lemma LateBlock(r: Rule) returns (t: real, g: real)
    requires Sane(r) && 0 < r.limit && !BlockFits(r)
    ensures 0.0 < t < g < t + r.block && r.period < g
    ensures Credit(r.limit, r.period, t) < 1.0
  {
    var n := r.limit as real;
    var top := r.period / n;
    var low := if r.block < r.period then r.period - r.block else 0.0;
    assert (r.limit - 1) as real == n - 1.0;
    Share(n, r.period, r.block);
    t := (low + top) / 2.0;
    g := (r.period + t + r.block) / 2.0;
    ShareCredit(r, t);
  }

  lemma Share(n: real, period: real, block: real)
    requires 1.0 <= n && 0.0 < period && 0.0 < block && period * (n - 1.0) < block * n
    ensures 0.0 < period / n <= period && period - block < period / n
  {
    var top := period / n;
    assert top * n == period;
    assert period * (n - 1.0) == period * n - period;
    assert (period - block) * n == period * n - block * n;
    if top <= period - block {
      MulGrows(top, period - block, n);
    }
    if period < top {
      MulGrows(period, top, n);
      MulGrows(1.0, n, period);
    }
  }

  lemma ShareCredit(r: Rule, t: real)
    requires Sane(r) && 0 < r.limit && t < r.period / (r.limit as real)
    ensures Credit(r.limit, r.period, t) < 1.0
  {
    CreditScaled(r.limit, r.period, t);
    BelowShare(t, r.limit as real, r.period);
    BelowOne(Credit(r.limit, r.period, t), r.period, t * r.limit as real);
  }

  lemma BelowShare(t: real, n: real, period: real)
    requires 1.0 <= n && 0.0 < period && t < period / n
    ensures t * n < period
  {
    assert (period / n) * n == period;
    assert 0.0 < (period / n - t) * n;
  }

  lemma BelowOne(c: real, period: real, x: real)
    requires 0.0 < period && c * period == x && x < period
    ensures c < 1.0
  {
  }

  lemma OrderedThree(from: real, e1: Event, e2: Event, e3: Event)
    requires from <= e1.now <= e2.now <= e3.now
    ensures Ordered(from, [e1, e2, e3])
  {
    assert [e1, e2, e3][1..] == [e2, e3] && [e2, e3][1..] == [e3] && [e3][1..] == [];
    assert Ordered(e3.now, []);
    assert Ordered(e2.now, [e3]);
  }

  /** A collection that forgets a pending block: the next call is let through. */
  lemma CollectionForgets(r: Rule) returns (es: seq<Event>)
    requires Sane(r) && 0 < r.limit && !BlockFits(r)
    ensures Ordered(0.0, es) && Answers(r, None, 0.0, es) != KeepAnswers(r, None, 0.0, es)
  {
    var t, g := LateBlock(r);
    var a := Repeat(IsDenied(0.0), r.limit);
    Drain(r, None, 0.0, r.limit);
    var s := Run(r, None, 0.0, a);
    var e1, e2, e3 := IsDenied(t), Collect(g), IsDenied(g);
    var fs := [e1, e2, e3];
    OrderedThree(t, e1, e2, e3);
    AnswersAppend(r, None, 0.0, a, t, fs);
    KeepAppend(r, None, 0.0, a, t, fs);
    ForgetfulTail(r, s, t, g);
    es := a + fs;
    var k := |a|;
    assert Answers(r, None, 0.0, es)[k..] == Answers(r, s, t, fs);
    assert KeepAnswers(r, None, 0.0, es)[k..] == KeepAnswers(r, s, t, fs);
  }

  lemma ForgetfulTail(r: Rule, s: State, t: real, g: real)
    requires Sane(r) && 0 < r.limit && 0.0 < r.block && 0.0 < t < g < t + r.block && r.period < g
    requires s == Some(Bucket(0, 0.0, 0.0, r.limit, r.period)) && Credit(r.limit, r.period, t) < 1.0
    requires Ordered(t, [IsDenied(t), Collect(g), IsDenied(g)])
    ensures Answers(r, s, t, [IsDenied(t), Collect(g), IsDenied(g)])
         != KeepAnswers(r, s, t, [IsDenied(t), Collect(g), IsDenied(g)])
  {
    var e1, e2, e3 := IsDenied(t), Collect(g), IsDenied(g);
    var fs := [e1, e2, e3];
    CreditGrows(r.limit, r.period, 0.0, t);
    CreditOfPeriod(r.limit, r.period);
    assert Credit(r.limit, r.period, t - 0.0) == Credit(r.limit, r.period, t);
    var s1 := Some(Bucket(0, 0.0, t + r.block, r.limit, r.period));
    assert Step(r, s, e1).0 == s1;
    assert fs[1..] == [e2, e3] && [e2, e3][1..] == [e3] && [e3][1..] == [];
    assert Step(r, s1, e2).0 == None;
    StepOk(r, s1, e3, g);
    assert Step(r, s1, e3).1 == Denied(true);
    assert Refill(Alloc(r, g), g) == r.limit by { assert Credit(r.limit, r.period, g - g) == 0.0; }
    assert Step(r, None, e3).1 == Denied(false);
    assert Answers(r, s, t, fs)[1..][1..] == Answers(r, None, g, [e3]);
    assert KeepAnswers(r, s, t, fs)[1..][1..] == KeepAnswers(r, s1, g, [e3]);
    assert Answers(r, None, g, [e3])[0] != KeepAnswers(r, s1, g, [e3])[0];
  }

  /** With a limit of zero every call is denied, but the announced block is lost. */
  lemma CollectionForgetsAtZero(r: Rule) returns (es: seq<Event>)
    requires Sane(r) && r.limit == 0 && 0.0 < r.block
    ensures Ordered(0.0, es) && Answers(r, None, 0.0, es) != KeepAnswers(r, None, 0.0, es)
  {
    var p := r.period + r.block;
    var e0, e1, e2, e3 := IsDenied(0.0), IsDenied(p), Collect(p), Blocked(p);
    var fs := [e1, e2, e3];
    OrderedThree(p, e1, e2, e3);
    es := [e0] + fs;
    assert es[1..] == fs && fs[1..] == [e2, e3] && [e2, e3][1..] == [e3] && [e3][1..] == [];
    assert forall dt :: Credit(0, r.period, dt) == 0.0;
    var s0 := Some(Bucket(0, 0.0, r.block, 0, r.period));
    var s1 := Some(Bucket(0, 0.0, p + r.block, 0, r.period));
    assert Step(r, None, e0).0 == s0;
    assert Step(r, s0, e1).0 == s1;
    assert Step(r, s1, e2).0 == None;
    assert Step(r, None, e3).1 == Wait(0.0) && Step(r, s1, e3).1 == Wait(r.block);
    assert Answers(r, None, 0.0, es)[1..] == Answers(r, s0, 0.0, fs);
    assert Answers(r, s0, 0.0, fs)[1..] == Answers(r, s1, p, [e2, e3]);
    assert Answers(r, s1, p, [e2, e3])[1..] == Answers(r, None, p, [e3]);
    assert KeepAnswers(r, None, 0.0, es)[1..] == KeepAnswers(r, s0, 0.0, fs);
    assert KeepAnswers(r, s0, 0.0, fs)[1..] == KeepAnswers(r, s1, p, [e2, e3]);
    assert KeepAnswers(r, s1, p, [e2, e3])[1..] == KeepAnswers(r, s1, p, [e3]);
    assert Answers(r, None, p, [e3])[0] != KeepAnswers(r, s1, p, [e3])[0];
  }

  /** Collection changes no answer of any run exactly for the rules without a
      block and those whose block is over before an idle bucket is collected. */
  lemma CollectionInvisibleExactly(r: Rule)
    requires Sane(r)
    ensures CollectionInvisible(r) <==> r.block <= 0.0 || r.block * r.limit as real <= r.period * (r.limit - 1) as real
  {
    if BlockFits(r) {
      forall from, es | 0.0 <= from && Ordered(from, es)
        ensures Answers(r, None, from, es) == KeepAnswers(r, None, from, es)
      {
        RunsAlike(r, None, None, from, es);
      }
    } else if r.limit == 0 {
      var es := CollectionForgetsAtZero(r);
    } else {
      var es := CollectionForgets(r);
    }
  }

  // ---------- denied calls leave no trace ----------

  function Pruned(r: Rule, s: State, from: real, es: seq<Event>): seq<Event>
    requires Sane(r) && Ok(r, s, from) && Ordered(from, es)
    decreases |es|
  {
    if es == [] then []
    else
      StepOk(r, s, es[0], es[0].now);
      var (s', a) := Step(r, s, es[0]);
      var rest := Pruned(r, s', es[0].now, es[1..]);
      if a == Denied(true) then rest else [es[0]] + rest
  }

  function Positive(a: seq<Answer>): seq<Answer> {
    if a == [] then [] else if a[0] == Denied(true) then Positive(a[1..]) else [a[0]] + Positive(a[1..])
  }

  lemma DeniedIsNoOp(r: Rule, s: State, e: Event)
    requires Sane(r) && Ok(r, s, e.now) && r.block <= 0.0 && 1 <= r.limit
    requires Step(r, s, e).1 == Denied(true)
    ensures Step(r, s, e).0 == s
  {
    var b := Fetch(r, s, e.now);
    FetchOk(r, s, e.now);
    RefillBounds(b, e.now);
    EmptyRefill(b, e.now);
  }

  /** With a limit of zero it may leave a new bucket, which no later answer shows. */
  lemma DeniedLeavesNoTrace(r: Rule, s: State, e: Event, rest: seq<Event>)
    requires Sane(r) && Ok(r, s, e.now) && r.block <= 0.0 && Ordered(e.now, rest)
    requires 1 <= r.limit || (0.0 <= e.now && Settled(r, s))
    requires Step(r, s, e).1 == Denied(true)
    ensures Ok(r, Step(r, s, e).0, e.now)
    ensures Answers(r, Step(r, s, e).0, e.now, rest) == Answers(r, s, e.now, rest)
  {
    StepOk(r, s, e, e.now);
    if 1 <= r.limit {
      DeniedIsNoOp(r, s, e);
    } else {
      var s' := Step(r, s, e).0;
      assert Refill(Fetch(r, s, e.now), e.now) == 0 by {
        FetchOk(r, s, e.now);
        RefillBounds(Fetch(r, s, e.now), e.now);
      }
      RunsAlike(r, s, s, e.now, rest);
      RunsAlike(r, s', s, e.now, rest);
    }
  }

  /** Without a block, leaving the denied calls out of a run changes no other answer. */
  lemma {:induction false} PrunedRun(r: Rule, s: State, from: real, es: seq<Event>)
    requires Sane(r) && Ok(r, s, from) && Ordered(from, es) && r.block <= 0.0
    requires 1 <= r.limit || (0.0 <= from && Settled(r, s))
    ensures Ordered(from, Pruned(r, s, from, es))
    ensures Answers(r, s, from, Pruned(r, s, from, es)) == Positive(Answers(r, s, from, es))
    decreases |es|
  {
    if es != [] {
      var e := es[0];
      StepOk(r, s, e, e.now);
      var (s', a) := Step(r, s, e);
      var rest := Pruned(r, s', e.now, es[1..]);
      if r.limit == 0 {
        AlikeLater(r, s, s, from, e.now);
        StepAlike(r, s, s, e);
      }
      PrunedRun(r, s', e.now, es[1..]);
      assert Answers(r, s, from, es)[1..] == Answers(r, s', e.now, es[1..]);
      if a == Denied(true) {
        DeniedLeavesNoTrace(r, s, e, rest);
        AnswersAnyStart(r, s, e.now, from, rest);
      } else {
        assert ([e] + rest)[1..] == rest;
      }
    }
  }

  // ---------- a pending block ----------

  /** Until its deadline an uncollected bucket denies every call, and no call
      moves the deadline. */
  lemma {:induction false} BlockHolds(r: Rule, s: State, from: real, es: seq<Event>, deadline: real)
    requires Sane(r) && 0.0 < r.block && Ok(r, s, from) && Ordered(from, es)
    requires s.Some? && s.value.deadline == deadline
    requires forall e :: e in es ==> e.now < deadline && !e.Collect?
    ensures forall i :: 0 <= i < |es| ==>
      && (es[i].IsDenied? ==> Answers(r, s, from, es)[i] == Denied(true))
      && (es[i].Blocked? ==> Answers(r, s, from, es)[i] == Wait(deadline - es[i].now))
    ensures Run(r, s, from, es).Some? && Run(r, s, from, es).value.deadline == deadline
    decreases |es|
  {
    if es != [] {
      var e := es[0];
      assert e in es;
      StepOk(r, s, e, e.now);
      var s' := Step(r, s, e).0;
      assert forall x :: x in es[1..] ==> x in es;
      BlockHolds(r, s', e.now, es[1..], deadline);
      var a := Answers(r, s, from, es);
      forall i | 0 <= i < |es|
        ensures es[i].IsDenied? ==> a[i] == Denied(true)
        ensures es[i].Blocked? ==> a[i] == Wait(deadline - es[i].now)
      {
        if 0 < i {
          assert es[i] == es[1..][i - 1] && a[i] == Answers(r, s', e.now, es[1..])[i - 1];
        }
      }
    }
  }
}
