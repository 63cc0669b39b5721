/** Collection, denied calls and forgotten blocks in runs of the whole throttle:
    every run here is a list of calls, and collections happen when the counters
    say so. */
module ThrottleCalls {
  import opened TokenBucket
  import opened ThrottleRuns
  import opened ThrottleCollection
  import opened ThrottleSystem

  /** The calls on `d`, as events on its bucket. */
  function Own(cs: seq<Call>, d: int): seq<Event> {
    if cs == [] then [] else (if cs[0].digest == d then [ToEvent(cs[0])] else []) + Own(cs[1..], d)
  }

  lemma {:induction false} OwnOrdered(ruleOf: int -> Rule, from: real, cs: seq<Call>, d: int)
    requires Calls(ruleOf, from, cs)
    ensures Ordered(from, Own(cs, d)) && forall e :: e in Own(cs, d) ==> from <= e.now && !e.Collect?
    decreases |cs|
  {
    if cs != [] {
      OwnOrdered(ruleOf, cs[0].now, cs[1..], d);
      OrderedEarlier(from, cs[0].now, Own(cs[1..], d));
      if cs[0].digest == d {
        assert Own(cs, d)[1..] == Own(cs[1..], d);
      } else {
        assert Own(cs, d) == Own(cs[1..], d);
      }
    }
  }

  lemma OrderedEarlier(from: real, later: real, es: seq<Event>)
    requires from <= later && Ordered(later, es)
    ensures Ordered(from, es)
  {
  }

  /** Without collection the answers to the calls on one bucket are those of its
      own calls alone. */
  lemma {:induction false} KeptProjection(ruleOf: int -> Rule, qs: System, from: real, cs: seq<Call>, d: int)
    requires SystemOk(ruleOf, qs, from) && Calls(ruleOf, from, cs) && Sane(ruleOf(d))
    ensures Ok(ruleOf(d), StateOf(qs, d), from) && Ordered(from, Own(cs, d))
    ensures AnswersTo(d, cs, SystemAnswers(ruleOf, qs, from, cs, false))
         == Answers(ruleOf(d), StateOf(qs, d), from, Own(cs, d))
    decreases |cs|
  {
    OwnOrdered(ruleOf, from, cs, d);
    if cs != [] {
      var c, r, s := cs[0], ruleOf(d), StateOf(qs, d);
      SystemLater(ruleOf, qs, from, c.now);
      var (qs', a) := SystemStep(ruleOf, qs, c, false);
      StateAfter(ruleOf, qs, c, d, false);
      KeptProjection(ruleOf, qs', c.now, cs[1..], d);
      assert SystemAnswers(ruleOf, qs, from, cs, false)[1..] == SystemAnswers(ruleOf, qs', c.now, cs[1..], false);
      var es := Own(cs[1..], d);
      if c.digest == d {
        assert Own(cs, d)[1..] == es;
      } else {
        assert Own(cs, d) == es;
        AnswersAnyStart(r, s, from, c.now, es);
      }
    }
  }

  // ---------- denied calls leave no trace ----------

  /** The run without the denied calls on `d`. */
  function Thinned(cs: seq<Call>, a: seq<Answer>, d: int): seq<Call>
    requires |a| == |cs|
  {
    if cs == [] then []
    else (if cs[0].digest == d && a[0] == Denied(true) then [] else [cs[0]]) + Thinned(cs[1..], a[1..], d)
  }

  lemma {:induction false} ThinnedCalls(ruleOf: int -> Rule, from: real, cs: seq<Call>, a: seq<Answer>, d: int)
    requires |a| == |cs| && Calls(ruleOf, from, cs)
    ensures Calls(ruleOf, from, Thinned(cs, a, d))
    decreases |cs|
  {
    if cs != [] {
      var rest := Thinned(cs[1..], a[1..], d);
      ThinnedCalls(ruleOf, cs[0].now, cs[1..], a[1..], d);
      if cs[0].digest == d && a[0] == Denied(true) {
        assert Thinned(cs, a, d) == rest;
      } else {
        assert Thinned(cs, a, d)[1..] == rest;
      }
    }
  }

  /** The other buckets keep all their calls. */
  lemma {:induction false} ThinnedOthers(cs: seq<Call>, a: seq<Answer>, d: int, e: int)
    requires |a| == |cs| && e != d
    ensures Own(Thinned(cs, a, d), e) == Own(cs, e)
  {
    if cs != [] {
      var rest := Thinned(cs[1..], a[1..], d);
      ThinnedOthers(cs[1..], a[1..], d, e);
      if cs[0].digest == d && a[0] == Denied(true) {
        assert Thinned(cs, a, d) == rest;
      } else {
        assert Thinned(cs, a, d)[1..] == rest;
      }
    }
  }

  /** Its own bucket keeps those that its own run does not deny. */
  lemma {:induction false} ThinnedOwn(ruleOf: int -> Rule, s: State, from: real, cs: seq<Call>, a: seq<Answer>, d: int)
    requires |a| == |cs| && Calls(ruleOf, from, cs) && Sane(ruleOf(d)) && Ok(ruleOf(d), s, from)
    requires Ordered(from, Own(cs, d)) && AnswersTo(d, cs, a) == Answers(ruleOf(d), s, from, Own(cs, d))
    ensures Own(Thinned(cs, a, d), d) == Pruned(ruleOf(d), s, from, Own(cs, d))
    decreases |cs|
  {
    if cs != [] {
      var r, c := ruleOf(d), cs[0];
      var rest, es := Thinned(cs[1..], a[1..], d), Own(cs[1..], d);
      OwnOrdered(ruleOf, c.now, cs[1..], d);
      if c.digest == d {
        assert Own(cs, d)[1..] == es;
        StepOk(r, s, ToEvent(c), c.now);
        var s' := Step(r, s, ToEvent(c)).0;
        assert AnswersTo(d, cs, a)[1..] == AnswersTo(d, cs[1..], a[1..]);
        assert Answers(r, s, from, Own(cs, d))[1..] == Answers(r, s', c.now, es);
        assert AnswersTo(d, cs, a)[0] == a[0];
        ThinnedOwn(ruleOf, s', c.now, cs[1..], a[1..], d);
        if a[0] == Denied(true) {
          assert Thinned(cs, a, d) == rest;
        } else {
          assert Thinned(cs, a, d)[1..] == rest;
        }
      } else {
        assert Own(cs, d) == es;
        AnswersAnyStart(r, s, from, c.now, es);
        PrunedAnyStart(r, s, from, c.now, es);
        assert AnswersTo(d, cs, a) == AnswersTo(d, cs[1..], a[1..]);
        ThinnedOwn(ruleOf, s, c.now, cs[1..], a[1..], d);
        assert Thinned(cs, a, d)[1..] == rest;
      }
    }
  }

  lemma PrunedAnyStart(r: Rule, s: State, from: real, from': real, es: seq<Event>)
    requires Sane(r) && Ok(r, s, from) && Ok(r, s, from') && Ordered(from, es) && Ordered(from', es)
    ensures Pruned(r, s, from, es) == Pruned(r, s, from', es)
  {
  }

  /** Leaving out the denied calls on one key without a block, although they are
      counted and leaving them out moves every later collection, changes neither
      the other answers to that key nor any answer to a key whose block fits. */
  lemma ThinnedRun(ruleOf: int -> Rule, ps: System, from: real, cs: seq<Call>, d: int, e: int)
    requires SystemOk(ruleOf, ps, from) && Calls(ruleOf, from, cs) && 0.0 <= from
    requires Sane(ruleOf(d)) && ruleOf(d).block <= 0.0
    requires Sane(ruleOf(e)) && BlockFits(ruleOf(e))
    requires Settled(ruleOf(d), StateOf(ps, d)) && Settled(ruleOf(e), StateOf(ps, e))
    ensures
      var a := SystemAnswers(ruleOf, ps, from, cs, true);
      var thin := Thinned(cs, a, d);
      && Calls(ruleOf, from, thin)
      && AnswersTo(e, thin, SystemAnswers(ruleOf, ps, from, thin, true))
         == if e == d then Positive(AnswersTo(d, cs, a)) else AnswersTo(e, cs, a)
  {
    var a := SystemAnswers(ruleOf, ps, from, cs, true);
    var thin := Thinned(cs, a, d);
    ThinnedCalls(ruleOf, from, cs, a, d);
    KeyCollectionInvisible(ruleOf, ps, ps, from, cs, d);
    KeptProjection(ruleOf, ps, from, cs, d);
    KeyCollectionInvisible(ruleOf, ps, ps, from, cs, e);
    KeptProjection(ruleOf, ps, from, cs, e);
    KeyCollectionInvisible(ruleOf, ps, ps, from, thin, e);
    KeptProjection(ruleOf, ps, from, thin, e);
    if e == d {
      ThinnedOwn(ruleOf, StateOf(ps, d), from, cs, a, d);
      PrunedRun(ruleOf(d), StateOf(ps, d), from, Own(cs, d));
    } else {
      ThinnedOthers(cs, a, d, e);
    }
  }

  // ---------- exactly when a key may notice collection ----------

  /** In every run from the empty throttle the key gets the answers it would get if
      nothing were ever collected. */
  ghost predicate KeyInvisible(ruleOf: int -> Rule, d: int) {
    forall from, cs :: SystemOk(ruleOf, NoCalls(), from) && Calls(ruleOf, from, cs) && 0.0 <= from ==>
      AnswersTo(d, cs, SystemAnswers(ruleOf, NoCalls(), from, cs, true))
      == AnswersTo(d, cs, SystemAnswers(ruleOf, NoCalls(), from, cs, false))
  }

  function SystemRun(ruleOf: int -> Rule, ps: System, from: real, cs: seq<Call>, collects: bool): (qs: System)
    requires SystemOk(ruleOf, ps, from) && Calls(ruleOf, from, cs)
    ensures |qs| == N_PART
    decreases |cs|
  {
    if cs == [] then ps
    else
      SystemLater(ruleOf, ps, from, cs[0].now);
      SystemRun(ruleOf, SystemStep(ruleOf, ps, cs[0], collects).0, cs[0].now, cs[1..], collects)
  }

  lemma {:induction false} CallsAppend(ruleOf: int -> Rule, from: real, cs: seq<Call>, mid: real, ds: seq<Call>)
    requires Calls(ruleOf, from, cs) && Calls(ruleOf, mid, ds) && from <= mid && forall c :: c in cs ==> c.now <= mid
    ensures Calls(ruleOf, from, cs + ds)
    decreases |cs|
  {
    if cs == [] {
      assert cs + ds == ds;
    } else {
      assert cs[0] in cs;
      assert (cs + ds)[1..] == cs[1..] + ds;
      CallsAppend(ruleOf, cs[0].now, cs[1..], mid, ds);
    }
  }

  /** A run in two parts. */
  lemma {:induction false} RunAppend(ruleOf: int -> Rule, ps: System, from: real, cs: seq<Call>, mid: real,
      ds: seq<Call>, collects: bool)
    requires SystemOk(ruleOf, ps, from) && Calls(ruleOf, from, cs) && Calls(ruleOf, mid, ds)
    requires from <= mid && forall c :: c in cs ==> c.now <= mid
    ensures Calls(ruleOf, from, cs + ds) && SystemOk(ruleOf, SystemRun(ruleOf, ps, from, cs, collects), mid)
    ensures SystemRun(ruleOf, ps, from, cs + ds, collects)
         == SystemRun(ruleOf, SystemRun(ruleOf, ps, from, cs, collects), mid, ds, collects)
    ensures SystemAnswers(ruleOf, ps, from, cs + ds, collects)
         == SystemAnswers(ruleOf, ps, from, cs, collects)
          + SystemAnswers(ruleOf, SystemRun(ruleOf, ps, from, cs, collects), mid, ds, collects)
    decreases |cs|
  {
    CallsAppend(ruleOf, from, cs, mid, ds);
    SystemLater(ruleOf, ps, from, mid);
    if cs == [] {
      assert cs + ds == ds;
    } else {
      var c := cs[0];
      assert c in cs;
      assert (cs + ds)[1..] == cs[1..] + ds;
      SystemLater(ruleOf, ps, from, c.now);
      var (ps', a) := SystemStep(ruleOf, ps, c, collects);
      RunAppend(ruleOf, ps', c.now, cs[1..], mid, ds, collects);
      var x, y := SystemAnswers(ruleOf, ps', c.now, cs[1..], collects),
                  SystemAnswers(ruleOf, SystemRun(ruleOf, ps', c.now, cs[1..], collects), mid, ds, collects);
      Cons(a, x, y);
    }
  }

  function Times(c: Call, n: nat): (cs: seq<Call>)
    ensures |cs| == n && forall x :: x in cs ==> x == c
  {
    if n == 0 then [] else [c] + Times(c, n - 1)
  }

  lemma {:induction false} TimesCalls(ruleOf: int -> Rule, from: real, c: Call, n: nat)
    requires Sane(ruleOf(c.digest)) && from <= c.now
    ensures Calls(ruleOf, from, Times(c, n))
    decreases n
  {
    if 0 < n {
      TimesCalls(ruleOf, c.now, c, n - 1);
      assert Times(c, n)[1..] == Times(c, n - 1);
    }
  }

  ghost predicate Counted(p: Partition) {
    0 <= p.gcCount < GC_INTVL
  }

  /** Calls of is_denied on a key with a positive limit never lose their bucket. */
  lemma {:induction false} OwnCalls(ruleOf: int -> Rule, ps: System, now: real, d: int, n: nat, collects: bool)
    requires SystemOk(ruleOf, ps, now) && Sane(ruleOf(d)) && 1 <= ruleOf(d).limit && Counted(ps[PartOf(d)])
    ensures Calls(ruleOf, now, Times(Call(AskDenied, d, now), n)) && Ordered(now, Repeat(IsDenied(now), n))
    ensures Ok(ruleOf(d), StateOf(ps, d), now)
    ensures
      var qs := SystemRun(ruleOf, ps, now, Times(Call(AskDenied, d, now), n), collects);
      StateOf(qs, d) == Run(ruleOf(d), StateOf(ps, d), now, Repeat(IsDenied(now), n)) && Counted(qs[PartOf(d)])
    decreases n
  {
    var c := Call(AskDenied, d, now);
    TimesCalls(ruleOf, now, c, n);
    OrderedRepeat(IsDenied(now), n);
    if 0 < n {
      assert Times(c, n)[1..] == Times(c, n - 1) && Repeat(IsDenied(now), n)[1..] == Repeat(IsDenied(now), n - 1);
      CallKeepsOwnBucket(ruleOf, ps[PartOf(d)], c, collects);
      OwnCalls(ruleOf, SystemStep(ruleOf, ps, c, collects).0, now, d, n - 1, collects);
    }
  }

  /** Calls on another key of the partition bring the counter to GC_INTVL and have
      an expired bucket collected; without collection the bucket stays. */
  lemma {:induction false} OthersCollect(ruleOf: int -> Rule, ps: System, now: real, d: int, other: int, n: nat,
      collects: bool)
    requires SystemOk(ruleOf, ps, now) && Sane(ruleOf(d)) && Sane(ruleOf(other))
    requires other != d && PartOf(other) == PartOf(d)
    requires collects ==> Counted(ps[PartOf(d)]) && ps[PartOf(d)].gcCount + n == GC_INTVL
    requires StateOf(ps, d).Some? && Expired(StateOf(ps, d).value, now)
    ensures Calls(ruleOf, now, Times(Call(AskDenied, other, now), n))
    ensures StateOf(SystemRun(ruleOf, ps, now, Times(Call(AskDenied, other, now), n), collects), d)
         == if collects then None else StateOf(ps, d)
    decreases n
  {
    var c := Call(AskDenied, other, now);
    TimesCalls(ruleOf, now, c, n);
    if 0 < n {
      assert Times(c, n)[1..] == Times(c, n - 1);
      StateAfter(ruleOf, ps, c, d, collects);
      if 1 < n || !collects {
        OthersCollect(ruleOf, SystemStep(ruleOf, ps, c, collects).0, now, d, other, n - 1, collects);
      }
    }
  }

  lemma {:induction false} AnswersToLast(d: int, cs: seq<Call>, a: seq<Answer>, c: Call, x: Answer)
    requires |a| == |cs| && c.digest == d
    ensures AnswersTo(d, cs + [c], a + [x]) == AnswersTo(d, cs, a) + [x]
  {
    if cs == [] {
      assert cs + [c] == [c] && a + [x] == [x];
      assert AnswersTo(d, [c][1..], [x][1..]) == [];
    } else {
      assert (cs + [c])[1..] == cs[1..] + [c] && (a + [x])[1..] == a[1..] + [x];
      AnswersToLast(d, cs[1..], a[1..], c, x);
    }
  }

  /** One more call on `d`, in the state that a run has left. */
  lemma OneMore(ruleOf: int -> Rule, ps: System, from: real, cs: seq<Call>, c: Call, collects: bool)
    requires SystemOk(ruleOf, ps, from) && Calls(ruleOf, from, cs) && from <= c.now && Sane(ruleOf(c.digest))
    requires forall x :: x in cs ==> x.now <= c.now
    ensures Calls(ruleOf, from, cs + [c]) && SystemOk(ruleOf, SystemRun(ruleOf, ps, from, cs, collects), c.now)
    ensures
      var qs := SystemRun(ruleOf, ps, from, cs, collects);
      && Ok(ruleOf(c.digest), StateOf(qs, c.digest), c.now)
      && AnswersTo(c.digest, cs + [c], SystemAnswers(ruleOf, ps, from, cs + [c], collects))
         == AnswersTo(c.digest, cs, SystemAnswers(ruleOf, ps, from, cs, collects))
          + [Step(ruleOf(c.digest), StateOf(qs, c.digest), ToEvent(c)).1]
      && SystemRun(ruleOf, ps, from, cs + [c], collects) == SystemStep(ruleOf, qs, c, collects).0
  {
    var qs := SystemRun(ruleOf, ps, from, cs, collects);
    assert [c][1..] == [];
    assert Calls(ruleOf, c.now, [c]);
    RunAppend(ruleOf, ps, from, cs, c.now, [c], collects);
    var x := SystemStep(ruleOf, qs, c, collects).1;
    assert SystemAnswers(ruleOf, qs, c.now, [c], collects) == [x];
    AnswersToLast(c.digest, cs, SystemAnswers(ruleOf, ps, from, cs, collects), c, x);
  }

  /** The tail that tells the two throttles apart: after `cs` the bucket of `d` is
      expired at `c.now` but answers `c` otherwise than no bucket would. */
  lemma TellApart(ruleOf: int -> Rule, cs: seq<Call>, d: int, other: int, c: Call, s: State) returns (all: seq<Call>)
    requires Sane(ruleOf(d)) && Sane(ruleOf(other)) && other != d && PartOf(other) == PartOf(d)
    requires SystemOk(ruleOf, NoCalls(), 0.0) && Calls(ruleOf, 0.0, cs) && 0.0 <= c.now && c.digest == d
    requires forall x :: x in cs ==> x.now <= c.now
    requires s.Some? && Ok(ruleOf(d), s, c.now) && Expired(s.value, c.now)
    requires Step(ruleOf(d), s, ToEvent(c)).1 != Step(ruleOf(d), None, ToEvent(c)).1
    requires StateOf(SystemRun(ruleOf, NoCalls(), 0.0, cs, true), d) == s
    requires StateOf(SystemRun(ruleOf, NoCalls(), 0.0, cs, false), d) == s
    requires Counted(SystemRun(ruleOf, NoCalls(), 0.0, cs, true)[PartOf(d)])
    ensures Calls(ruleOf, 0.0, all)
    ensures AnswersTo(d, all, SystemAnswers(ruleOf, NoCalls(), 0.0, all, true))
         != AnswersTo(d, all, SystemAnswers(ruleOf, NoCalls(), 0.0, all, false))
  {
    var n := GC_INTVL - SystemRun(ruleOf, NoCalls(), 0.0, cs, true)[PartOf(d)].gcCount;
    var more := Times(Call(AskDenied, other, c.now), n);
    all := cs + more + [c];
    TimesCalls(ruleOf, c.now, Call(AskDenied, other, c.now), n);
    RunAppend(ruleOf, NoCalls(), 0.0, cs, c.now, more, true);
    RunAppend(ruleOf, NoCalls(), 0.0, cs, c.now, more, false);
    OthersCollect(ruleOf, SystemRun(ruleOf, NoCalls(), 0.0, cs, true), c.now, d, other, n, true);
    OthersCollect(ruleOf, SystemRun(ruleOf, NoCalls(), 0.0, cs, false), c.now, d, other, n, false);
    OneMore(ruleOf, NoCalls(), 0.0, cs + more, c, true);
    OneMore(ruleOf, NoCalls(), 0.0, cs + more, c, false);
    var a, b := AnswersTo(d, all, SystemAnswers(ruleOf, NoCalls(), 0.0, all, true)),
                AnswersTo(d, all, SystemAnswers(ruleOf, NoCalls(), 0.0, all, false));
    assert a[|a| - 1] != b[|b| - 1];
  }

  /** `limit` calls at once use up the bucket, and one more at `t` begins a block. */
  lemma BlockBegins(ruleOf: int -> Rule, d: int, t: real, collects: bool)
    requires Sane(ruleOf(d)) && 0 < ruleOf(d).limit && 0.0 < ruleOf(d).block && 0.0 < t
    requires SystemOk(ruleOf, NoCalls(), 0.0) && Credit(ruleOf(d).limit, ruleOf(d).period, t) < 1.0
    ensures
      var r := ruleOf(d);
      var cs := Times(Call(AskDenied, d, 0.0), r.limit) + [Call(AskDenied, d, t)];
      && Calls(ruleOf, 0.0, cs)
      && var qs := SystemRun(ruleOf, NoCalls(), 0.0, cs, collects);
         StateOf(qs, d) == Some(Bucket(0, 0.0, t + r.block, r.limit, r.period)) && Counted(qs[PartOf(d)])
  {
    var r := ruleOf(d);
    var first, e := Times(Call(AskDenied, d, 0.0), r.limit), Call(AskDenied, d, t);
    OwnCalls(ruleOf, NoCalls(), 0.0, d, r.limit, collects);
    Drain(r, None, 0.0, r.limit);
    var s := Run(r, None, 0.0, Repeat(IsDenied(0.0), r.limit));
    assert s == Some(Bucket(0, 0.0, 0.0, r.limit, r.period)) by {
      assert Credit(r.limit, r.period, 0.0 - 0.0) == 0.0 by { CreditOfPeriod(r.limit, r.period); }
    }
    OneMore(ruleOf, NoCalls(), 0.0, first, e, collects);
    var qs := SystemRun(ruleOf, NoCalls(), 0.0, first, collects);
    CallKeepsOwnBucket(ruleOf, qs[PartOf(d)], e, collects);
    CreditGrows(r.limit, r.period, 0.0, t);
    CreditOfPeriod(r.limit, r.period);
    assert Credit(r.limit, r.period, t - 0.0) == Credit(r.limit, r.period, t);
    assert Refill(s.value, t) == 0;
  }

  /** With a limit of zero two calls leave a block pending. */
  lemma BlockBeginsAtZero(ruleOf: int -> Rule, d: int, p: real, collects: bool)
    requires Sane(ruleOf(d)) && ruleOf(d).limit == 0 && 0.0 < ruleOf(d).block && p == ruleOf(d).period + ruleOf(d).block
    requires SystemOk(ruleOf, NoCalls(), 0.0)
    ensures
      var r := ruleOf(d);
      var cs := [Call(AskDenied, d, 0.0)] + [Call(AskDenied, d, p)];
      && Calls(ruleOf, 0.0, cs)
      && var qs := SystemRun(ruleOf, NoCalls(), 0.0, cs, collects);
         StateOf(qs, d) == Some(Bucket(0, 0.0, p + r.block, 0, r.period)) && Counted(qs[PartOf(d)])
  {
    var r := ruleOf(d);
    var c, e := Call(AskDenied, d, 0.0), Call(AskDenied, d, p);
    assert [] + [c] == [c];
    OneMore(ruleOf, NoCalls(), 0.0, [], c, collects);
    var q1 := SystemRun(ruleOf, NoCalls(), 0.0, [c], collects);
    StateAfter(ruleOf, NoCalls(), c, d, collects);
    assert forall dt :: Credit(0, r.period, dt) == 0.0;
    assert StateOf(q1, d) == Some(Bucket(0, 0.0, r.block, 0, r.period));
    OneMore(ruleOf, NoCalls(), 0.0, [c], e, collects);
    StateAfter(ruleOf, q1, e, d, collects);
  }

  lemma WaitForgotten(ruleOf: int -> Rule, d: int, other: int) returns (cs: seq<Call>)
    requires Sane(ruleOf(d)) && ruleOf(d).limit == 0 && 0.0 < ruleOf(d).block
    requires Sane(ruleOf(other)) && other != d && PartOf(other) == PartOf(d)
    ensures SystemOk(ruleOf, NoCalls(), 0.0) && Calls(ruleOf, 0.0, cs)
    ensures AnswersTo(d, cs, SystemAnswers(ruleOf, NoCalls(), 0.0, cs, true))
         != AnswersTo(d, cs, SystemAnswers(ruleOf, NoCalls(), 0.0, cs, false))
  {
    var r := ruleOf(d);
    var p := r.period + r.block;
    BlockBeginsAtZero(ruleOf, d, p, true);
    BlockBeginsAtZero(ruleOf, d, p, false);
    cs := TellApart(ruleOf, [Call(AskDenied, d, 0.0)] + [Call(AskDenied, d, p)], d, other,
                    Call(AskBlocked, d, p), Some(Bucket(0, 0.0, p + r.block, 0, r.period)));
  }

  /** A rule whose block does not fit, and any other key in the partition: the calls
      after which collection has forgotten a pending block. */
  lemma BlockForgotten(ruleOf: int -> Rule, d: int, other: int) returns (cs: seq<Call>)
    requires Sane(ruleOf(d)) && !BlockFits(ruleOf(d))
    requires Sane(ruleOf(other)) && other != d && PartOf(other) == PartOf(d)
    ensures SystemOk(ruleOf, NoCalls(), 0.0) && Calls(ruleOf, 0.0, cs)
    ensures AnswersTo(d, cs, SystemAnswers(ruleOf, NoCalls(), 0.0, cs, true))
         != AnswersTo(d, cs, SystemAnswers(ruleOf, NoCalls(), 0.0, cs, false))
  {
    var r := ruleOf(d);
    if r.limit == 0 {
      cs := WaitForgotten(ruleOf, d, other);
    } else {
      var t, g := LateBlock(r);
      BlockBegins(ruleOf, d, t, true);
      BlockBegins(ruleOf, d, t, false);
      assert Refill(Alloc(r, g), g) == r.limit by {
        CreditOfPeriod(r.limit, r.period);
        assert Credit(r.limit, r.period, g - g) == 0.0;
      }
      cs := TellApart(ruleOf, Times(Call(AskDenied, d, 0.0), r.limit) + [Call(AskDenied, d, t)], d, other,
                      Call(AskDenied, d, g), Some(Bucket(0, 0.0, t + r.block, r.limit, r.period)));
    }
  }

  /** Over all runs of calls from the empty throttle, a key never notices collection
      exactly when its block fits. */
  lemma KeyInvisibleExactly(ruleOf: int -> Rule, d: int, other: int)
    requires Sane(ruleOf(d)) && Sane(ruleOf(other)) && other != d && PartOf(other) == PartOf(d)
    ensures KeyInvisible(ruleOf, d) <==>
            var r := ruleOf(d);
            r.block <= 0.0 || r.block * r.limit as real <= r.period * (r.limit - 1) as real
  {
    if BlockFits(ruleOf(d)) {
      forall from, cs | SystemOk(ruleOf, NoCalls(), from) && Calls(ruleOf, from, cs) && 0.0 <= from
        ensures AnswersTo(d, cs, SystemAnswers(ruleOf, NoCalls(), from, cs, true))
             == AnswersTo(d, cs, SystemAnswers(ruleOf, NoCalls(), from, cs, false))
      {
        KeyCollectionInvisible(ruleOf, NoCalls(), NoCalls(), from, cs, d);
      }
    } else {
      var cs := BlockForgotten(ruleOf, d, other);
    }
  }

  // ---------- exactly when a key keeps its rate ----------

  function ToCall(e: Event, d: int): Call {
    Call(if e.Remaining? then AskRemaining else if e.Blocked? then AskBlocked else AskDenied, d, e.now)
  }

  function ToCalls(es: seq<Event>, d: int): (cs: seq<Call>)
    ensures |cs| == |es| && forall i :: 0 <= i < |es| ==> cs[i] == ToCall(es[i], d)
  {
    if es == [] then [] else [ToCall(es[0], d)] + ToCalls(es[1..], d)
  }

  lemma {:induction false} ToCallsOrdered(ruleOf: int -> Rule, from: real, es: seq<Event>, d: int)
    requires Sane(ruleOf(d)) && Ordered(from, es)
    ensures Calls(ruleOf, from, ToCalls(es, d))
    decreases |es|
  {
    if es != [] {
      ToCallsOrdered(ruleOf, es[0].now, es[1..], d);
      assert ToCalls(es, d)[1..] == ToCalls(es[1..], d);
    }
  }

  /** Calls on one key alone, with a positive limit: whatever they collect, their own
      bucket is not among it. */
  lemma {:induction false} AloneAnswers(ruleOf: int -> Rule, ps: System, from: real, es: seq<Event>, d: int)
    requires SystemOk(ruleOf, ps, from) && Sane(ruleOf(d)) && 1 <= ruleOf(d).limit && Ordered(from, es)
    requires Calls(ruleOf, from, ToCalls(es, d)) && forall e :: e in es ==> !e.Collect?
    ensures Ok(ruleOf(d), StateOf(ps, d), from)
    ensures AnswersTo(d, ToCalls(es, d), SystemAnswers(ruleOf, ps, from, ToCalls(es, d), true))
         == Answers(ruleOf(d), StateOf(ps, d), from, es)
    decreases |es|
  {
    if es != [] {
      var c, cs, s := ToCall(es[0], d), ToCalls(es, d), StateOf(ps, d);
      assert es[0] in es && ToEvent(c) == es[0];
      assert cs[1..] == ToCalls(es[1..], d);
      SystemLater(ruleOf, ps, from, c.now);
      CallKeepsOwnBucket(ruleOf, ps[PartOf(d)], c, true);
      var (ps', x) := SystemStep(ruleOf, ps, c, true);
      AloneAnswers(ruleOf, ps', c.now, es[1..], d);
      var rest := SystemAnswers(ruleOf, ps', c.now, cs[1..], true);
      assert ([x] + rest)[1..] == rest;
    }
  }

  predicate Until(cs: seq<Call>, to: real) {
    forall c :: c in cs ==> c.now <= to
  }

  ghost predicate KeyWithinRate(ruleOf: int -> Rule, d: int)
    requires Sane(ruleOf(d))
  {
    forall from, cs, to ::
      SystemOk(ruleOf, NoCalls(), from) && Calls(ruleOf, from, cs) && from <= to && Until(cs, to) ==>
        WithinRate(ruleOf(d), Admitted(AnswersTo(d, cs, SystemAnswers(ruleOf, NoCalls(), from, cs, true))), to - from)
  }

  /** The calls that break the rate: those of RemainingBreaksRate, made on one key of
      a throttle that has seen no other. */
  lemma CallsBreakRate(ruleOf: int -> Rule, d: int) returns (cs: seq<Call>)
    requires Sane(ruleOf(d)) && 2 <= ruleOf(d).limit
    ensures SystemOk(ruleOf, NoCalls(), 0.0) && Calls(ruleOf, 0.0, cs)
    ensures Until(cs, ruleOf(d).period / 2.0)
    ensures Admitted(AnswersTo(d, cs, SystemAnswers(ruleOf, NoCalls(), 0.0, cs, true))) == 2 * ruleOf(d).limit
    ensures !WithinRate(ruleOf(d), 2 * ruleOf(d).limit, ruleOf(d).period / 2.0)
  {
    var es := RemainingBreaksRate(ruleOf(d));
    cs := ToCalls(es, d);
    ToCallsOrdered(ruleOf, 0.0, es, d);
    AloneAnswers(ruleOf, NoCalls(), 0.0, es, d);
    assert StateOf(NoCalls(), d) == None;
  }

  /** Over all runs of calls from the empty throttle, a key keeps the documented rate
      exactly when its limit is at most one. */
  lemma KeyWithinRateExactly(ruleOf: int -> Rule, d: int)
    requires Sane(ruleOf(d))
    ensures KeyWithinRate(ruleOf, d) <==> ruleOf(d).limit <= 1
  {
    if ruleOf(d).limit <= 1 {
      forall from, cs, to | SystemOk(ruleOf, NoCalls(), from) && Calls(ruleOf, from, cs) && from <= to && Until(cs, to)
        ensures WithinRate(ruleOf(d), Admitted(AnswersTo(d, cs, SystemAnswers(ruleOf, NoCalls(), from, cs, true))),
            to - from)
      {
        SystemRateBound(ruleOf, NoCalls(), from, cs, d, to);
      }
    } else {
      var cs := CallsBreakRate(ruleOf, d);
      assert ruleOf(d).period / 2.0 - 0.0 == ruleOf(d).period / 2.0;
      assert 0.0 <= ruleOf(d).period / 2.0;
    }
  }
}
