/** Whole runs of calls on one rule: the state is the bucket, or None before the
    first call and after the bucket has been collected. */
module ThrottleRuns {
  import opened TokenBucket

  datatype Event =
    | IsDenied(now: real)
    | Remaining(now: real)
    | Blocked(now: real)
    | Collect(now: real)

  datatype Answer = Denied(denied: bool) | Tokens(tokens: int) | Wait(wait: real) | Silent

  type State = Option<Bucket>

  predicate Ok(r: Rule, s: State, now: real) {
    s.Some? ==> Fine(s.value, now) && s.value.capacity == r.limit && s.value.period == r.period
  }

  /** get_bucket. */
  function Fetch(r: Rule, s: State, now: real): Bucket {
    if s.Some? then s.value else Alloc(r, now)
  }

  function Step(r: Rule, s: State, e: Event): (State, Answer)
    requires Sane(r) && Ok(r, s, e.now)
  {
    var b := Fetch(r, s, e.now);
    match e
    case IsDenied(now) => var (b', ret) := Deny(b, r.block, now); (Some(b'), Denied(ret))
    case Remaining(now) => var t := Refill(b, now); (Some(b.(tokens := t)), Tokens(t))
    case Blocked(now) => (Some(b), Wait(if b.deadline - now <= 0.0 then 0.0 else b.deadline - now))
    case Collect(now) =>
      (if s.Some? && now - s.value.lastUsed > s.value.period then None else s, Silent)
  }

  /** Times do not go backwards. */
  predicate Ordered(from: real, es: seq<Event>)
    decreases |es|
  {
    es != [] ==> from <= es[0].now && Ordered(es[0].now, es[1..])
  }

  lemma FetchOk(r: Rule, s: State, now: real)
    requires Sane(r) && Ok(r, s, now)
    ensures Fine(Fetch(r, s, now), now)
    ensures Fetch(r, s, now).capacity == r.limit && Fetch(r, s, now).period == r.period
  {
  }

  lemma RefillBounds(b: Bucket, now: real)
    requires Fine(b, now)
    ensures b.tokens <= Refill(b, now) <= b.capacity
    ensures Refill(b, now) as real <= b.tokens as real + Credit(b.capacity, b.period, now - b.lastUsed)
    ensures Refill(b, now) == b.capacity
         || Refill(b, now) as real > b.tokens as real + Credit(b.capacity, b.period, now - b.lastUsed) - 1.0
  {
    CreditGrows(b.capacity, b.period, 0.0, now - b.lastUsed);
    CreditOfPeriod(b.capacity, b.period);
  }

  /** Every call leaves between zero and `limit` tokens and a last_used that is
      not in the future, so the next call meets a nonnegative delta. */
  lemma StepOk(r: Rule, s: State, e: Event, later: real)
    requires Sane(r) && Ok(r, s, e.now) && e.now <= later
    ensures Ok(r, Step(r, s, e).0, later)
  {
    FetchOk(r, s, e.now);
    RefillBounds(Fetch(r, s, e.now), e.now);
  }

  function Run(r: Rule, s: State, from: real, es: seq<Event>): State
    requires Sane(r) && Ok(r, s, from) && Ordered(from, es)
    decreases |es|
  {
    if es == [] then s
    else
      StepOk(r, s, es[0], es[0].now);
      Run(r, Step(r, s, es[0]).0, es[0].now, es[1..])
  }

  function Answers(r: Rule, s: State, from: real, es: seq<Event>): (a: seq<Answer>)
    requires Sane(r) && Ok(r, s, from) && Ordered(from, es)
    ensures |a| == |es|
    decreases |es|
  {
    if es == [] then []
    else
      StepOk(r, s, es[0], es[0].now);
      [Step(r, s, es[0]).1] + Answers(r, Step(r, s, es[0]).0, es[0].now, es[1..])
  }

  function Admitted(a: seq<Answer>): nat {
    if a == [] then 0 else (if a[0] == Denied(false) then 1 else 0) + Admitted(a[1..])
  }

  // ---------- the rate bound ----------

  function Min(a: real, b: real): real {
    if a <= b then a else b
  }

  /** What a bucket can still give at time `now`: its tokens and the credit that
      the next refill will round down, but never more than the capacity. */
  function Potential(r: Rule, s: State, now: real): real
    requires Sane(r) && Ok(r, s, now)
  {
    if s.None? then r.limit as real
    else Min(r.limit as real, s.value.tokens as real + Credit(r.limit, r.period, now - s.value.lastUsed))
  }

  /** remaining() stores the refilled tokens without moving last_used, so with a
      limit above one it grants the same credit again. */
  predicate GrantsOnce(r: Rule, es: seq<Event>) {
    r.limit <= 1 || forall e :: e in es ==> !e.Remaining?
  }

  lemma PotentialGrows(r: Rule, s: State, a: real, b: real)
    requires Sane(r) && Ok(r, s, a) && a <= b
    ensures Potential(r, s, b) <= Potential(r, s, a) + Credit(r.limit, r.period, b - a)
    ensures 0.0 <= Potential(r, s, a) && 0.0 <= Credit(r.limit, r.period, b - a)
  {
    CreditGrows(r.limit, r.period, 0.0, b - a);
    CreditOfPeriod(r.limit, r.period);
    if s.Some? {
      CreditGrows(r.limit, r.period, 0.0, a - s.value.lastUsed);
      CreditAdds(r.limit, r.period, a - s.value.lastUsed, b - a);
      assert a - s.value.lastUsed + (b - a) == b - s.value.lastUsed;
    }
  }

  /** No call grants more than the bucket had; collection forfeits nothing less. */
  lemma PotentialPays(r: Rule, s: State, e: Event)
    requires Sane(r) && Ok(r, s, e.now) && (e.Remaining? ==> r.limit <= 1)
    ensures
      var (s', a) := Step(r, s, e);
      Ok(r, s', e.now) && Potential(r, s', e.now) + (if a == Denied(false) then 1.0 else 0.0) <= Potential(r, s, e.now)
  {
    StepOk(r, s, e, e.now);
    var b := Fetch(r, s, e.now);
    FetchOk(r, s, e.now);
    RefillBounds(b, e.now);
    CreditOfPeriod(r.limit, r.period);
    assert Credit(r.limit, r.period, e.now - e.now) == 0.0;
    if e.Collect? && s.Some? && e.now - s.value.lastUsed > s.value.period {
      CreditGrows(r.limit, r.period, r.period, e.now - s.value.lastUsed);
    }
  }

  lemma AdmittedCons(r: Rule, s: State, from: real, es: seq<Event>)
    requires Sane(r) && Ok(r, s, from) && Ordered(from, es) && es != []
    ensures
      var (s', a) := Step(r, s, es[0]);
      && Ok(r, s', es[0].now)
      && Admitted(Answers(r, s, from, es))
          == (if a == Denied(false) then 1 else 0) + Admitted(Answers(r, s', es[0].now, es[1..]))
  {
    StepOk(r, s, es[0], es[0].now);
    var a := Answers(r, s, from, es);
    assert a[1..] == Answers(r, Step(r, s, es[0]).0, es[0].now, es[1..]);
  }

  /** A run until `to` admits no more than what the bucket has at `from` plus
      the credit of the elapsed time. */
  lemma {:induction false} RunPays(r: Rule, s: State, from: real, es: seq<Event>, to: real)
    requires Sane(r) && Ok(r, s, from) && Ordered(from, es) && GrantsOnce(r, es) && from <= to
    requires forall e :: e in es ==> e.now <= to
    ensures Admitted(Answers(r, s, from, es)) as real <= Potential(r, s, from) + Credit(r.limit, r.period, to - from)
    decreases |es|
  {
    if es == [] {
      PotentialGrows(r, s, from, to);
    } else {
      var e := es[0];
      assert e in es && (r.limit <= 1 || !e.Remaining?);
      StepOk(r, s, e, e.now);
      PotentialPays(r, s, e);
      PotentialGrows(r, s, from, e.now);
      assert forall x :: x in es[1..] ==> x in es;
      RunPays(r, Step(r, s, e).0, e.now, es[1..], to);
      CreditAdds(r.limit, r.period, e.now - from, to - e.now);
      assert e.now - from + (to - e.now) == to - from;
      AdmittedCons(r, s, from, es);
    }
  }

  /** The rate bound over a window: limit + limit * T / period. */
  predicate WithinRate(r: Rule, admitted: nat, window: real)
    requires Sane(r)
  {
    admitted as real <= r.limit as real + Credit(r.limit, r.period, window)
  }

  lemma {:induction false} RateBound(r: Rule, s: State, from: real, es: seq<Event>, to: real)
    requires Sane(r) && Ok(r, s, from) && Ordered(from, es) && GrantsOnce(r, es) && from <= to
    requires forall e :: e in es ==> e.now <= to
    ensures WithinRate(r, Admitted(Answers(r, s, from, es)), to - from)
  {
    RunPays(r, s, from, es, to);
    assert Potential(r, s, from) <= r.limit as real;
  }

  lemma {:induction false} OrderedSplit(from: real, es: seq<Event>, i: nat)
    requires Ordered(from, es) && i < |es|
    ensures from <= es[i].now && Ordered(from, es[..i]) && Ordered(es[i].now, es[i..])
    ensures forall j :: i <= j < |es| ==> es[i].now <= es[j].now
    decreases |es|
  {
    if i == 0 {
      assert es[0..] == es;
      if |es| > 1 {
        OrderedSplit(es[0].now, es[1..], 0);
        assert forall j :: 1 <= j < |es| ==> es[j] == es[1..][j - 1];
      }
    } else {
      OrderedSplit(es[0].now, es[1..], i - 1);
      assert es[1..][..i - 1] == es[..i][1..] && es[1..][i - 1..] == es[i..] && es[1..][i - 1] == es[i];
      assert forall j :: i <= j < |es| ==> es[j] == es[1..][j - 1];
    }
  }

  /** The answers of a stretch of a run are those of the run that starts there. */
  lemma {:induction false} AnswersFrom(r: Rule, s: State, from: real, es: seq<Event>, i: nat) returns (mid: State)
    requires Sane(r) && Ok(r, s, from) && Ordered(from, es) && i < |es|
    ensures Ok(r, mid, es[i].now) && Ordered(es[i].now, es[i..])
    ensures Answers(r, s, from, es)[i..] == Answers(r, mid, es[i].now, es[i..])
    decreases |es|
  {
    OrderedSplit(from, es, i);
    if i == 0 {
      mid := s;
      assert es[0..] == es;
      AnswersAnyStart(r, s, from, es[0].now, es);
      assert Answers(r, s, from, es)[0..] == Answers(r, s, from, es);
    } else {
      StepOk(r, s, es[0], es[0].now);
      mid := AnswersFrom(r, Step(r, s, es[0]).0, es[0].now, es[1..], i - 1);
      assert es[1..][i - 1..] == es[i..] && es[1..][i - 1] == es[i];
      assert Answers(r, s, from, es)[i..] == Answers(r, Step(r, s, es[0]).0, es[0].now, es[1..])[i - 1..];
    }
  }

  lemma AnswersAnyStart(r: Rule, s: State, from: real, from': real, es: seq<Event>)
    requires Sane(r) && Ok(r, s, from) && Ok(r, s, from') && Ordered(from, es) && Ordered(from', es)
    ensures Answers(r, s, from, es) == Answers(r, s, from', es)
  {
  }

  lemma {:induction false} AnswersUpTo(r: Rule, s: State, from: real, es: seq<Event>, j: nat)
    requires Sane(r) && Ok(r, s, from) && Ordered(from, es) && j <= |es|
    ensures Ordered(from, es[..j]) && Answers(r, s, from, es[..j]) == Answers(r, s, from, es)[..j]
    decreases |es|
  {
    if 0 < j {
      StepOk(r, s, es[0], es[0].now);
      AnswersUpTo(r, Step(r, s, es[0]).0, es[0].now, es[1..], j - 1);
      assert es[..j][1..] == es[1..][..j - 1];
    }
  }

  lemma StretchTimes(from: real, es: seq<Event>, i: nat, j: nat)
    requires Ordered(from, es) && i < j <= |es|
    ensures es[i].now <= es[j - 1].now
    ensures forall e :: e in es[i..][..j - i] ==> e.now <= es[j - 1].now && e in es
  {
    OrderedSplit(from, es, i);
    forall e | e in es[i..][..j - i] ensures e.now <= es[j - 1].now && e in es {
      var k :| i <= k < j && es[k] == e;
      OrderedSplit(from, es, k);
    }
  }

  /** The same for any window of a whole run that begins without a bucket: the
      calls from the i-th up to the j-th. */
  lemma RateBoundInWindow(r: Rule, from: real, es: seq<Event>, i: nat, j: nat)
    requires Sane(r) && Ordered(from, es) && GrantsOnce(r, es) && i < j <= |es|
    ensures WithinRate(r, Admitted(Answers(r, None, from, es)[i..j]), es[j - 1].now - es[i].now)
  {
    var mid := AnswersFrom(r, None, from, es, i);
    StretchTimes(from, es, i, j);
    AnswersUpTo(r, mid, es[i].now, es[i..], j - i);
    assert Answers(r, None, from, es)[i..j] == Answers(r, None, from, es)[i..][..j - i];
    RateBound(r, mid, es[i].now, es[i..][..j - i], es[j - 1].now);
  }

  // ---------- runs put together from pieces ----------

  function Repeat(e: Event, n: nat): (es: seq<Event>)
    ensures |es| == n && forall x :: x in es ==> x == e
  {
    if n == 0 then [] else [e] + Repeat(e, n - 1)
  }

  lemma {:induction false} OrderedAppend(from: real, es: seq<Event>, mid: real, fs: seq<Event>)
    requires Ordered(from, es) && from <= mid && (forall e :: e in es ==> e.now <= mid) && Ordered(mid, fs)
    ensures Ordered(from, es + fs)
    decreases |es|
  {
    if es == [] {
      assert es + fs == fs;
    } else {
      OrderedAppend(es[0].now, es[1..], mid, fs);
      assert (es + fs)[1..] == es[1..] + fs;
    }
  }

  lemma {:induction false} OrderedRepeat(e: Event, n: nat)
    ensures Ordered(e.now, Repeat(e, n))
  {
    if 0 < n {
      OrderedRepeat(e, n - 1);
      assert Repeat(e, n)[1..] == Repeat(e, n - 1);
    }
  }

  lemma Cons(x: Answer, a: seq<Answer>, b: seq<Answer>)
    ensures [x] + (a + b) == ([x] + a) + b
  {
  }

  lemma {:induction false} AnswersAppend(r: Rule, s: State, from: real, es: seq<Event>, mid: real, fs: seq<Event>)
    requires Sane(r) && Ok(r, s, from) && Ordered(from, es) && Ordered(mid, fs) && from <= mid
    requires forall e :: e in es ==> e.now <= mid
    ensures Ordered(from, es + fs) && Ok(r, Run(r, s, from, es), mid)
    ensures Answers(r, s, from, es + fs) == Answers(r, s, from, es) + Answers(r, Run(r, s, from, es), mid, fs)
    decreases |es|
  {
    OrderedAppend(from, es, mid, fs);
    if es == [] {
      assert es + fs == fs;
      AnswersAnyStart(r, s, from, mid, fs);
    } else {
      StepOk(r, s, es[0], es[0].now);
      assert (es + fs)[1..] == es[1..] + fs;
      var (s', x) := Step(r, s, es[0]);
      AnswersAppend(r, s', es[0].now, es[1..], mid, fs);
      Cons(x, Answers(r, s', es[0].now, es[1..]), Answers(r, Run(r, s, from, es), mid, fs));
    }
  }

  lemma {:induction false} AdmittedAppend(a: seq<Answer>, b: seq<Answer>)
    ensures Admitted(a + b) == Admitted(a) + Admitted(b)
  {
    if a == [] {
      assert a + b == b;
    } else {
      assert (a + b)[1..] == a[1..] + b;
      AdmittedAppend(a[1..], b);
    }
  }

  /** A bucket with `n` tokens and no pending block admits `n` calls at once. */
  lemma {:induction false} Drain(r: Rule, s: State, now: real, n: nat)
    requires Sane(r) && Ok(r, s, now) && Fine(Fetch(r, s, now), now)
    requires Fetch(r, s, now).deadline <= now && n <= Refill(Fetch(r, s, now), now) && 0.0 <= now
    ensures Ordered(now, Repeat(IsDenied(now), n))
    ensures Admitted(Answers(r, s, now, Repeat(IsDenied(now), n))) == n
    ensures 0 < n ==>
      var s' := Run(r, s, now, Repeat(IsDenied(now), n));
      && s'.Some? && s'.value.tokens == Refill(Fetch(r, s, now), now) - n && s'.value.lastUsed == now
      && s'.value.deadline <= now && s'.value.capacity == r.limit && s'.value.period == r.period
      && (0.0 < r.block ==> s'.value.deadline == 0.0)
    decreases n
  {
    OrderedRepeat(IsDenied(now), n);
    if 0 < n {
      var e := IsDenied(now);
      var s' := Step(r, s, e).0;
      StepOk(r, s, e, now);
      CreditOfPeriod(r.limit, r.period);
      assert Repeat(e, n)[1..] == Repeat(e, n - 1);
      assert Credit(r.limit, r.period, now - now) == 0.0;
      assert Refill(Fetch(r, s', now), now) == Refill(Fetch(r, s, now), now) - 1;
      Drain(r, s', now, n - 1);
      AdmittedCons(r, s, now, Repeat(e, n));
    }
  }

  /** Every remaining() earns the credit since last_used once more. */
  lemma {:induction false} Pump(r: Rule, s: State, now: real, n: nat)
    requires Sane(r) && Ok(r, s, now) && s.Some? && s.value.deadline <= now
    requires 1.0 <= Credit(r.limit, r.period, now - s.value.lastUsed)
    ensures Ordered(now, Repeat(Remaining(now), n))
    ensures
      var s' := Run(r, s, now, Repeat(Remaining(now), n));
      && s'.Some? && Ok(r, s', now) && s'.value.deadline <= now
      && (s'.value.tokens == r.limit || s.value.tokens + n <= s'.value.tokens)
    decreases n
  {
    OrderedRepeat(Remaining(now), n);
    if 0 < n {
      var e := Remaining(now);
      var s' := Step(r, s, e).0;
      StepOk(r, s, e, now);
      assert Repeat(e, n)[1..] == Repeat(e, n - 1);
      Pump(r, s', now, n - 1);
    }
  }

  predicate Window(from: real, es: seq<Event>, to: real) {
    Ordered(from, es) && from <= to && forall e :: e in es ==> e.now <= to
  }

  ghost predicate AlwaysWithinRate(r: Rule)
    requires Sane(r)
  {
    forall from, es, to :: Window(from, es, to) ==> WithinRate(r, Admitted(Answers(r, None, from, es)), to - from)
  }

  /** limit calls at once, then, half a period later, remaining() and limit calls more. */
  lemma RemainingBreaksRate(r: Rule) returns (es: seq<Event>)
    requires Sane(r) && 2 <= r.limit
    ensures Window(0.0, es, r.period / 2.0) && forall e :: e in es ==> !e.Collect?
    ensures Admitted(Answers(r, None, 0.0, es)) == 2 * r.limit
    ensures !WithinRate(r, Admitted(Answers(r, None, 0.0, es)), r.period / 2.0)
  {
    var h, n := r.period / 2.0, r.limit;
    var a, b, c := Repeat(IsDenied(0.0), n), Repeat(Remaining(h), n), Repeat(IsDenied(h), n);
    CreditOfPeriod(n, r.period);
    CreditAdds(n, r.period, h, h);
    assert h + h == r.period;
    assert Credit(n, r.period, h) == n as real / 2.0;
    Drain(r, None, 0.0, n);
    var s1 := Run(r, None, 0.0, a);
    Pump(r, s1, h, n);
    var s2 := Run(r, s1, h, b);
    RefillBounds(s2.value, h);
    Drain(r, s2, h, n);
    AnswersAppend(r, s1, h, b, h, c);
    AnswersAppend(r, None, 0.0, a, h, b + c);
    AdmittedAppend(Answers(r, s1, h, b), Answers(r, s2, h, c));
    AdmittedAppend(Answers(r, None, 0.0, a), Answers(r, s1, h, b + c));
    NothingAdmitted(r, s1, h, n);
    es := a + (b + c);
  }

  lemma {:induction false} NothingAdmitted(r: Rule, s: State, now: real, n: nat)
    requires Sane(r) && Ok(r, s, now) && Ordered(now, Repeat(Remaining(now), n))
    ensures Admitted(Answers(r, s, now, Repeat(Remaining(now), n))) == 0
    decreases n
  {
    if 0 < n {
      var e := Remaining(now);
      StepOk(r, s, e, now);
      assert Repeat(e, n)[1..] == Repeat(e, n - 1);
      NothingAdmitted(r, Step(r, s, e).0, now, n - 1);
      AdmittedCons(r, s, now, Repeat(e, n));
    }
  }

  /** With remaining() among the calls the rate bound holds exactly for the
      rules that allow at most one call a period. */
  lemma RateBoundExactly(r: Rule)
    requires Sane(r)
    ensures AlwaysWithinRate(r) <==> r.limit <= 1
  {
    if r.limit <= 1 {
      forall from, es, to | Window(from, es, to)
        ensures WithinRate(r, Admitted(Answers(r, None, from, es)), to - from)
      {
        RateBound(r, None, from, es, to);
      }
    } else {
      var es := RemainingBreaksRate(r);
      assert r.period / 2.0 - 0.0 == r.period / 2.0;
    }
  }
}
