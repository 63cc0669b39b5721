/** What a bucket answers, call by call, told from the limit, the period, the block and
    the times of the calls alone. */
module ThrottleAnswers {
  import opened TokenBucket
  import opened ThrottleRuns

  /** The whole tokens earned in the time `dt`, at limit / period. */
  function Whole(limit: int, period: real, dt: real): int
    requires 0.0 < period
  {
    (limit as real * dt / period).Floor
  }

  /** What `tokens` tokens have become after the time `dt`: the whole tokens earned are
      added, up to the limit. */
  function Earned(limit: int, period: real, tokens: int, dt: real): int
    requires 0.0 < period
  {
    var t := tokens + Whole(limit, period, dt);
    if t < limit then t else limit
  }

  /** The tokens at `now`: a key without a bucket has them all. */
  function TokensAt(r: Rule, s: State, now: real): int
    requires Sane(r)
  {
    if s.None? then r.limit else Earned(r.limit, r.period, s.value.tokens, now - s.value.lastUsed)
  }

  /** No block is pending at `now`. */
  predicate Free(r: Rule, s: State, now: real) {
    s.Some? ==> r.block <= 0.0 || s.value.deadline <= now
  }

  /** `x` tokens or up to the limit. */
  function Capped(limit: int, tokens: int, x: real): int {
    var t := tokens + x.Floor;
    if t < limit then t else limit
  }

  lemma EarnedIs(limit: int, period: real, tokens: int, dt: real, x: real)
    requires 0.0 < period && x == limit as real * dt / period
    ensures Earned(limit, period, tokens, dt) == Capped(limit, tokens, x)
  {
  }

  lemma RefillFrom(b: Bucket, now: real, x: real)
    requires Fine(b, now) && x == Credit(b.capacity, b.period, now - b.lastUsed)
    ensures Refill(b, now) == Capped(b.capacity, b.tokens, x)
  {
  }

  /** Dividing first or multiplying first. */
  lemma QuotientFirst(a: real, b: real, c: real)
    requires 0.0 < c
    ensures (a / c) * b == b * a / c
  {
    assert a / c * c == a;
    assert ((a / c) * b) * c == b * a;
  }

  lemma CreditIs(n: int, period: real, dt: real)
    requires 0.0 < period
    ensures Credit(n, period, dt) == n as real * dt / period
  {
    QuotientFirst(dt, n as real, period);
  }

  lemma CappedAlmost(limit: int, tokens: int, x: real)
    ensures Capped(limit, tokens, x) == limit || Capped(limit, tokens, x) as real > tokens as real + x - 1.0
  {
  }

  /** A refill grants all whole tokens of credit that there is room for. */
  lemma RefillEarned(b: Bucket, now: real)
    requires Fine(b, now)
    ensures Refill(b, now) == Earned(b.capacity, b.period, b.tokens, now - b.lastUsed)
    ensures Refill(b, now) == b.capacity
         || Refill(b, now) as real > b.tokens as real + Credit(b.capacity, b.period, now - b.lastUsed) - 1.0
  {
    Earning(b, now, now - b.lastUsed, Credit(b.capacity, b.period, now - b.lastUsed));
  }

  lemma Earning(b: Bucket, now: real, dt: real, x: real)
    requires Fine(b, now) && dt == now - b.lastUsed && x == Credit(b.capacity, b.period, dt)
    ensures Refill(b, now) == Earned(b.capacity, b.period, b.tokens, dt)
    ensures Refill(b, now) == b.capacity || Refill(b, now) as real > b.tokens as real + x - 1.0
  {
    CreditIs(b.capacity, b.period, dt);
    EarnedIs(b.capacity, b.period, b.tokens, dt, x);
    RefillFrom(b, now, x);
    CappedAlmost(b.capacity, b.tokens, x);
  }

  lemma RefillIs(r: Rule, s: State, now: real)
    requires Sane(r) && Ok(r, s, now)
    ensures Refill(Fetch(r, s, now), now) == TokensAt(r, s, now)
    ensures 0 <= TokensAt(r, s, now) <= r.limit
  {
    var b := Fetch(r, s, now);
    FetchOk(r, s, now);
    RefillBounds(b, now);
    RefillEarned(b, now);
  }

  /** Credit below one token. */
  lemma TooSoon(limit: int, period: real, dt: real)
    requires 0 <= limit && 0.0 < period && 0.0 <= dt
    ensures Earned(limit, period, 0, dt) == 0 <==> limit as real * dt < period
    ensures 0 <= Earned(limit, period, 0, dt)
  {
    Product(limit as real, dt);
    FloorOf(limit as real * dt, period);
    EarnedIs(limit, period, 0, dt, limit as real * dt / period);
  }

  lemma Product(a: real, b: real)
    requires 0.0 <= a && 0.0 <= b
    ensures 0.0 <= a * b
  {
  }

  lemma FloorOf(x: real, period: real)
    requires 0.0 < period && 0.0 <= x
    ensures var t := (x / period).Floor; 0 <= t && (t == 0 <==> x < period)
  {
    assert x / period * period == x;
    if x / period < 1.0 {
      Below(x / period, period);
    } else {
      MulGrows(1.0, x / period, period);
    }
  }

  lemma Below(c: real, period: real)
    requires c < 1.0 && 0.0 < period
    ensures c * period < period
  {
    assert 0.0 < (1.0 - c) * period;
  }

  // ---------- one call ----------

  lemma JustNow(limit: int, period: real, tokens: int, dt: real)
    requires 0.0 < period && dt == 0.0 && tokens <= limit
    ensures Earned(limit, period, tokens, dt) == tokens
  {
    assert limit as real * dt == 0.0;
    EarnedIs(limit, period, tokens, dt, 0.0);
  }

  /** A token and no block: the call is granted and takes the token. */
  lemma Granted(r: Rule, s: State, now: real)
    requires Sane(r) && Ok(r, s, now) && 0.0 <= now && Free(r, s, now) && 1 <= TokensAt(r, s, now)
    ensures
      var (s', a) := Step(r, s, IsDenied(now));
      && a == Denied(false) && Ok(r, s', now) && Free(r, s', now) && s'.Some?
      && s'.value.tokens == TokensAt(r, s, now) - 1 && s'.value.lastUsed == now
      && TokensAt(r, s', now) == TokensAt(r, s, now) - 1
  {
    RefillIs(r, s, now);
    StepOk(r, s, IsDenied(now), now);
    JustNow(r.limit, r.period, TokensAt(r, s, now) - 1, 0.0);
  }

  /** No token since `u`, however often the bucket has been called. */
  predicate Dry(s: State, u: real) {
    s.Some? && s.value.tokens == 0 && u <= s.value.lastUsed
  }

  lemma StillDry(r: Rule, s: State, now: real, u: real)
    requires Sane(r) && Ok(r, s, now) && Dry(s, u) && r.limit as real * (now - u) < r.period
    ensures TokensAt(r, s, now) == 0
  {
    MulGrows(now - s.value.lastUsed, now - u, r.limit as real);
    TooSoon(r.limit, r.period, now - s.value.lastUsed);
  }

  /** No token: the call is denied.  It counts as a use under a block only, and it
      begins a block where none is pending. */
  lemma Refused(r: Rule, s: State, now: real)
    requires Sane(r) && Ok(r, s, now) && s.Some? && TokensAt(r, s, now) == 0
    ensures
      var (s', a) := Step(r, s, IsDenied(now));
      && a == Denied(true) && Ok(r, s', now) && s'.Some? && s'.value.tokens == 0
      && s'.value.lastUsed == (if Free(r, s, now) then s.value.lastUsed else now)
      && s'.value.deadline == if 0.0 < r.block && Free(r, s, now) then now + r.block else s.value.deadline
  {
    RefillIs(r, s, now);
    StepOk(r, s, IsDenied(now), now);
  }

  /** Under a block a call is denied, takes a token if there is one, and counts as a use. */
  lemma UnderBlock(r: Rule, s: State, now: real)
    requires Sane(r) && Ok(r, s, now) && !Free(r, s, now)
    ensures
      var (s', a) := Step(r, s, IsDenied(now));
      && a == Denied(true) && Ok(r, s', now) && s'.Some? && s'.value.lastUsed == now
      && s'.value.tokens == (if 0 < TokensAt(r, s, now) then TokensAt(r, s, now) - 1 else 0)
      && s'.value.deadline == s.value.deadline && TokensAt(r, s', now) == s'.value.tokens
  {
    RefillIs(r, s, now);
    StepOk(r, s, IsDenied(now), now);
    JustNow(r.limit, r.period, Step(r, s, IsDenied(now)).0.value.tokens, 0.0);
  }

  // ---------- many calls ----------

  lemma AnswersCons(r: Rule, s: State, from: real, es: seq<Event>)
    requires Sane(r) && Ok(r, s, from) && Ordered(from, es) && es != []
    ensures Ok(r, Step(r, s, es[0]).0, es[0].now) && Ordered(es[0].now, es[1..])
    ensures Answers(r, s, from, es) == [Step(r, s, es[0]).1] + Answers(r, Step(r, s, es[0]).0, es[0].now, es[1..])
  {
    StepOk(r, s, es[0], es[0].now);
  }

  /** The first `k` calls are granted and no other. */
  predicate FirstGranted(a: seq<Answer>, k: int) {
    forall i :: 0 <= i < |a| ==> a[i] == Denied(i >= k)
  }

  lemma {:induction false} CountGranted(a: seq<Answer>, k: int)
    requires FirstGranted(a, k)
    ensures Admitted(a) == if k < 0 then 0 else if k < |a| then k else |a|
  {
    if a != [] {
      assert forall i :: 0 <= i < |a[1..]| ==> a[1..][i] == a[i + 1];
      CountGranted(a[1..], k - 1);
    }
  }

  lemma FirstGrantedCons(a: seq<Answer>, k: int)
    requires FirstGranted(a, k - 1) && 1 <= k
    ensures FirstGranted([Denied(false)] + a, k)
  {
  }

  lemma NoneGrantedCons(a: seq<Answer>)
    requires FirstGranted(a, 0)
    ensures FirstGranted([Denied(true)] + a, 0)
  {
  }

  predicate Soon(r: Rule, es: seq<Event>, u: real) {
    forall e :: e in es ==> e.IsDenied? && r.limit as real * (e.now - u) < r.period
  }

  /** An empty bucket that has not earned a token since `u` denies every call, and its
      being denied does not change that. */
  lemma {:induction false} DryRun(r: Rule, s: State, from: real, es: seq<Event>, u: real)
    requires Sane(r) && Ok(r, s, from) && Ordered(from, es) && Dry(s, u) && Soon(r, es, u)
    ensures FirstGranted(Answers(r, s, from, es), 0) && Dry(Run(r, s, from, es), u)
    decreases |es|
  {
    if es != [] {
      var e := es[0];
      assert e in es;
      StillDry(r, s, e.now, u);
      Refused(r, s, e.now);
      AnswersCons(r, s, from, es);
      assert forall x :: x in es[1..] ==> x in es;
      DryRun(r, Step(r, s, e).0, e.now, es[1..], u);
      NoneGrantedCons(Answers(r, Step(r, s, e).0, e.now, es[1..]));
    }
  }

  /** A call under a block is a use of the bucket: if there was no token, then as long
      as less than a token is earned from that call on, every call is denied, before
      the deadline and after it. */
  lemma BlockRenews(r: Rule, s: State, u: real, es: seq<Event>)
    requires Sane(r) && s.Some? && Ok(r, s, u) && 0.0 < r.block && u < s.value.deadline
    requires s.value.tokens == 0 && r.limit as real * (u - s.value.lastUsed) < r.period
    requires Ordered(u, es) && Soon(r, es, u)
    ensures Ordered(u, [IsDenied(u)] + es) && FirstGranted(Answers(r, s, u, [IsDenied(u)] + es), 0)
  {
    var all := [IsDenied(u)] + es;
    assert all[1..] == es;
    StillDry(r, s, u, s.value.lastUsed);
    UnderBlock(r, s, u);
    AnswersCons(r, s, u, all);
    DryRun(r, Step(r, s, IsDenied(u)).0, u, es, u);
    NoneGrantedCons(Answers(r, Step(r, s, IsDenied(u)).0, u, es));
  }

  /** Without tokens at `now`: of calls made then none is granted. */
  lemma NoneNow(r: Rule, s: State, now: real, n: nat)
    requires Sane(r) && Ok(r, s, now) && TokensAt(r, s, now) == 0
    ensures Ordered(now, Repeat(IsDenied(now), n)) && FirstGranted(Answers(r, s, now, Repeat(IsDenied(now), n)), 0)
  {
    OrderedRepeat(IsDenied(now), n);
    if s.None? {
      NewAlike(r, now, n);
      JustNow(r.limit, r.period, 0, 0.0);
    }
    var t := if s.None? then Some(Alloc(r, now)) else s;
    RefillIs(r, t, now);
    RefillBounds(t.value, now);
    TooSoon(r.limit, r.period, now - t.value.lastUsed);
    DryRun(r, t, now, Repeat(IsDenied(now), n), t.value.lastUsed);
  }

  /** A key without a bucket is answered as one with a new bucket. */
  lemma NewAlike(r: Rule, now: real, n: nat)
    requires Sane(r)
    ensures Ok(r, Some(Alloc(r, now)), now) && Ordered(now, Repeat(IsDenied(now), n))
    ensures Answers(r, None, now, Repeat(IsDenied(now), n))
         == Answers(r, Some(Alloc(r, now)), now, Repeat(IsDenied(now), n))
  {
    OrderedRepeat(IsDenied(now), n);
    if 0 < n {
      AnswersCons(r, None, now, Repeat(IsDenied(now), n));
      AnswersCons(r, Some(Alloc(r, now)), now, Repeat(IsDenied(now), n));
    }
  }

  /** Of any number of calls at one time, while no block is pending, exactly as many are
      granted as there are tokens. */
  lemma {:induction false} GrantsExactly(r: Rule, s: State, now: real, n: nat)
    requires Sane(r) && Ok(r, s, now) && 0.0 <= now && Free(r, s, now)
    ensures Ordered(now, Repeat(IsDenied(now), n))
    ensures FirstGranted(Answers(r, s, now, Repeat(IsDenied(now), n)), TokensAt(r, s, now))
    decreases n
  {
    OrderedRepeat(IsDenied(now), n);
    RefillIs(r, s, now);
    if TokensAt(r, s, now) == 0 {
      NoneNow(r, s, now, n);
    } else if 0 < n {
      var s' := Step(r, s, IsDenied(now)).0;
      Granted(r, s, now);
      AnswersCons(r, s, now, Repeat(IsDenied(now), n));
      assert Repeat(IsDenied(now), n)[1..] == Repeat(IsDenied(now), n - 1);
      GrantsExactly(r, s', now, n - 1);
      FirstGrantedCons(Answers(r, s', now, Repeat(IsDenied(now), n - 1)), TokensAt(r, s, now));
    }
  }

  /** What granted calls leave. */
  lemma {:induction false} Taken(r: Rule, s: State, now: real, n: nat)
    requires Sane(r) && Ok(r, s, now) && 0.0 <= now && Free(r, s, now) && 0 < n <= TokensAt(r, s, now)
    ensures Ordered(now, Repeat(IsDenied(now), n))
    ensures
      var s' := Run(r, s, now, Repeat(IsDenied(now), n));
      && Ok(r, s', now) && Free(r, s', now) && s'.Some? && s'.value.lastUsed == now
      && s'.value.tokens == TokensAt(r, s, now) - n
    decreases n
  {
    OrderedRepeat(IsDenied(now), n);
    Granted(r, s, now);
    assert Repeat(IsDenied(now), n)[1..] == Repeat(IsDenied(now), n - 1);
    if 1 < n {
      Taken(r, Step(r, s, IsDenied(now)).0, now, n - 1);
    }
  }

  /** What calls under a block leave, all of them denied. */
  lemma {:induction false} Charged(r: Rule, s: State, now: real, m: nat)
    requires Sane(r) && Ok(r, s, now) && !Free(r, s, now) && 0 < m
    ensures Ordered(now, Repeat(IsDenied(now), m)) && FirstGranted(Answers(r, s, now, Repeat(IsDenied(now), m)), 0)
    ensures
      var s' := Run(r, s, now, Repeat(IsDenied(now), m));
      && Ok(r, s', now) && s'.Some? && s'.value.lastUsed == now && s'.value.deadline == s.value.deadline
      && s'.value.tokens == if m < TokensAt(r, s, now) then TokensAt(r, s, now) - m else 0
    decreases m
  {
    OrderedRepeat(IsDenied(now), m);
    UnderBlock(r, s, now);
    AnswersCons(r, s, now, Repeat(IsDenied(now), m));
    assert Repeat(IsDenied(now), m)[1..] == Repeat(IsDenied(now), m - 1);
    if 1 < m {
      Charged(r, Step(r, s, IsDenied(now)).0, now, m - 1);
    } else {
      assert Answers(r, Step(r, s, IsDenied(now)).0, now, []) == [];
    }
    NoneGrantedCons(Answers(r, Step(r, s, IsDenied(now)).0, now, Repeat(IsDenied(now), m - 1)));
  }

  // ---------- what a caller sees ----------

  /** Answers to two groups of calls. */
  predicate InTwo(a: seq<Answer>, m: nat, j: int, k: int)
    requires m <= |a|
  {
    FirstGranted(a[..m], j) && FirstGranted(a[m..], k)
  }

  lemma Join(a: seq<Answer>, b: seq<Answer>, j: int, k: int)
    requires FirstGranted(a, j) && FirstGranted(b, k)
    ensures InTwo(a + b, |a|, j, k)
  {
    assert (a + b)[..|a|] == a && (a + b)[|a|..] == b;
  }

  /** Calls under a block cost tokens: of `m` calls at `u` none is granted, and of `n`
      calls at `v`, once the block is over, as many as were left of the tokens at `u`
      and have been earned since `u`. */
  lemma BlockCosts(r: Rule, s: State, u: real, m: nat, v: real, n: nat)
    requires Sane(r) && s.Some? && Ok(r, s, u) && 0.0 <= u && 0 < m
    requires 0.0 < r.block && u < s.value.deadline <= v
    ensures Ordered(u, Repeat(IsDenied(u), m) + Repeat(IsDenied(v), n))
    ensures
      var left := if m < TokensAt(r, s, u) then TokensAt(r, s, u) - m else 0;
      InTwo(Answers(r, s, u, Repeat(IsDenied(u), m) + Repeat(IsDenied(v), n)), m, 0,
            Earned(r.limit, r.period, left, v - u))
  {
    Charged(r, s, u, m);
    var s' := Run(r, s, u, Repeat(IsDenied(u), m));
    GrantsExactly(r, s', v, n);
    AnswersAppend(r, s, u, Repeat(IsDenied(u), m), v, Repeat(IsDenied(v), n));
    Join(Answers(r, s, u, Repeat(IsDenied(u), m)), Answers(r, s', v, Repeat(IsDenied(v), n)), 0, TokensAt(r, s', v));
  }

  /** A bucket that was emptied at `u` and is not under a block. */
  predicate EmptiedAt(r: Rule, s: State, u: real) {
    s.Some? && Ok(r, s, u) && Free(r, s, u) && s.value.tokens == 0 && s.value.lastUsed == u
  }

  lemma EmptiedTokens(r: Rule, s: State, u: real, now: real)
    requires Sane(r) && EmptiedAt(r, s, u) && u <= now
    ensures Ok(r, s, now) && Free(r, s, now) && TokensAt(r, s, now) == Earned(r.limit, r.period, 0, now - u)
  {
  }

  /** `limit` calls at once on a new key are granted and empty its bucket. */
  lemma Emptied(r: Rule, u: real) returns (s: State)
    requires Sane(r) && 0 < r.limit && 0.0 <= u
    ensures Ordered(u, Repeat(IsDenied(u), r.limit)) && s == Run(r, None, u, Repeat(IsDenied(u), r.limit))
    ensures EmptiedAt(r, s, u) && FirstGranted(Answers(r, None, u, Repeat(IsDenied(u), r.limit)), r.limit)
  {
    Taken(r, None, u, r.limit);
    GrantsExactly(r, None, u, r.limit);
    s := Run(r, None, u, Repeat(IsDenied(u), r.limit));
  }

  function AtMost(n: int, k: int): int {
    if k < n then k else n
  }

  lemma EarnedWhole(limit: int, period: real, dt: real)
    requires 0.0 < period
    ensures Earned(limit, period, 0, dt) == AtMost(limit, Whole(limit, period, dt))
  {
  }

  lemma NoCallsYet(r: Rule, u: real, v: real)
    requires Sane(r) && r.limit == 0
    ensures Ordered(u, Repeat(IsDenied(u), r.limit)) && Run(r, None, u, Repeat(IsDenied(u), r.limit)) == None
    ensures FirstGranted(Answers(r, None, u, Repeat(IsDenied(u), r.limit)), r.limit)
    ensures Ok(r, None, v) && Free(r, None, v) && TokensAt(r, None, v) == 0
  {
    assert Repeat(IsDenied(u), r.limit) == [];
  }

  lemma NothingToEarn(period: real, dt: real)
    requires 0.0 < period && 0.0 <= dt
    ensures Earned(0, period, 0, dt) == 0
  {
    TooSoon(0, period, dt);
  }

  /** What `limit` calls at `u` leave for `v`: the whole tokens earned in between, at
      most `limit`. */
  lemma Regained(r: Rule, u: real, v: real) returns (s: State, k: int)
    requires Sane(r) && 0.0 <= u <= v
    ensures Ordered(u, Repeat(IsDenied(u), r.limit)) && s == Run(r, None, u, Repeat(IsDenied(u), r.limit))
    ensures FirstGranted(Answers(r, None, u, Repeat(IsDenied(u), r.limit)), r.limit)
    ensures Ok(r, s, v) && Free(r, s, v) && TokensAt(r, s, v) == k
    ensures k == AtMost(r.limit, Whole(r.limit, r.period, v - u))
  {
    k := Earned(r.limit, r.period, 0, v - u);
    EarnedWhole(r.limit, r.period, v - u);
    if r.limit == 0 {
      s := None;
      NothingToEarn(r.period, v - u);
      NoCallsYet(r, u, v);
    } else {
      s := Emptied(r, u);
      EmptiedTokens(r, s, u, v);
    }
  }

  lemma JoinAsked(x: seq<Answer>, y: seq<Answer>, j: int, k: int)
    requires FirstGranted(x, j) && FirstGranted(y, k)
    ensures InTwo(x + y, |x|, j, k) && Admitted((x + y)[|x|..]) == if k < 0 then 0 else if k < |y| then k else |y|
  {
    Join(x, y, j, k);
    assert (x + y)[|x|..] == y;
    CountGranted(y, k);
  }

  lemma AskedLater(r: Rule, u: real, s: State, v: real, k: int, n: nat)
    requires Sane(r) && 0.0 <= u <= v && Ordered(u, Repeat(IsDenied(u), r.limit))
    requires s == Run(r, None, u, Repeat(IsDenied(u), r.limit))
    requires FirstGranted(Answers(r, None, u, Repeat(IsDenied(u), r.limit)), r.limit)
    requires Ok(r, s, v) && Free(r, s, v) && TokensAt(r, s, v) == k
    ensures Ordered(u, Repeat(IsDenied(u), r.limit) + Repeat(IsDenied(v), n))
    ensures
      var a := Answers(r, None, u, Repeat(IsDenied(u), r.limit) + Repeat(IsDenied(v), n));
      InTwo(a, r.limit, r.limit, k) && Admitted(a[r.limit..]) == if k < 0 then 0 else AtMost(n, k)
  {
    GrantsExactly(r, s, v, n);
    AnswersAppend(r, None, u, Repeat(IsDenied(u), r.limit), v, Repeat(IsDenied(v), n));
    JoinAsked(Answers(r, None, u, Repeat(IsDenied(u), r.limit)), Answers(r, s, v, Repeat(IsDenied(v), n)), r.limit, k);
  }

  /** A new key: `limit` calls at once are granted; of `n` calls later as many as whole
      tokens have been earned in between, at most `limit`. */
  lemma EmptiedThenAsked(r: Rule, u: real, v: real, n: nat)
    requires Sane(r) && 0.0 <= u <= v
    ensures Ordered(u, Repeat(IsDenied(u), r.limit) + Repeat(IsDenied(v), n))
    ensures
      var a := Answers(r, None, u, Repeat(IsDenied(u), r.limit) + Repeat(IsDenied(v), n));
      var k := AtMost(r.limit, Whole(r.limit, r.period, v - u));
      InTwo(a, r.limit, r.limit, k) && Admitted(a[r.limit..]) == AtMost(n, k)
  {
    var s, k := Regained(r, u, v);
    RefillIs(r, s, v);
    AskedLater(r, u, s, v, k, n);
  }

  /** And remaining() tells those tokens. */
  lemma EmptiedThenRemaining(r: Rule, u: real, v: real)
    requires Sane(r) && 0.0 <= u <= v
    ensures Ordered(u, Repeat(IsDenied(u), r.limit) + [Remaining(v)])
    ensures Answers(r, None, u, Repeat(IsDenied(u), r.limit) + [Remaining(v)])[r.limit]
         == Tokens(AtMost(r.limit, Whole(r.limit, r.period, v - u)))
  {
    var s, k := Regained(r, u, v);
    RemainingLater(r, u, s, v, k);
  }

  lemma RemainingLater(r: Rule, u: real, s: State, v: real, k: int)
    requires Sane(r) && u <= v && Ordered(u, Repeat(IsDenied(u), r.limit)) && Ok(r, s, v) && TokensAt(r, s, v) == k
    requires s == Run(r, None, u, Repeat(IsDenied(u), r.limit))
    ensures Ordered(u, Repeat(IsDenied(u), r.limit) + [Remaining(v)])
    ensures Answers(r, None, u, Repeat(IsDenied(u), r.limit) + [Remaining(v)])[r.limit] == Tokens(k)
  {
    OneRemaining(r, s, v);
    AnswersAppend(r, None, u, Repeat(IsDenied(u), r.limit), v, [Remaining(v)]);
  }

  lemma OneRemaining(r: Rule, s: State, now: real)
    requires Sane(r) && Ok(r, s, now)
    ensures Ordered(now, [Remaining(now)]) && Answers(r, s, now, [Remaining(now)]) == [Tokens(TokensAt(r, s, now))]
  {
    RefillIs(r, s, now);
    assert [Remaining(now)][1..] == [];
    AnswersCons(r, s, now, [Remaining(now)]);
  }

  /** remaining() stores what it tells and does not count as a use: a second one earns
      again from the last use. */
  lemma RemainingTwice(r: Rule, s: State, u: real, v: real)
    requires Sane(r) && s.Some? && Ok(r, s, u) && u <= v
    ensures Ordered(u, [Remaining(u), Remaining(v)])
    ensures Answers(r, s, u, [Remaining(u), Remaining(v)])
         == [Tokens(TokensAt(r, s, u)), Tokens(Earned(r.limit, r.period, TokensAt(r, s, u), v - s.value.lastUsed))]
  {
    var es := [Remaining(u), Remaining(v)];
    assert es[1..] == [Remaining(v)];
    RefillIs(r, s, u);
    AnswersCons(r, s, u, es);
    var s' := Step(r, s, Remaining(u)).0;
    OneRemaining(r, s', v);
    AnswersAnyStart(r, s', u, v, [Remaining(v)]);
  }

  /** A call that is denied for want of a token begins a block, and is no use. */
  lemma BlockStarts(r: Rule, s: State, u: real, t: real)
    requires Sane(r) && 0.0 < r.block && EmptiedAt(r, s, u) && u <= t
    requires r.limit as real * (t - u) < r.period
    ensures
      var (s', a) := Step(r, s, IsDenied(t));
      && a == Denied(true) && Ok(r, s', t) && s'.Some?
      && s'.value.tokens == 0 && s'.value.lastUsed == u && s'.value.deadline == t + r.block
  {
    StillDry(r, s, t, u);
    Refused(r, s, t);
  }

  lemma BlockTells(r: Rule, s: State, u: real, t: real, w: real)
    requires Sane(r) && 0.0 < r.block && EmptiedAt(r, s, u) && u <= t <= w
    requires r.limit as real * (t - u) < r.period
    ensures Ordered(t, [IsDenied(t), Blocked(w)])
    ensures Answers(r, s, t, [IsDenied(t), Blocked(w)])
         == [Denied(true), Wait(if w < t + r.block then t + r.block - w else 0.0)]
    ensures Run(r, s, t, [IsDenied(t), Blocked(w)]) == Step(r, s, IsDenied(t)).0
  {
    var es := [IsDenied(t), Blocked(w)];
    assert es[1..] == [Blocked(w)];
    BlockStarts(r, s, u, t);
    OneBlocked(r, Step(r, s, IsDenied(t)).0, t, w);
    AnswersCons(r, s, t, es);
  }

  lemma OneBlocked(r: Rule, s: State, from: real, w: real)
    requires Sane(r) && s.Some? && Ok(r, s, from) && from <= w
    ensures Ordered(from, [Blocked(w)]) && Run(r, s, from, [Blocked(w)]) == s
    ensures Answers(r, s, from, [Blocked(w)]) == [Wait(if w < s.value.deadline then s.value.deadline - w else 0.0)]
  {
    assert [Blocked(w)][1..] == [];
    AnswersCons(r, s, from, [Blocked(w)]);
    assert Run(r, s, w, []) == s;
  }

  /** After the block: what has been earned since the bucket was emptied. */
  lemma BlockEnds(r: Rule, s: State, u: real, t: real, v: real, n: nat)
    requires Sane(r) && 0.0 < r.block && EmptiedAt(r, s, u) && 0.0 <= u <= t && t + r.block <= v
    requires r.limit as real * (t - u) < r.period
    ensures var s' := Step(r, s, IsDenied(t)).0;
            && Ok(r, s', v) && Ordered(v, Repeat(IsDenied(v), n))
            && FirstGranted(Answers(r, s', v, Repeat(IsDenied(v), n)), Earned(r.limit, r.period, 0, v - u))
  {
    BlockStarts(r, s, u, t);
    GrantsExactly(r, Step(r, s, IsDenied(t)).0, v, n);
  }

  /** How a block begins and ends for a new key: after `limit` calls at once a call
      before a token is earned is denied and begins the block, blocked() tells the rest
      of it, and once it is over calls are granted for what has been earned since the
      last granted one. */
  lemma BlockCycle(r: Rule, u: real, t: real, w: real, v: real, n: nat)
    requires Sane(r) && 0 < r.limit && 0.0 < r.block && 0.0 <= u <= t <= w <= v && t + r.block <= v
    requires r.limit as real * (t - u) < r.period
    ensures Ordered(u, Repeat(IsDenied(u), r.limit) + ([IsDenied(t), Blocked(w)] + Repeat(IsDenied(v), n)))
    ensures
      var a := Answers(r, None, u, Repeat(IsDenied(u), r.limit) + ([IsDenied(t), Blocked(w)] + Repeat(IsDenied(v), n)));
      && FirstGranted(a[..r.limit], r.limit)
      && a[r.limit] == Denied(true)
      && a[r.limit + 1] == Wait(if w < t + r.block then t + r.block - w else 0.0)
      && FirstGranted(a[r.limit + 2..], Earned(r.limit, r.period, 0, v - u))
  {
    var s := Emptied(r, u);
    var es, fs := [IsDenied(t), Blocked(w)], Repeat(IsDenied(v), n);
    BlockTells(r, s, u, t, w);
    BlockEnds(r, s, u, t, v, n);
    AnswersAppend(r, s, t, es, v, fs);
    AnswersAppend(r, None, u, Repeat(IsDenied(u), r.limit), t, es + fs);
    InThree(Answers(r, None, u, Repeat(IsDenied(u), r.limit)), Answers(r, s, t, es),
            Answers(r, Run(r, s, t, es), v, fs));
  }

  lemma InThree(x: seq<Answer>, y: seq<Answer>, z: seq<Answer>)
    ensures (x + (y + z))[..|x|] == x && (x + (y + z))[|x| + |y|..] == z
    ensures forall i :: 0 <= i < |y| ==> (x + (y + z))[|x| + i] == y[i]
  {
    var a := x + (y + z);
    assert forall i :: 0 <= i < |z| ==> a[|x| + |y| + i] == z[i];
    assert a[|x| + |y|..] == z;
  }
}
