/** The whole throttle: sixteen partitions, each with its buckets and a counter
    that triggers a collection every GC_INTVL calls of is_denied. */
module ThrottleSystem {
  import opened TokenBucket
  import opened ThrottleRuns
  import opened ThrottleCollection

  const N_PART := 16
  const GC_INTVL := 1000

  /** SHA256 digests are 32 bytes, read here as one big-endian number. */
  const DIGEST_TAIL: int := 0x100_0000_0000_0000_0000_0000_0000_0000_0000_0000_0000_0000_0000_0000_0000_0000

  /** digest[0] & N_PART_MASK. */
  function PartOf(digest: int): (p: nat)
    ensures p < N_PART
  {
    (digest / DIGEST_TAIL) % N_PART
  }

  type Buckets = map<int, Bucket>

  datatype Partition = Partition(buckets: Buckets, gcCount: int)

  datatype Kind = AskDenied | AskRemaining | AskBlocked

  datatype Call = Call(kind: Kind, digest: int, now: real)

  function Lookup(m: Buckets, digest: int): State {
    if digest in m then Some(m[digest]) else None
  }

  predicate Expired(b: Bucket, now: real) {
    now - b.lastUsed > b.period
  }

  /** run_gc. */
  function Collected(m: Buckets, now: real): Buckets {
    map d | d in m && !Expired(m[d], now) :: m[d]
  }

  function ToEvent(c: Call): Event {
    match c.kind
    case AskDenied => IsDenied(c.now)
    case AskRemaining => Remaining(c.now)
    case AskBlocked => Blocked(c.now)
  }

  /** A call of is_denied that brings the counter to GC_INTVL collects. */
  predicate Triggers(p: Partition, c: Call) {
    c.kind == AskDenied && p.gcCount + 1 == GC_INTVL
  }

  predicate PartOk(ruleOf: int -> Rule, p: Partition, now: real) {
    forall d :: d in p.buckets ==> Sane(ruleOf(d)) && Ok(ruleOf(d), Some(p.buckets[d]), now)
  }

  /** The end of is_denied: one more call counted, and a collection when due. */
  function Ticked(p: Partition, now: real): Partition {
    if p.gcCount + 1 == GC_INTVL then Partition(Collected(p.buckets, now), 0) else Partition(p.buckets, p.gcCount + 1)
  }

  function PartStep(ruleOf: int -> Rule, p: Partition, c: Call, collects: bool): (Partition, Answer)
    requires PartOk(ruleOf, p, c.now) && Sane(ruleOf(c.digest))
  {
    var (s, a) := Step(ruleOf(c.digest), Lookup(p.buckets, c.digest), ToEvent(c));
    var m := p.buckets[c.digest := s.value];
    if c.kind != AskDenied then (Partition(m, p.gcCount), a)
    else if p.gcCount + 1 != GC_INTVL then (Partition(m, p.gcCount + 1), a)
    else (Partition(if collects then Collected(m, c.now) else m, 0), a)
  }

  /** What each call does to its bucket, with a bucket fetched first. */
  lemma PartStepFetched(ruleOf: int -> Rule, p: Partition, c: Call, m: Buckets)
    requires PartOk(ruleOf, p, c.now) && Sane(ruleOf(c.digest))
    requires m == p.buckets[c.digest := Fetch(ruleOf(c.digest), Lookup(p.buckets, c.digest), c.now)]
    ensures
      var r, d, b, now := ruleOf(c.digest), c.digest, m[c.digest], c.now;
      && Fine(b, now)
      && PartStep(ruleOf, p, c, true) ==
        match c.kind
        case AskDenied =>
          var (b', ret) := Deny(b, r.block, now);
          (Ticked(Partition(m[d := b'], p.gcCount), now), Denied(ret))
        case AskRemaining => (Partition(m[d := b.(tokens := Refill(b, now))], p.gcCount), Tokens(Refill(b, now)))
        case AskBlocked => (Partition(m, p.gcCount), Wait(if b.deadline - now <= 0.0 then 0.0 else b.deadline - now))
  {
    FetchOk(ruleOf(c.digest), Lookup(p.buckets, c.digest), c.now);
    var s' := Step(ruleOf(c.digest), Lookup(p.buckets, c.digest), ToEvent(c)).0;
    assert m[c.digest := s'.value] == p.buckets[c.digest := s'.value];
  }

  // ---------- the whole system ----------

  type System = seq<Partition>

  /** No call has been made yet. */
  function NoCalls(): System {
    seq(N_PART, i => Partition(map[], 0))
  }

  /** Every bucket is sound and sits in the partition its digest points to. */
  predicate SystemOk(ruleOf: int -> Rule, ps: System, now: real) {
    && |ps| == N_PART
    && forall i :: 0 <= i < N_PART ==>
      PartOk(ruleOf, ps[i], now) && forall d :: d in ps[i].buckets ==> PartOf(d) == i
  }

  predicate Calls(ruleOf: int -> Rule, from: real, cs: seq<Call>)
    decreases |cs|
  {
    cs != [] ==> from <= cs[0].now && Sane(ruleOf(cs[0].digest)) && Calls(ruleOf, cs[0].now, cs[1..])
  }

  lemma PartStepOk(ruleOf: int -> Rule, p: Partition, c: Call, collects: bool)
    requires PartOk(ruleOf, p, c.now) && Sane(ruleOf(c.digest))
    ensures PartOk(ruleOf, PartStep(ruleOf, p, c, collects).0, c.now)
  {
    StepOk(ruleOf(c.digest), Lookup(p.buckets, c.digest), ToEvent(c), c.now);
  }

  lemma SystemLater(ruleOf: int -> Rule, ps: System, now: real, later: real)
    requires SystemOk(ruleOf, ps, now) && now <= later
    ensures SystemOk(ruleOf, ps, later)
  {
  }

  function SystemStep(ruleOf: int -> Rule, ps: System, c: Call, collects: bool): (r: (System, Answer))
    requires SystemOk(ruleOf, ps, c.now) && Sane(ruleOf(c.digest))
    ensures SystemOk(ruleOf, r.0, c.now)
  {
    var i := PartOf(c.digest);
    PartStepOk(ruleOf, ps[i], c, collects);
    var (p, a) := PartStep(ruleOf, ps[i], c, collects);
    (ps[i := p], a)
  }

  function SystemAnswers(ruleOf: int -> Rule, ps: System, from: real, cs: seq<Call>, collects: bool): (a: seq<Answer>)
    requires SystemOk(ruleOf, ps, from) && Calls(ruleOf, from, cs)
    ensures |a| == |cs|
    decreases |cs|
  {
    if cs == [] then []
    else
      SystemLater(ruleOf, ps, from, cs[0].now);
      var (ps', a) := SystemStep(ruleOf, ps, cs[0], collects);
      [a] + SystemAnswers(ruleOf, ps', cs[0].now, cs[1..], collects)
  }

  // ---------- what one bucket sees ----------

  function StateOf(ps: System, d: int): State
    requires |ps| == N_PART
  {
    Lookup(ps[PartOf(d)].buckets, d)
  }

  /** The events that one call means for the bucket `d`: its own, if the call is
      on `d`, and the collection, if the call triggers one in d's partition. */
  function Seen(ps: System, c: Call, d: int): seq<Event>
    requires |ps| == N_PART
  {
    (if c.digest == d then [ToEvent(c)] else [])
    + (if PartOf(c.digest) == PartOf(d) && Triggers(ps[PartOf(d)], c) then [Collect(c.now)] else [])
  }

  function SeenAll(ruleOf: int -> Rule, ps: System, from: real, cs: seq<Call>, d: int): seq<Event>
    requires SystemOk(ruleOf, ps, from) && Calls(ruleOf, from, cs)
    decreases |cs|
  {
    if cs == [] then []
    else
      SystemLater(ruleOf, ps, from, cs[0].now);
      Seen(ps, cs[0], d) + SeenAll(ruleOf, SystemStep(ruleOf, ps, cs[0], true).0, cs[0].now, cs[1..], d)
  }

  /** The answers to the calls on `d`. */
  function AnswersTo(d: int, cs: seq<Call>, a: seq<Answer>): seq<Answer>
    requires |a| == |cs|
  {
    if cs == [] then [] else (if cs[0].digest == d then [a[0]] else []) + AnswersTo(d, cs[1..], a[1..])
  }

  function Spoken(a: seq<Answer>): seq<Answer> {
    if a == [] then [] else if a[0] == Silent then Spoken(a[1..]) else [a[0]] + Spoken(a[1..])
  }

  lemma SeenStep(ruleOf: int -> Rule, ps: System, c: Call, d: int)
    requires SystemOk(ruleOf, ps, c.now) && Sane(ruleOf(c.digest)) && Sane(ruleOf(d))
    ensures
      var r, s, es, (ps', a) := ruleOf(d), StateOf(ps, d), Seen(ps, c, d), SystemStep(ruleOf, ps, c, true);
      && Ok(r, s, c.now) && Ordered(c.now, es) && (forall e :: e in es ==> e.now == c.now)
      && Run(r, s, c.now, es) == StateOf(ps', d)
      && Spoken(Answers(r, s, c.now, es)) == (if c.digest == d then [a] else [])
  {
    var r, s := ruleOf(d), StateOf(ps, d);
    var es := Seen(ps, c, d);
    if c.digest == d {
      if Triggers(ps[PartOf(d)], c) {
        TwoEvents(r, s, ToEvent(c), Collect(c.now));
      } else {
        OneEvent(r, s, ToEvent(c));
      }
    } else if es != [] {
      OneEvent(r, s, Collect(c.now));
    }
  }

  lemma OneEvent(r: Rule, s: State, e: Event)
    requires Sane(r) && Ok(r, s, e.now)
    ensures Ordered(e.now, [e]) && Run(r, s, e.now, [e]) == Step(r, s, e).0
    ensures Answers(r, s, e.now, [e]) == [Step(r, s, e).1]
    ensures Spoken([Step(r, s, e).1]) == if e.Collect? then [] else [Step(r, s, e).1]
  {
    StepOk(r, s, e, e.now);
    assert [e][1..] == [] && [Step(r, s, e).1][1..] == [];
  }

  lemma TwoEvents(r: Rule, s: State, e: Event, f: Event)
    requires Sane(r) && Ok(r, s, e.now) && f.now == e.now && f.Collect? && !e.Collect?
    ensures Ordered(e.now, [e] + [f]) && Ok(r, Step(r, s, e).0, f.now)
    ensures Run(r, s, e.now, [e] + [f]) == Step(r, Step(r, s, e).0, f).0
    ensures Spoken(Answers(r, s, e.now, [e] + [f])) == [Step(r, s, e).1]
  {
    StepOk(r, s, e, e.now);
    OneEvent(r, Step(r, s, e).0, f);
    assert ([e] + [f])[1..] == [f];
    assert Answers(r, s, e.now, [e] + [f])[1..] == Answers(r, Step(r, s, e).0, e.now, [f]);
  }

  lemma {:induction false} SpokenAppend(a: seq<Answer>, b: seq<Answer>)
    ensures Spoken(a + b) == Spoken(a) + Spoken(b)
  {
    if a == [] {
      assert a + b == b;
    } else {
      assert (a + b)[1..] == a[1..] + b;
      SpokenAppend(a[1..], b);
    }
  }

  lemma {:induction false} AdmittedSpoken(a: seq<Answer>)
    ensures Admitted(Spoken(a)) == Admitted(a)
  {
    if a != [] {
      AdmittedSpoken(a[1..]);
      if a[0] != Silent {
        assert Spoken(a)[1..] == Spoken(a[1..]);
      }
    }
  }

  lemma RunAnyStart(r: Rule, s: State, from: real, from': real, es: seq<Event>)
    requires Sane(r) && Ok(r, s, from) && Ok(r, s, from') && Ordered(from, es) && Ordered(from', es)
    ensures Run(r, s, from, es) == Run(r, s, from', es)
  {
  }

  /** In every interleaving over the partitions, the answers to the calls on one
      bucket are those of that bucket's own run, with the collections that other
      calls of its partition have triggered in between. */
  lemma {:induction false} Projection(ruleOf: int -> Rule, ps: System, from: real, cs: seq<Call>, d: int)
    requires SystemOk(ruleOf, ps, from) && Calls(ruleOf, from, cs) && Sane(ruleOf(d))
    ensures Ordered(from, SeenAll(ruleOf, ps, from, cs, d)) && Ok(ruleOf(d), StateOf(ps, d), from)
    ensures Spoken(Answers(ruleOf(d), StateOf(ps, d), from, SeenAll(ruleOf, ps, from, cs, d)))
         == AnswersTo(d, cs, SystemAnswers(ruleOf, ps, from, cs, true))
    decreases |cs|
  {
    if cs != [] {
      var r, c, s := ruleOf(d), cs[0], StateOf(ps, d);
      SystemLater(ruleOf, ps, from, c.now);
      var (ps', a) := SystemStep(ruleOf, ps, c, true);
      var es, fs := Seen(ps, c, d), SeenAll(ruleOf, ps', c.now, cs[1..], d);
      Projection(ruleOf, ps', c.now, cs[1..], d);
      ProjectStep(ruleOf, ps, from, c, d, fs);
      var rest := SystemAnswers(ruleOf, ps', c.now, cs[1..], true);
      assert SystemAnswers(ruleOf, ps, from, cs, true) == [a] + rest;
      assert ([a] + rest)[1..] == rest;
    }
  }

  lemma ProjectStep(ruleOf: int -> Rule, ps: System, from: real, c: Call, d: int, fs: seq<Event>)
    requires SystemOk(ruleOf, ps, from) && from <= c.now && SystemOk(ruleOf, ps, c.now)
    requires Sane(ruleOf(c.digest)) && Sane(ruleOf(d))
    requires Ordered(c.now, fs) && Ok(ruleOf(d), StateOf(SystemStep(ruleOf, ps, c, true).0, d), c.now)
    ensures
      var r, s, es, (ps', a) := ruleOf(d), StateOf(ps, d), Seen(ps, c, d), SystemStep(ruleOf, ps, c, true);
      && Ok(r, s, from) && Ordered(from, es + fs)
      && Spoken(Answers(r, s, from, es + fs))
          == (if c.digest == d then [a] else []) + Spoken(Answers(r, StateOf(ps', d), c.now, fs))
  {
    var r, s, es := ruleOf(d), StateOf(ps, d), Seen(ps, c, d);
    SeenStep(ruleOf, ps, c, d);
    AnswersAnyStart(r, s, from, c.now, es);
    RunAnyStart(r, s, from, c.now, es);
    AnswersAppend(r, s, from, es, c.now, fs);
    SpokenAppend(Answers(r, s, from, es), Answers(r, Run(r, s, from, es), c.now, fs));
  }

  lemma {:induction false} SeenTimes(ruleOf: int -> Rule, ps: System, from: real, cs: seq<Call>, d: int, to: real)
    requires SystemOk(ruleOf, ps, from) && Calls(ruleOf, from, cs)
    requires forall c :: c in cs ==> c.now <= to
    ensures forall e :: e in SeenAll(ruleOf, ps, from, cs, d) ==> e.now <= to
    ensures (forall c :: c in cs && c.digest == d ==> c.kind != AskRemaining) ==>
              forall e :: e in SeenAll(ruleOf, ps, from, cs, d) ==> !e.Remaining?
    decreases |cs|
  {
    if cs != [] {
      assert cs[0] in cs;
      SystemLater(ruleOf, ps, from, cs[0].now);
      assert forall c :: c in cs[1..] ==> c in cs;
      SeenTimes(ruleOf, SystemStep(ruleOf, ps, cs[0], true).0, cs[0].now, cs[1..], d, to);
    }
  }

  /** The rate bound for one key in any stretch of any run of the whole throttle; with
      remaining() among the calls on the key, for limits up to one. */
  lemma SystemRateBound(ruleOf: int -> Rule, ps: System, from: real, cs: seq<Call>, d: int, to: real)
    requires SystemOk(ruleOf, ps, from) && Calls(ruleOf, from, cs) && Sane(ruleOf(d)) && from <= to
    requires forall c :: c in cs ==> c.now <= to
    requires ruleOf(d).limit <= 1 || forall c :: c in cs && c.digest == d ==> c.kind != AskRemaining
    ensures WithinRate(ruleOf(d), Admitted(AnswersTo(d, cs, SystemAnswers(ruleOf, ps, from, cs, true))), to - from)
  {
    var es := SeenAll(ruleOf, ps, from, cs, d);
    Projection(ruleOf, ps, from, cs, d);
    SeenTimes(ruleOf, ps, from, cs, d, to);
    AdmittedSpoken(Answers(ruleOf(d), StateOf(ps, d), from, es));
    RateBound(ruleOf(d), StateOf(ps, d), from, es, to);
  }

  // ---------- collection is invisible in the whole system ----------

  /** The bucket `d` after one call on any bucket. */
  lemma StateAfter(ruleOf: int -> Rule, ps: System, c: Call, d: int, collects: bool)
    requires SystemOk(ruleOf, ps, c.now) && Sane(ruleOf(c.digest)) && Sane(ruleOf(d))
    ensures
      var r, s := ruleOf(d), StateOf(ps, d);
      var s1 := if c.digest == d then Step(r, s, ToEvent(c)).0 else s;
      var hit := collects && PartOf(c.digest) == PartOf(d) && Triggers(ps[PartOf(d)], c);
      && Ok(r, s1, c.now)
      && StateOf(SystemStep(ruleOf, ps, c, collects).0, d) == (if hit then Step(r, s1, Collect(c.now)).0 else s1)
  {
    if c.digest == d {
      StepOk(ruleOf(d), StateOf(ps, d), ToEvent(c), c.now);
    }
  }

  lemma TwinStep(ruleOf: int -> Rule, ps: System, qs: System, c: Call, d: int)
    requires SystemOk(ruleOf, ps, c.now) && SystemOk(ruleOf, qs, c.now) && 0.0 <= c.now
    requires Sane(ruleOf(c.digest)) && Sane(ruleOf(d)) && BlockFits(ruleOf(d))
    requires Alike(ruleOf(d), StateOf(ps, d), StateOf(qs, d), c.now)
    ensures
      var (ps', a), (qs', b) := SystemStep(ruleOf, ps, c, true), SystemStep(ruleOf, qs, c, false);
      Alike(ruleOf(d), StateOf(ps', d), StateOf(qs', d), c.now) && (c.digest == d ==> a == b)
  {
    var r, s, t := ruleOf(d), StateOf(ps, d), StateOf(qs, d);
    StateAfter(ruleOf, ps, c, d, true);
    StateAfter(ruleOf, qs, c, d, false);
    var s1, t1 := s, t;
    if c.digest == d {
      StepAlike(r, s, t, ToEvent(c));
      s1, t1 := Step(r, s, ToEvent(c)).0, Step(r, t, ToEvent(c)).0;
    }
    if PartOf(c.digest) == PartOf(d) && Triggers(ps[PartOf(d)], c) {
      CollectAlike(r, s1, t1, Collect(c.now));
    }
  }

  /** A key whose block fits gets the same answers from the throttle that collects
      and from one that never does, whatever the other keys and their rules are. */
  lemma {:induction false} KeyCollectionInvisible(ruleOf: int -> Rule, ps: System, qs: System, from: real,
      cs: seq<Call>, d: int)
    requires SystemOk(ruleOf, ps, from) && SystemOk(ruleOf, qs, from) && Calls(ruleOf, from, cs) && 0.0 <= from
    requires Sane(ruleOf(d)) && BlockFits(ruleOf(d))
    requires Alike(ruleOf(d), StateOf(ps, d), StateOf(qs, d), from)
    ensures AnswersTo(d, cs, SystemAnswers(ruleOf, ps, from, cs, true))
         == AnswersTo(d, cs, SystemAnswers(ruleOf, qs, from, cs, false))
    decreases |cs|
  {
    if cs != [] {
      var c := cs[0];
      SystemLater(ruleOf, ps, from, c.now);
      SystemLater(ruleOf, qs, from, c.now);
      AlikeLater(ruleOf(d), StateOf(ps, d), StateOf(qs, d), from, c.now);
      TwinStep(ruleOf, ps, qs, c, d);
      var ps', qs' := SystemStep(ruleOf, ps, c, true).0, SystemStep(ruleOf, qs, c, false).0;
      KeyCollectionInvisible(ruleOf, ps', qs', c.now, cs[1..], d);
      assert SystemAnswers(ruleOf, ps, from, cs, true)[1..] == SystemAnswers(ruleOf, ps', c.now, cs[1..], true);
      assert SystemAnswers(ruleOf, qs, from, cs, false)[1..] == SystemAnswers(ruleOf, qs', c.now, cs[1..], false);
    }
  }

  /** The answers to each key together are all the answers. */
  lemma {:induction false} AnswersByKey(cs: seq<Call>, a: seq<Answer>, b: seq<Answer>)
    requires |a| == |b| == |cs|
    requires forall c :: c in cs ==> AnswersTo(c.digest, cs, a) == AnswersTo(c.digest, cs, b)
    ensures a == b
  {
    if cs != [] {
      var d := cs[0].digest;
      assert cs[0] in cs;
      assert AnswersTo(d, cs, a)[0] == AnswersTo(d, cs, b)[0];
      forall c | c in cs[1..] ensures AnswersTo(c.digest, cs[1..], a[1..]) == AnswersTo(c.digest, cs[1..], b[1..]) {
        assert c in cs;
        if c.digest == d {
          assert AnswersTo(d, cs, a)[1..] == AnswersTo(d, cs[1..], a[1..]);
          assert AnswersTo(d, cs, b)[1..] == AnswersTo(d, cs[1..], b[1..]);
        } else {
          assert AnswersTo(c.digest, cs, a) == AnswersTo(c.digest, cs[1..], a[1..]);
          assert AnswersTo(c.digest, cs, b) == AnswersTo(c.digest, cs[1..], b[1..]);
        }
      }
      AnswersByKey(cs[1..], a[1..], b[1..]);
      assert a == [a[0]] + a[1..] && b == [b[0]] + b[1..];
    }
  }

  /** So a run in which every key that is called has a block that fits is answered
      as a whole as if nothing were ever collected. */
  lemma SystemCollectionInvisible(ruleOf: int -> Rule, ps: System, qs: System, from: real, cs: seq<Call>)
    requires SystemOk(ruleOf, ps, from) && SystemOk(ruleOf, qs, from) && Calls(ruleOf, from, cs) && 0.0 <= from
    requires forall c :: c in cs ==> BlockFits(ruleOf(c.digest))
    requires forall c :: c in cs ==> Alike(ruleOf(c.digest), StateOf(ps, c.digest), StateOf(qs, c.digest), from)
    ensures SystemAnswers(ruleOf, ps, from, cs, true) == SystemAnswers(ruleOf, qs, from, cs, false)
  {
    var a, b := SystemAnswers(ruleOf, ps, from, cs, true), SystemAnswers(ruleOf, qs, from, cs, false);
    forall c | c in cs ensures AnswersTo(c.digest, cs, a) == AnswersTo(c.digest, cs, b) {
      CallsAreSane(ruleOf, from, cs, c);
      KeyCollectionInvisible(ruleOf, ps, qs, from, cs, c.digest);
    }
    AnswersByKey(cs, a, b);
  }

  lemma {:induction false} CallsAreSane(ruleOf: int -> Rule, from: real, cs: seq<Call>, c: Call)
    requires Calls(ruleOf, from, cs) && c in cs
    ensures Sane(ruleOf(c.digest)) && from <= c.now
    decreases |cs|
  {
    if c != cs[0] {
      assert c in cs[1..];
      CallsAreSane(ruleOf, cs[0].now, cs[1..], c);
    }
  }

  /** A collection never drops the bucket whose call has triggered it. */
  lemma KeepsOwnBucket(b: Bucket, block: real, now: real)
    requires Fine(b, now) && 1 <= b.capacity
    ensures !Expired(Deny(b, block, now).0, now)
  {
    if Refill(b, now) <= 0 {
      EmptyRefill(b, now);
      if b.period < now - b.lastUsed {
        CreditGrows(b.capacity, b.period, b.period, now - b.lastUsed);
        CreditOfPeriod(b.capacity, b.period);
      }
    }
  }

  /** So after a call its bucket is in the partition, in the state the call gave it. */
  lemma CallKeepsOwnBucket(ruleOf: int -> Rule, p: Partition, c: Call, collects: bool)
    requires PartOk(ruleOf, p, c.now) && Sane(ruleOf(c.digest)) && 1 <= ruleOf(c.digest).limit
    ensures c.digest in PartStep(ruleOf, p, c, collects).0.buckets
    ensures Lookup(PartStep(ruleOf, p, c, collects).0.buckets, c.digest)
         == Step(ruleOf(c.digest), Lookup(p.buckets, c.digest), ToEvent(c)).0
  {
    var r, s := ruleOf(c.digest), Lookup(p.buckets, c.digest);
    FetchOk(r, s, c.now);
    KeepsOwnBucket(Fetch(r, s, c.now), r.block, c.now);
  }
}
