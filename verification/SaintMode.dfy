/** The saint mode blacklist of one backend: expired entries are removed only
    when a query walks over them, and a query stops at the first match. */
module SaintMode {

  datatype Trouble = Trouble(digest: int, timeout: real)
  /** The digest of a query, which may be a null pointer. */
  datatype DigestArg = NoDigest | Digest(value: int)

  /** The entries still in force at `now`. */
  function Live(s: seq<Trouble>, now: real): seq<Trouble> {
    if s == [] then []
    else if s[0].timeout < now then Live(s[1..], now)
    else [s[0]] + Live(s[1..], now)
  }

  predicate Matches(digest: DigestArg, t: Trouble) {
    digest.Digest? && digest.value == t.digest
  }

  predicate Blacklisted(s: seq<Trouble>, digest: DigestArg) {
    exists i :: 0 <= i < |s| && Matches(digest, s[i])
  }

  /** What a query should answer, from every entry ever blacklisted. */
  predicate Healthy(history: seq<Trouble>, threshold: nat, digest: DigestArg, now: real) {
    !Blacklisted(Live(history, now), digest) && |Live(history, now)| < threshold
  }

  /** What one more entry does to the answer: a timed out one nothing; one in force uses
      up one of the threshold, and makes its own digest unhealthy. */
  lemma OneMoreEntry(x: Trouble, history: seq<Trouble>, threshold: nat, digest: DigestArg, now: real)
    ensures Healthy([], threshold, digest, now) <==> 0 < threshold
    ensures x.timeout < now ==>
        (Healthy([x] + history, threshold, digest, now) <==> Healthy(history, threshold, digest, now))
    ensures now <= x.timeout ==>
        (Healthy([x] + history, threshold + 1, digest, now) <==>
         Healthy(history, threshold, digest, now) && digest != Digest(x.digest))
  {
    var s, live := [x] + history, Live(history, now);
    assert s[1..] == history;
    if now <= x.timeout {
      assert Live(s, now) == [x] + live;
      assert forall i :: 0 <= i < |live| ==> ([x] + live)[i + 1] == live[i];
      assert ([x] + live)[0] == x;
      assert Matches(digest, x) <==> digest == Digest(x.digest);
      assert forall i :: 1 <= i < |[x] + live| ==> ([x] + live)[i] == live[i - 1];
    }
  }

  /** What a query leaves of the list: up to the first match only live entries,
      from there on everything. */
  function After(s: seq<Trouble>, digest: DigestArg, now: real): (r: seq<Trouble>)
    ensures |r| <= |s|
  {
    if s == [] then []
    else if s[0].timeout < now then After(s[1..], digest, now)
    else if Matches(digest, s[0]) then s
    else [s[0]] + After(s[1..], digest, now)
  }

  lemma {:induction false} LiveLater(s: seq<Trouble>, digest: DigestArg, now: real, later: real)
    requires now <= later
    ensures Live(After(s, digest, now), later) == Live(s, later)
  {
    if s != [] && (s[0].timeout < now || !Matches(digest, s[0])) {
      LiveLater(s[1..], digest, now, later);
    }
  }

  /** And only later: against any earlier time some list answers wrongly. */
  lemma EarlierIsWrong(now: real, earlier: real, d: int) returns (s: seq<Trouble>)
    requires earlier < now
    ensures Healthy(After(s, NoDigest, now), 2, Digest(d), earlier) && !Healthy(s, 2, Digest(d), earlier)
  {
    s := [Trouble(d, earlier)];
    assert Live(s, earlier)[0] == s[0];
  }

  lemma {:induction false} LiveShorter(s: seq<Trouble>, now: real)
    ensures |Live(s, now)| <= |s|
    ensures forall t :: t in Live(s, now) <==> t in s && t.timeout >= now
  {
    if s != [] {
      LiveShorter(s[1..], now);
    }
  }

  /** A query that meets no match has seen everything: all that is left is live. */
  lemma {:induction false} AfterNoMatch(s: seq<Trouble>, digest: DigestArg, now: real)
    requires !Blacklisted(Live(s, now), digest)
    ensures After(s, digest, now) == Live(s, now)
  {
    if s != [] {
      var r := Live(s[1..], now);
      forall i | 0 <= i < |r| ensures !Matches(digest, r[i]) {
        if s[0].timeout >= now {
          assert Live(s, now)[i + 1] == r[i];
        }
      }
      AfterNoMatch(s[1..], digest, now);
      if s[0].timeout >= now {
        assert Live(s, now)[0] == s[0];
      }
    }
  }

  /** The length of the list is the number of entries in force exactly when none of
      its entries has timed out. */
  lemma {:induction false} LiveAll(s: seq<Trouble>, now: real)
    ensures |Live(s, now)| == |s| <==> forall i :: 0 <= i < |s| ==> now <= s[i].timeout
  {
    if s != [] {
      LiveAll(s[1..], now);
      LiveShorter(s[1..], now);
      assert forall i :: 1 <= i < |s| ==> s[i] == s[1..][i - 1];
      assert forall i :: 0 <= i < |s[1..]| ==> s[1..][i] == s[i + 1];
    }
  }

  /** A threshold of 0 is documented to disable saint mode.  The answer of the list is
      that of a saint mode so disabled exactly when the threshold is not 0. */
  lemma ThresholdZero(history: seq<Trouble>, threshold: nat, digest: DigestArg, now: real)
    ensures (Healthy(history, threshold, digest, now) <==> threshold == 0 || Healthy(history, threshold, digest, now))
            <==> threshold != 0
    ensures !Healthy([], 0, digest, now)
  {
  }

  class Director {
    const threshold: nat
    var n_trouble: nat
    var troublelist: seq<Trouble>
    /** Every entry ever blacklisted, newest first, and the latest time at which
        the list was queried. */
    ghost var history: seq<Trouble>
    ghost var clock: real

    ghost predicate Valid()
      reads this
    {
      && n_trouble == |troublelist| <= |history|
      && forall t :: t >= clock ==> Live(troublelist, t) == Live(history, t)
    }

    constructor (threshold: nat)
      ensures Valid() && this.threshold == threshold && history == [] && clock == 0.0
    {
      this.threshold := threshold;
      n_trouble, troublelist := 0, [];
      history, clock := [], 0.0;
    }

    /** vmod_blacklist, once the director has been found. */
    method Blacklist(digest: int, tPrev: real, expires: real)
      requires Valid()
      modifies this
      ensures Valid() && clock == old(clock)
      ensures history == [Trouble(digest, tPrev + expires)] + old(history)
      ensures n_trouble == old(n_trouble) + 1
    {
      var tp := Trouble(digest, tPrev + expires);
      troublelist := [tp] + troublelist;
      n_trouble := n_trouble + 1;
      history := [tp] + history;
    }

    /** vmod_saintmode_blacklist_count: the length of the list, which is the number of
        entries still in force exactly when no entry of the list has timed out. */
    method BlacklistCount() returns (c: nat)
      requires Valid()
      ensures c == n_trouble == |troublelist| <= |history|
      ensures forall t :: t >= clock ==>
        && |Live(history, t)| <= c
        && (|Live(history, t)| == c <==> forall i :: 0 <= i < |troublelist| ==> t <= troublelist[i].timeout)
    {
      c := n_trouble;
      forall t | t >= clock
        ensures |Live(history, t)| <= c
        ensures |Live(history, t)| == c <==> forall i :: 0 <= i < |troublelist| ==> t <= troublelist[i].timeout
      {
        LiveShorter(troublelist, t);
        LiveAll(troublelist, t);
      }
    }

    /** The walk of is_digest_healthy. */
    method Walk(digest: DigestArg, now: real) returns (retval: bool)
      requires n_trouble == |troublelist|
      modifies `troublelist, `n_trouble
      ensures n_trouble == |troublelist|
      ensures troublelist == After(old(troublelist), digest, now)
      ensures retval <==> !Blacklisted(Live(old(troublelist), now), digest)
    {
      retval := true;
      var i := 0;
      assert troublelist[0..] == troublelist && troublelist[..0] == [];
      while i < |troublelist|
        invariant n_trouble == |troublelist| && Walked(old(troublelist), troublelist, i, digest, now)
        decreases |troublelist| - i
      {
        var tr := troublelist[i];
        if tr.timeout < now {
          Expire(old(troublelist), troublelist, i, digest, now);
          troublelist := troublelist[..i] + troublelist[i + 1..];
          n_trouble := n_trouble - 1;
        } else if digest.Digest? && tr.digest == digest.value {
          Hit(old(troublelist), troublelist, i, digest, now);
          return false;
        } else {
          Pass(old(troublelist), troublelist, i, digest, now);
          i := i + 1;
        }
      }
      NoHit(old(troublelist), troublelist, digest, now);
    }

    /** is_digest_healthy. */
    method IsDigestHealthy(digest: DigestArg, now: real) returns (retval: bool)
      requires Valid()
      modifies `troublelist, `n_trouble, `clock
      ensures clock == if now > old(clock) then now else old(clock)
      ensures Valid()
      ensures now >= old(clock) ==> (retval <==> Healthy(history, threshold, digest, now))
    {
      retval := Walk(digest, now);
      if threshold <= n_trouble {
        retval := false;
      }
      ghost var before := clock;
      clock := if now > clock then now else clock;
      forall t | t >= clock ensures Live(troublelist, t) == Live(history, t) {
        LiveLater(old(troublelist), digest, now, t);
      }
      if now >= before && !Blacklisted(Live(old(troublelist), now), digest) {
        AfterNoMatch(old(troublelist), digest, now);
      }
    }

    /** healthy: the backend's own answer, unless saint mode overrules it. */
    method HealthyDirector(digest: DigestArg, now: real, backend: bool) returns (r: bool)
      requires Valid()
      modifies `troublelist, `n_trouble, `clock
      ensures Valid() && clock >= old(clock)
      ensures now >= old(clock) ==> (r <==> backend && (threshold == 0 || Healthy(history, threshold, digest, now)))
    {
      if threshold == 0 || n_trouble == 0 {
        if n_trouble == 0 {
          assert Live([], now) == [];
        }
        return backend;
      }
      var retval := IsDigestHealthy(digest, now);
      r := retval && backend;
    }

    /** vmod_saintmode_is_healthy in a client transaction. */
    method IsHealthy(hashed: bool, digest: int, now: real) returns (r: bool)
      requires Valid()
      modifies `troublelist, `n_trouble, `clock
      ensures Valid() && clock >= old(clock)
      ensures now >= old(clock) ==>
          (r <==> Healthy(history, threshold, if hashed then Digest(digest) else NoDigest, now))
    {
      r := IsDigestHealthy(if hashed then Digest(digest) else NoDigest, now);
    }
  }

  /** Halfway through a walk over `was`: the first `i` entries of the list have been
      passed, and are live and no matches. */
  ghost predicate Walked(was: seq<Trouble>, s: seq<Trouble>, i: nat, digest: DigestArg, now: real) {
    && i <= |s|
    && s[..i] + After(s[i..], digest, now) == After(was, digest, now)
    && s[..i] + Live(s[i..], now) == Live(was, now)
    && forall j :: 0 <= j < i ==> !Matches(digest, s[j])
  }

  lemma Expire(was: seq<Trouble>, s: seq<Trouble>, i: nat, digest: DigestArg, now: real)
    requires Walked(was, s, i, digest, now) && i < |s| && s[i].timeout < now
    ensures Walked(was, s[..i] + s[i + 1..], i, digest, now)
  {
    var w := s[..i] + s[i + 1..];
    assert s[i..][1..] == s[i + 1..];
    assert w[..i] == s[..i] && w[i..] == s[i + 1..];
  }

  lemma Pass(was: seq<Trouble>, s: seq<Trouble>, i: nat, digest: DigestArg, now: real)
    requires Walked(was, s, i, digest, now) && i < |s| && s[i].timeout >= now && !Matches(digest, s[i])
    ensures Walked(was, s, i + 1, digest, now)
  {
    assert s[i..][1..] == s[i + 1..];
    OneFurther(s, i, After(s[i + 1..], digest, now));
    OneFurther(s, i, Live(s[i + 1..], now));
  }

  lemma OneFurther(s: seq<Trouble>, i: nat, rest: seq<Trouble>)
    requires i < |s|
    ensures s[..i] + ([s[i]] + rest) == s[..i + 1] + rest
  {
  }

  lemma Hit(was: seq<Trouble>, s: seq<Trouble>, i: nat, digest: DigestArg, now: real)
    requires Walked(was, s, i, digest, now) && i < |s| && s[i].timeout >= now && Matches(digest, s[i])
    ensures s == After(was, digest, now) && Blacklisted(Live(was, now), digest)
  {
    assert s[..i] + s[i..] == s;
    assert Live(was, now)[i] == s[i];
  }

  lemma NoHit(was: seq<Trouble>, s: seq<Trouble>, digest: DigestArg, now: real)
    requires Walked(was, s, |s|, digest, now)
    ensures s == After(was, digest, now) && !Blacklisted(Live(was, now), digest)
  {
    assert s[..|s|] == s && s[|s|..] == [];
    assert s + [] == s;
  }
}
