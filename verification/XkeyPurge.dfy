/** What a purge visits, as a pure function of the index: for each token in
    turn, the objects tagged with it, in the order of tagging. */
module XkeyPurge {
  import opened XkeyIndex

  function Objects(es: seq<Entry>, d: int): seq<ObjCore> {
    if es == [] then [] else if es[0].digest == d then [es[0].obj] + Objects(es[1..], d) else Objects(es[1..], d)
  }

  function Visited(es: seq<Entry>, ds: seq<int>): seq<ObjCore> {
    if ds == [] then [] else Visited(es, ds[..|ds| - 1]) + Objects(es, ds[|ds| - 1])
  }

  /** The visits that are not skipped for a busy object. */
  function Idle(s: seq<ObjCore>, busy: set<ObjCore>): seq<ObjCore> {
    if s == [] then []
    else Idle(s[..|s| - 1], busy) + (if s[|s| - 1] in busy then [] else [s[|s| - 1]])
  }

  /** The linear scan: the objects that some entry tags with one of `ds`. */
  function Matches(es: seq<Entry>, ds: seq<int>, busy: set<ObjCore>): set<ObjCore> {
    set i | 0 <= i < |es| && es[i].digest in ds && es[i].obj !in busy :: es[i].obj
  }

  function Elements(s: seq<ObjCore>): set<ObjCore> {
    set o | o in s
  }

  predicate Once(s: seq<ObjCore>) {
    forall i, j :: 0 <= i < j < |s| ==> s[i] != s[j]
  }

  /** The record at place `j` of the list of `d` belongs to the object at place `j`. */
  lemma {:induction false} ListAt(es: seq<Entry>, d: int, j: nat) returns (i: nat)
    requires j < |ByDigest(es, d)|
    ensures |Objects(es, d)| == |ByDigest(es, d)|
    ensures i < |es| && es[i].oc == ByDigest(es, d)[j] && es[i].obj == Objects(es, d)[j] && es[i].digest == d
  {
    if es[0].digest == d {
      if j == 0 {
        i := 0;
        SameLength(es, d);
      } else {
        i := ListAt(es[1..], d, j - 1);
        i := i + 1;
      }
    } else {
      i := ListAt(es[1..], d, j);
      i := i + 1;
    }
  }

  lemma {:induction false} SameLength(es: seq<Entry>, d: int)
    ensures |Objects(es, d)| == |ByDigest(es, d)|
  {
    if es != [] {
      SameLength(es[1..], d);
    }
  }

  lemma IdleStep(s: seq<ObjCore>, o: ObjCore, busy: set<ObjCore>)
    ensures Idle(s + [o], busy) == Idle(s, busy) + (if o in busy then [] else [o])
  {
    assert (s + [o])[..|s|] == s;
  }

  lemma VisitedSnoc(es: seq<Entry>, ds: seq<int>, d: int)
    ensures Visited(es, ds + [d]) == Visited(es, ds) + Objects(es, d)
  {
    assert (ds + [d])[..|ds|] == ds;
  }

  lemma {:induction false} IdleHas(s: seq<ObjCore>, busy: set<ObjCore>, o: ObjCore)
    ensures o in Idle(s, busy) <==> o in s && o !in busy
  {
    if s != [] {
      IdleHas(s[..|s| - 1], busy, o);
      assert s == s[..|s| - 1] + [s[|s| - 1]];
    }
  }

  lemma {:induction false} ObjectsHas(es: seq<Entry>, d: int, o: ObjCore)
    ensures o in Objects(es, d) <==> exists i :: 0 <= i < |es| && es[i].digest == d && es[i].obj == o
  {
    if es != [] {
      ObjectsHas(es[1..], d, o);
      if exists i :: 0 <= i < |es| && es[i].digest == d && es[i].obj == o {
        var i :| 0 <= i < |es| && es[i].digest == d && es[i].obj == o;
        if 0 < i {
          assert es[1..][i - 1] == es[i];
        }
      }
      if o in Objects(es[1..], d) {
        var i :| 0 <= i < |es[1..]| && es[1..][i].digest == d && es[1..][i].obj == o;
        assert es[i + 1] == es[1..][i];
      }
    }
  }

  lemma {:induction false} VisitedHas(es: seq<Entry>, ds: seq<int>, o: ObjCore)
    ensures o in Visited(es, ds) <==> exists i :: 0 <= i < |es| && es[i].digest in ds && es[i].obj == o
  {
    if ds != [] {
      var d := ds[|ds| - 1];
      VisitedHas(es, ds[..|ds| - 1], o);
      ObjectsHas(es, d, o);
      assert ds == ds[..|ds| - 1] + [d];
    }
  }

  /** A hard purge rearms exactly what a linear scan of the index would. */
  lemma PurgeIsLinearScan(es: seq<Entry>, ds: seq<int>, busy: set<ObjCore>)
    ensures Elements(Idle(Visited(es, ds), busy)) == Matches(es, ds, busy)
  {
    var v := Visited(es, ds);
    forall o | o in Elements(Idle(v, busy)) ensures o in Matches(es, ds, busy) {
      IdleHas(v, busy, o);
      VisitedHas(es, ds, o);
    }
    forall o | o in Matches(es, ds, busy) ensures o in Elements(Idle(v, busy)) {
      IdleHas(v, busy, o);
      VisitedHas(es, ds, o);
    }
  }

  /** How many entries tag an idle object with `d`. */
  function IdleUnder(es: seq<Entry>, d: int, busy: set<ObjCore>): nat {
    if es == [] then 0
    else (if es[0].digest == d && es[0].obj !in busy then 1 else 0) + IdleUnder(es[1..], d, busy)
  }

  function IdleUnderAll(es: seq<Entry>, ds: seq<int>, busy: set<ObjCore>): nat {
    if ds == [] then 0 else IdleUnder(es, ds[0], busy) + IdleUnderAll(es, ds[1..], busy)
  }

  lemma {:induction false} IdleAppend(a: seq<ObjCore>, b: seq<ObjCore>, busy: set<ObjCore>)
    ensures Idle(a + b, busy) == Idle(a, busy) + Idle(b, busy)
  {
    if b == [] {
      assert a + b == a;
    } else {
      assert (a + b)[..|a + b| - 1] == a + b[..|b| - 1];
      IdleAppend(a, b[..|b| - 1], busy);
    }
  }

  lemma {:induction false} IdleObjects(es: seq<Entry>, d: int, busy: set<ObjCore>)
    ensures |Idle(Objects(es, d), busy)| == IdleUnder(es, d, busy)
  {
    if es != [] {
      IdleObjects(es[1..], d, busy);
      if es[0].digest == d {
        IdleAppend([es[0].obj], Objects(es[1..], d), busy);
        IdleStep([], es[0].obj, busy);
      }
    }
  }

  lemma {:induction false} IdleUnderAllSnoc(es: seq<Entry>, ds: seq<int>, d: int, busy: set<ObjCore>)
    ensures IdleUnderAll(es, ds + [d], busy) == IdleUnderAll(es, ds, busy) + IdleUnder(es, d, busy)
  {
    if ds == [] {
      assert IdleUnderAll(es, [], busy) == 0;
      assert [] + [d] == [d];
    } else {
      assert (ds + [d])[1..] == ds[1..] + [d];
      IdleUnderAllSnoc(es, ds[1..], d, busy);
    }
  }

  /** A hard purge counts index entries: one for every idle entry under every token. */
  lemma {:induction false} PurgeCountsEntries(es: seq<Entry>, ds: seq<int>, busy: set<ObjCore>)
    ensures |Idle(Visited(es, ds), busy)| == IdleUnderAll(es, ds, busy)
  {
    if ds != [] {
      var front, d := ds[..|ds| - 1], ds[|ds| - 1];
      PurgeCountsEntries(es, front, busy);
      IdleAppend(Visited(es, front), Objects(es, d), busy);
      IdleObjects(es, d, busy);
      IdleUnderAllSnoc(es, front, d, busy);
      assert ds == front + [d];
    }
  }

  lemma {:induction false} OnceCounts(s: seq<ObjCore>)
    ensures |Elements(s)| <= |s|
    ensures |Elements(s)| == |s| <==> Once(s)
  {
    if s != [] {
      var r, x := s[..|s| - 1], s[|s| - 1];
      OnceCounts(r);
      assert s == r + [x];
      if x in r {
        assert Elements(s) == Elements(r);
        var i :| 0 <= i < |r| && r[i] == x;
        assert s[i] == s[|s| - 1];
      } else {
        assert Elements(s) == Elements(r) + {x};
      }
    } else {
      assert Elements(s) == {};
    }
  }

  /** A token repeats only where every entry under it is busy, and no two entries
      under the tokens share an idle object. */
  ghost predicate Unrepeated(es: seq<Entry>, ds: seq<int>, busy: set<ObjCore>) {
    && (forall j, k :: 0 <= j < k < |ds| && ds[j] == ds[k] ==> AllBusy(es, ds[j], busy))
    && (forall i, j :: 0 <= i < j < |es| && es[i].digest in ds && es[j].digest in ds && es[i].obj !in busy
          ==> es[i].obj != es[j].obj)
  }

  ghost predicate AllBusy(es: seq<Entry>, d: int, busy: set<ObjCore>) {
    forall i :: 0 <= i < |es| && es[i].digest == d ==> es[i].obj in busy
  }

  /** No two entries under the one token share an idle object. */
  ghost predicate UnrepeatedUnder(es: seq<Entry>, d: int, busy: set<ObjCore>) {
    forall i, j :: 0 <= i < j < |es| && es[i].digest == d && es[j].digest == d && es[i].obj !in busy
                   ==> es[i].obj != es[j].obj
  }

  predicate Apart(a: seq<ObjCore>, b: seq<ObjCore>) {
    forall x :: x in a ==> x !in b
  }

  lemma OnceAppend(a: seq<ObjCore>, b: seq<ObjCore>)
    ensures Once(a + b) <==> Once(a) && Once(b) && Apart(a, b)
  {
    var s := a + b;
    assert forall i :: 0 <= i < |a| ==> a[i] == s[i];
    assert forall j :: 0 <= j < |b| ==> b[j] == s[|a| + j];
    if Once(a) && Once(b) && Apart(a, b) {
      forall i, j | 0 <= i < j < |s| ensures s[i] != s[j] {
        if i < |a| <= j {
          assert s[i] in a && s[j] in b;
        }
      }
    }
  }

  /** An idle visit comes from an idle entry under the token. */
  lemma IdleUnderHas(es: seq<Entry>, d: int, busy: set<ObjCore>, o: ObjCore)
    ensures o in Idle(Objects(es, d), busy)
            <==> o !in busy && exists i :: 0 <= i < |es| && es[i].digest == d && es[i].obj == o
  {
    IdleHas(Objects(es, d), busy, o);
    ObjectsHas(es, d, o);
  }

  lemma IdleVisitedHas(es: seq<Entry>, ds: seq<int>, busy: set<ObjCore>, o: ObjCore)
    ensures o in Idle(Visited(es, ds), busy)
            <==> o !in busy && exists i :: 0 <= i < |es| && es[i].digest in ds && es[i].obj == o
  {
    IdleHas(Visited(es, ds), busy, o);
    VisitedHas(es, ds, o);
  }

  lemma UnderTail(es: seq<Entry>, d: int, busy: set<ObjCore>)
    requires es != []
    ensures UnrepeatedUnder(es, d, busy) <==>
            && UnrepeatedUnder(es[1..], d, busy)
            && (es[0].digest == d && es[0].obj !in busy ==> es[0].obj !in Idle(Objects(es[1..], d), busy))
  {
    var r := es[1..];
    assert forall i :: 0 <= i < |r| ==> r[i] == es[i + 1];
    assert forall i :: 1 <= i < |es| ==> es[i] == r[i - 1];
    IdleUnderHas(r, d, busy, es[0].obj);
  }

  lemma {:induction false} OnceUnder(es: seq<Entry>, d: int, busy: set<ObjCore>)
    ensures Once(Idle(Objects(es, d), busy)) <==> UnrepeatedUnder(es, d, busy)
  {
    if es != [] {
      OnceUnder(es[1..], d, busy);
      UnderTail(es, d, busy);
      if es[0].digest == d {
        IdleAppend([es[0].obj], Objects(es[1..], d), busy);
        IdleStep([], es[0].obj, busy);
        OnceAppend(Idle([es[0].obj], busy), Idle(Objects(es[1..], d), busy));
      }
    }
  }

  lemma ApartBusy(es: seq<Entry>, ds: seq<int>, d: int, busy: set<ObjCore>)
    requires d in ds && Apart(Idle(Visited(es, ds), busy), Idle(Objects(es, d), busy))
    ensures AllBusy(es, d, busy)
  {
    forall i | 0 <= i < |es| && es[i].digest == d ensures es[i].obj in busy {
      IdleVisitedHas(es, ds, busy, es[i].obj);
      IdleUnderHas(es, d, busy, es[i].obj);
    }
  }

  /** One more token repeats nothing exactly when it repeats nothing by itself and
      shares no idle object with the tokens before it. */
  lemma UnrepeatedSnoc(es: seq<Entry>, ds: seq<int>, d: int, busy: set<ObjCore>)
    requires Unrepeated(es, ds, busy) && UnrepeatedUnder(es, d, busy)
    ensures Unrepeated(es, ds + [d], busy) <==> Apart(Idle(Visited(es, ds), busy), Idle(Objects(es, d), busy))
  {
    var a, b, all := Idle(Visited(es, ds), busy), Idle(Objects(es, d), busy), ds + [d];
    assert forall x :: x in all <==> x in ds || x == d;
    if Unrepeated(es, all, busy) {
      forall x | x in a ensures x !in b {
        IdleVisitedHas(es, ds, busy, x);
        IdleUnderHas(es, d, busy, x);
        if d in ds {
          var k :| 0 <= k < |ds| && ds[k] == d;
          assert all[k] == all[|ds|];
        }
      }
    }
    if Apart(a, b) {
      forall j, k | 0 <= j < k < |all| && all[j] == all[k] ensures AllBusy(es, all[j], busy) {
        if k == |ds| {
          ApartBusy(es, ds, d, busy);
        } else {
          assert all[j] == ds[j] && all[k] == ds[k];
        }
      }
      forall i, j | 0 <= i < j < |es| && es[i].digest in all && es[j].digest in all && es[i].obj !in busy
        ensures es[i].obj != es[j].obj
      {
        IdleVisitedHas(es, ds, busy, es[i].obj);
        IdleUnderHas(es, d, busy, es[i].obj);
      }
    }
  }

  lemma UnrepeatedParts(es: seq<Entry>, ds: seq<int>, d: int, busy: set<ObjCore>)
    requires Unrepeated(es, ds + [d], busy)
    ensures Unrepeated(es, ds, busy) && UnrepeatedUnder(es, d, busy)
  {
    var all := ds + [d];
    assert forall x :: x in all <==> x in ds || x == d;
    forall j, k | 0 <= j < k < |ds| && ds[j] == ds[k] ensures AllBusy(es, ds[j], busy) {
      assert all[j] == all[k];
    }
  }

  lemma {:induction false} OnceVisited(es: seq<Entry>, ds: seq<int>, busy: set<ObjCore>)
    ensures Once(Idle(Visited(es, ds), busy)) <==> Unrepeated(es, ds, busy)
  {
    if ds != [] {
      var front, d := ds[..|ds| - 1], ds[|ds| - 1];
      assert ds == front + [d];
      OnceVisited(es, front, busy);
      OnceUnder(es, d, busy);
      IdleAppend(Visited(es, front), Objects(es, d), busy);
      OnceAppend(Idle(Visited(es, front), busy), Idle(Objects(es, d), busy));
      if Unrepeated(es, ds, busy) {
        UnrepeatedParts(es, front, d, busy);
      }
      if Unrepeated(es, front, busy) && UnrepeatedUnder(es, d, busy) {
        UnrepeatedSnoc(es, front, d, busy);
      }
    }
  }

  /** It counts objects exactly when a token repeats only over busy entries and no
      idle object is under the tokens twice. */
  lemma PurgeCountsObjectsExactly(es: seq<Entry>, ds: seq<int>, busy: set<ObjCore>)
    ensures |Matches(es, ds, busy)| <= IdleUnderAll(es, ds, busy)
    ensures |Matches(es, ds, busy)| == IdleUnderAll(es, ds, busy) <==> Unrepeated(es, ds, busy)
  {
    PurgeIsLinearScan(es, ds, busy);
    PurgeCountsEntries(es, ds, busy);
    OnceCounts(Idle(Visited(es, ds), busy));
    OnceVisited(es, ds, busy);
  }

  /** The documented count: with no repeated tags the objects are counted. */
  lemma PurgeCountsObjects(es: seq<Entry>, ds: seq<int>, busy: set<ObjCore>)
    requires forall j, k :: 0 <= j < k < |ds| ==> ds[j] != ds[k]
    requires forall i, j :: 0 <= i < j < |es| && es[i].digest in ds && es[j].digest in ds && es[i].obj !in busy
                            ==> es[i].obj != es[j].obj
    ensures IdleUnderAll(es, ds, busy) == |Matches(es, ds, busy)|
  {
    PurgeCountsObjectsExactly(es, ds, busy);
  }

  /** The documented count fails: one object with two tags, purged by both, is counted
      twice. */
  lemma PurgeCountsTwice(x: XkeyOc, y: XkeyOc, o: ObjCore, d: int, e: int, busy: set<ObjCore>)
    requires x != y && d != e && o !in busy
    ensures Matches([Entry(x, o, d), Entry(y, o, e)], [d, e], busy) == {o}
    ensures IdleUnderAll([Entry(x, o, d), Entry(y, o, e)], [d, e], busy) == 2
  {
    var es := [Entry(x, o, d), Entry(y, o, e)];
    assert es[0].obj in Matches(es, [d, e], busy);
    assert es[1..] == [Entry(y, o, e)] && es[1..][1..] == [];
    assert IdleUnder([], d, busy) == 0 && IdleUnder([], e, busy) == 0;
    assert IdleUnder(es[1..], d, busy) == 0 && IdleUnder(es[1..], e, busy) == 1;
    assert IdleUnder(es, d, busy) == 1 && IdleUnder(es, e, busy) == 1;
    assert [d, e][1..] == [e] && [e][1..] == [];
    assert IdleUnderAll(es, [e], busy) == 1 + IdleUnderAll(es, [], busy);
  }

  datatype Times = Times(origin: real, ttl: real, grace: real, keep: real)

  function TimesOf(o: ObjCore): Times
    reads o`origin, o`ttl, o`grace, o`keep
  {
    Times(o.origin, o.ttl, o.grace, o.keep)
  }

  predicate Due(t: Times, now: real) {
    t.ttl > now - t.origin
  }

  /** The times of a rearmed object: a soft purge ends its ttl at `now` and leaves
      grace and keep, a hard purge ends all three at its origin. */
  function Purged(t: Times, soft: bool, now: real): Times {
    if soft then t.(ttl := now - t.origin) else Times(t.origin, 0.0, 0.0, 0.0)
  }

  /** What a soft purge that visits `seen` has to rearm. */
  function SoftTargets(was: map<ObjCore, Times>, busy: set<ObjCore>, seen: seq<ObjCore>, now: real): set<ObjCore> {
    set o | o in was && o in seen && o !in busy && Due(was[o], now)
  }

  lemma SoftTargetsStep(was: map<ObjCore, Times>, busy: set<ObjCore>, seen: seq<ObjCore>, o: ObjCore, now: real)
    requires o in was
    ensures SoftTargets(was, busy, seen + [o], now)
            == SoftTargets(was, busy, seen, now) + if o !in busy && Due(was[o], now) then {o} else {}
  {
  }

  lemma CallMore(calls: seq<ObjCore>, o: ObjCore)
    ensures Elements(calls + [o]) == Elements(calls) + {o}
    ensures Once(calls) && o !in calls ==> Once(calls + [o])
  {
  }

  /** After visiting `seen`, the objects `calls` have been rearmed and no other. */
  ghost predicate Progress(was: map<ObjCore, Times>, busy: set<ObjCore>, seen: seq<ObjCore>, calls: seq<ObjCore>,
      soft: bool, now: real)
    reads was.Keys`busy, was.Keys`origin, was.Keys`ttl, was.Keys`grace, was.Keys`keep
  {
    && (forall o :: o in was ==> (o in busy <==> o.busy))
    && (forall o :: o in was ==> TimesOf(o) == if o in calls then Purged(was[o], soft, now) else was[o])
    && (soft ==> Once(calls) && Elements(calls) == SoftTargets(was, busy, seen, now))
    && (!soft ==> calls == Idle(seen, busy))
  }

  function DueMatches(was: map<ObjCore, Times>, matches: set<ObjCore>, now: real): set<ObjCore> {
    set o | o in matches && o in was && Due(was[o], now)
  }

  lemma SoftTargetsAreMatches(was: map<ObjCore, Times>, es: seq<Entry>, ds: seq<int>, busy: set<ObjCore>, now: real)
    ensures SoftTargets(was, busy, Visited(es, ds), now) == DueMatches(was, Matches(es, ds, busy), now)
  {
    forall o | o in was ensures o in Visited(es, ds) && o !in busy <==> o in Matches(es, ds, busy) {
      VisitedHas(es, ds, o);
    }
  }

  method RearmFor(o: ObjCore, soft: bool, now: real)
    modifies o`ttl, o`grace, o`keep
    ensures TimesOf(o) == Purged(old(TimesOf(o)), soft, now)
    ensures !soft ==> o.ttl == 0.0 && o.grace == 0.0 && o.keep == 0.0
    ensures soft ==> o.ttl == now - o.origin && o.grace == old(o.grace) && o.keep == old(o.keep)
  {
    if soft {
      o.Rearm(now, 0.0, o.grace, o.keep);
    } else {
      o.Rearm(o.origin, 0.0, 0.0, 0.0);
    }
  }

  /** One visit: busy objects are skipped, and by a soft purge expired ones. */
  method Visit(o: ObjCore, soft: bool, now: real, ghost was: map<ObjCore, Times>, ghost busy: set<ObjCore>,
      ghost seen: seq<ObjCore>, ghost calls: seq<ObjCore>) returns (n: int, ghost calls': seq<ObjCore>)
    requires o in was && Progress(was, busy, seen, calls, soft, now)
    modifies o`ttl, o`grace, o`keep
    ensures Progress(was, busy, seen + [o], calls', soft, now) && |calls'| == |calls| + n
    ensures n == if o.busy || (soft && old(o.ttl) <= now - o.origin) then 0 else 1
    ensures n == 0 ==> o.ttl == old(o.ttl) && o.grace == old(o.grace) && o.keep == old(o.keep)
    ensures n == 1 && !soft ==> o.ttl == 0.0 && o.grace == 0.0 && o.keep == 0.0
    ensures n == 1 && soft ==> o.ttl == now - o.origin && o.grace == old(o.grace) && o.keep == old(o.keep)
  {
    n, calls' := 0, calls;
    IdleStep(seen, o, busy);
    SoftTargetsStep(was, busy, seen, o, now);
    assert o in calls <==> o in Elements(calls);
    CallMore(calls, o);
    if o.busy {
      return;
    }
    if soft && o.ttl <= now - o.origin {
      return;
    }
    RearmFor(o, soft, now);
    n, calls' := 1, calls + [o];
  }
}
