/** The callbacks and the purges of the xkey module, over the index. */
module XkeyVmod {
  import opened Ascii
  import opened Vcl
  import opened XkeyIndex
  import opened XkeyPurge
  import opened XkeyTags
  import opened XkeyTokens
  import opened Xkey

  /** `es` is `was` with `o` tagged by `ds`, one entry each, in order. */
  ghost predicate Tagged(was: seq<Entry>, es: seq<Entry>, o: ObjCore, ds: seq<int>) {
    && |es| == |was| + |ds|
    && (forall i :: 0 <= i < |was| ==> es[i] == was[i])
    && (forall i :: |was| <= i < |es| ==> es[i].obj == o && es[i].digest == ds[i - |was|])
  }

  lemma TaggedMore(was: seq<Entry>, mid: seq<Entry>, oc: XkeyOc, o: ObjCore, ds: seq<int>, d: int)
    requires Tagged(was, mid, o, ds)
    ensures Tagged(was, mid + [Entry(oc, o, d)], o, ds + [d])
  {
  }

  lemma TaggedJoin(was: seq<Entry>, mid: seq<Entry>, es: seq<Entry>, o: ObjCore, ds: seq<int>, more: seq<int>)
    requires Tagged(was, mid, o, ds) && Tagged(mid, es, o, more)
    ensures Tagged(was, es, o, ds + more)
  {
    forall i | |was| <= i < |mid| ensures es[i].obj == o && es[i].digest == (ds + more)[i - |was|] {
      assert es[i] == mid[i];
    }
  }

  /** Indexing a new object and then removing it restores the index, every list in
      its order, even with repeated tags. */
  lemma TaggedThenRemoved(was: seq<Entry>, es: seq<Entry>, o: ObjCore, ds: seq<int>)
    requires Tagged(was, es, o, ds) && forall i :: 0 <= i < |was| ==> was[i].obj != o
    ensures Others(es, o) == was
  {
    assert es == es[..|was|] + es[|was|..];
    assert es[..|was|] == was;
    InsertThenRemove(was, es[|was|..], o);
  }

  lemma DigestsAppend(a: seq<string>, b: seq<string>, hash: string -> int)
    ensures Digests(a + b, hash) == Digests(a, hash) + Digests(b, hash)
  {
  }

  method InsertToken(index: Index, o: ObjCore, token: string, hash: string -> int,
      ghost was: seq<Entry>, ghost done: seq<string>)
    requires index.Valid() && Tagged(was, index.entries, o, Digests(done, hash))
    modifies index
    modifies index.ownHash`digest, index.ownHash`ocs, index.ownOch`ptr, index.ownOch`ocs
    modifies index.ownOc`hashhead, index.ownOc`objcore
    ensures index.Valid() && Tagged(was, index.entries, o, Digests(done + [token], hash))
    ensures forall x :: x in index.ownHash ==> x in old(index.ownHash) || fresh(x)
    ensures forall x :: x in index.ownOch ==> x in old(index.ownOch) || fresh(x)
    ensures forall x :: x in index.ownOc ==> x in old(index.ownOc) || fresh(x)
  {
    ghost var oc := index.Insert(o, hash(token));
    TaggedMore(was, old(index.entries), oc, o, Digests(done, hash), hash(token));
    DigestsAppend(done, [token], hash);
    assert Digests([token], hash) == [hash(token)];
  }

  /** The tags in one header value. */
  method InsertTokens(index: Index, o: ObjCore, value: string, hash: string -> int)
    requires index.Valid()
    modifies index
    modifies index.ownHash`digest, index.ownHash`ocs, index.ownOch`ptr, index.ownOch`ocs
    modifies index.ownOc`hashhead, index.ownOc`objcore
    ensures index.Valid() && Tagged(old(index.entries), index.entries, o, Digests(Tokens(value), hash))
    ensures forall x :: x in index.ownHash ==> x in old(index.ownHash) || fresh(x)
    ensures forall x :: x in index.ownOch ==> x in old(index.ownOch) || fresh(x)
    ensures forall x :: x in index.ownOc ==> x in old(index.ownOc) || fresh(x)
  {
    ghost var was := index.entries;
    ghost var done: seq<string> := [];
    var found, b, e := FirstTok(value);
    while found
      invariant index.Valid() && Tagged(was, index.entries, o, Digests(done, hash))
      invariant Reading(value, done, found, b, e)
      invariant forall x :: x in index.ownHash ==> x in old(index.ownHash) || fresh(x)
      invariant forall x :: x in index.ownOch ==> x in old(index.ownOch) || fresh(x)
      invariant forall x :: x in index.ownOc ==> x in old(index.ownOc) || fresh(x)
      decreases found, |value| - e
    {
      InsertToken(index, o, value[b..e], hash, was, done);
      ghost var token := value[b..e];
      found, b, e := NextTok(value, done, b, e);
      done := done + [token];
    }
  }

  /** One header: a tag header contributes its tokens, any other is skipped. */
  method InsertHeader(index: Index, o: ObjCore, h: string, hash: string -> int,
      ghost was: seq<Entry>, ghost done: seq<string>) returns (ghost done': seq<string>)
    requires index.Valid() && Tagged(was, index.entries, o, Digests(done, hash))
    requires TagHeader(h) ==> Find(h, 0, ':') < |h|
    modifies index
    modifies index.ownHash`digest, index.ownHash`ocs, index.ownOch`ptr, index.ownOch`ocs
    modifies index.ownOc`hashhead, index.ownOc`objcore
    ensures done' == done + TagsIn(h)
    ensures index.Valid() && Tagged(was, index.entries, o, Digests(done', hash))
    ensures forall x :: x in index.ownHash ==> x in old(index.ownHash) || fresh(x)
    ensures forall x :: x in index.ownOch ==> x in old(index.ownOch) || fresh(x)
    ensures forall x :: x in index.ownOc ==> x in old(index.ownOc) || fresh(x)
  {
    done' := done + TagsIn(h);
    if HasPrefix(h, XKEY) || HasPrefix(h, HASHTWO) {
      ghost var mid := index.entries;
      var value := h[Find(h, 0, ':') + 1..];
      InsertTokens(index, o, value, hash);
      TaggedJoin(was, mid, index.entries, o, Digests(done, hash), Digests(Tokens(value), hash));
      DigestsAppend(done, Tokens(value), hash);
    } else {
      assert done + [] == done;
    }
  }

  /** xkey_cb_insert: every tag of every tag header, in order. */
  method CbInsert(index: Index, o: ObjCore, headers: seq<string>, hash: string -> int)
    requires index.Valid()
    modifies index
    modifies index.ownHash`digest, index.ownHash`ocs, index.ownOch`ptr, index.ownOch`ocs
    modifies index.ownOc`hashhead, index.ownOc`objcore
    ensures index.Valid() && Tagged(old(index.entries), index.entries, o, Digests(TagsOf(headers), hash))
    ensures forall x :: x in index.ownHash ==> x in old(index.ownHash) || fresh(x)
    ensures forall x :: x in index.ownOch ==> x in old(index.ownOch) || fresh(x)
    ensures forall x :: x in index.ownOc ==> x in old(index.ownOc) || fresh(x)
  {
    ghost var was := index.entries;
    ghost var done: seq<string> := [];
    var k := 0;
    while k < |headers|
      invariant 0 <= k <= |headers|
      invariant index.Valid() && Tagged(was, index.entries, o, Digests(done, hash))
      invariant TagsOf(headers) == done + TagsOf(headers[k..])
      invariant forall x :: x in index.ownHash ==> x in old(index.ownHash) || fresh(x)
      invariant forall x :: x in index.ownOch ==> x in old(index.ownOch) || fresh(x)
      invariant forall x :: x in index.ownOc ==> x in old(index.ownOc) || fresh(x)
    {
      TagsOfStep(headers, k, done);
      done := InsertHeader(index, o, headers[k], hash, was, done);
      k := k + 1;
    }
    assert done + [] == done;
  }

  /** xkey_cb_remove: all entries of the object go, the others stay in order. */
  method CbRemove(index: Index, o: ObjCore)
    requires index.Valid()
    modifies index
    modifies index.ownHash`digest, index.ownHash`ocs, index.ownOch`ptr, index.ownOch`ocs
    modifies index.ownOc`hashhead, index.ownOc`objcore
    ensures index.Valid() && index.entries == Others(old(index.entries), o)
  {
    var ochead := index.OctreeLookup(o);
    if ochead != null {
      index.Remove(ochead, o);
    } else {
      NoneLeft(index.entries, o);
    }
  }

  /** The digests that a purge argument names: none when it is null or empty. */
  function Named(key: VclString, hash: string -> int): seq<int> {
    if key.Null? then [] else Digests(Tokens(key.s), hash)
  }

  ghost function BusyOf(objects: set<ObjCore>): set<ObjCore>
    reads objects`busy
  {
    set o | o in objects && o.busy
  }

  /** The objects that a purge of the key is for. */
  ghost function IdleUnderKey(index: Index, key: VclString, hash: string -> int): set<ObjCore>
    reads index, index.octree.Keys`busy
  {
    Matches(index.entries, Named(key, hash), BusyOf(index.octree.Keys))
  }

  ghost function TimesOfAll(objects: set<ObjCore>): map<ObjCore, Times>
    reads objects`origin, objects`ttl, objects`grace, objects`keep
  {
    map o | o in objects :: TimesOf(o)
  }

  lemma RecordsAt(index: Index, digest: int)
    requires index.Listing()
    ensures |Objects(index.entries, digest)| == |ByDigest(index.entries, digest)|
    ensures forall j :: 0 <= j < |ByDigest(index.entries, digest)| ==>
        ByDigest(index.entries, digest)[j].objcore == Objects(index.entries, digest)[j]
        && Objects(index.entries, digest)[j] in index.octree
  {
    SameLength(index.entries, digest);
    forall j | 0 <= j < |ByDigest(index.entries, digest)|
      ensures ByDigest(index.entries, digest)[j].objcore == Objects(index.entries, digest)[j]
      ensures Objects(index.entries, digest)[j] in index.octree
    {
      var i := ListAt(index.entries, digest, j);
    }
  }

  lemma TakeNext(seen: seq<ObjCore>, s: seq<ObjCore>, j: nat)
    requires j < |s|
    ensures seen + s[..j] + [s[j]] == seen + s[..j + 1]
  {
  }

  lemma TakeNone(seen: seq<ObjCore>, s: seq<ObjCore>)
    ensures seen + s[..0] == seen && s[..|s|] == s
  {
  }

  /** The walk down the list of one digest. */
  method PurgeList(hashhead: HashHead, soft: bool, now: real, ghost objects: seq<ObjCore>,
      ghost was: map<ObjCore, Times>, ghost busy: set<ObjCore>, ghost seen: seq<ObjCore>, ghost calls: seq<ObjCore>)
    returns (n: int, ghost calls': seq<ObjCore>)
    requires |objects| == |hashhead.ocs|
    requires forall j :: 0 <= j < |objects| ==> hashhead.ocs[j].objcore == objects[j] && objects[j] in was
    requires Progress(was, busy, seen, calls, soft, now)
    modifies was.Keys`ttl, was.Keys`grace, was.Keys`keep
    ensures Progress(was, busy, seen + objects, calls', soft, now)
    ensures |calls'| == |calls| + n
  {
    n, calls' := 0, calls;
    ghost var at := seen;
    TakeNone(seen, objects);
    var j := 0;
    while j < |hashhead.ocs|
      invariant 0 <= j <= |objects| && at == seen + objects[..j]
      invariant Progress(was, busy, at, calls', soft, now) && |calls'| == |calls| + n
    {
      TakeNext(seen, objects, j);
      var hit;
      hit, calls' := Visit(hashhead.ocs[j].objcore, soft, now, was, busy, at, calls');
      n, at := n + hit, at + [objects[j]];
      j := j + 1;
    }
  }

  method PurgeDigest(index: Index, digest: int, soft: bool, now: real, ghost was: map<ObjCore, Times>,
      ghost busy: set<ObjCore>, ghost seen: seq<ObjCore>, ghost calls: seq<ObjCore>)
    returns (n: int, ghost calls': seq<ObjCore>)
    requires index.Listing() && was.Keys == index.octree.Keys && Progress(was, busy, seen, calls, soft, now)
    modifies was.Keys`ttl, was.Keys`grace, was.Keys`keep
    ensures Progress(was, busy, seen + Objects(index.entries, digest), calls', soft, now)
    ensures |calls'| == |calls| + n
  {
    n, calls' := 0, calls;
    var hashhead := index.HashtreeLookup(digest);
    RecordsAt(index, digest);
    if hashhead != null {
      n, calls' := PurgeList(hashhead, soft, now, Objects(index.entries, digest), was, busy, seen, calls);
    } else {
      assert seen + [] == seen;
    }
  }

  method PurgeToken(index: Index, token: string, soft: bool, now: real, hash: string -> int,
      ghost was: map<ObjCore, Times>, ghost busy: set<ObjCore>, ghost es: seq<Entry>, ghost done: seq<string>,
      ghost seen: seq<ObjCore>, ghost calls: seq<ObjCore>)
    returns (n: int, ghost seen': seq<ObjCore>, ghost calls': seq<ObjCore>)
    requires index.Listing() && index.entries == es && was.Keys == index.octree.Keys
    requires seen == Visited(es, Digests(done, hash)) && Progress(was, busy, seen, calls, soft, now)
    modifies was.Keys`ttl, was.Keys`grace, was.Keys`keep
    ensures index.Listing()
    ensures seen' == Visited(es, Digests(done + [token], hash)) && Progress(was, busy, seen', calls', soft, now)
    ensures |calls'| == |calls| + n
  {
    DigestsAppend(done, [token], hash);
    assert Digests([token], hash) == [hash(token)];
    VisitedSnoc(es, Digests(done, hash), hash(token));
    seen' := seen + Objects(es, hash(token));
    n, calls' := PurgeDigest(index, hash(token), soft, now, was, busy, seen, calls);
  }

  method NextToken(key: string, ghost done: seq<string>, b: nat, e: nat)
    returns (found: bool, b': nat, e': nat, ghost done': seq<string>)
    requires Reading(key, done, true, b, e)
    ensures done' == done + [key[b..e]] && Reading(key, done', found, b', e') && (found ==> e < e')
  {
    found, b', e' := NextTok(key, done, b, e);
    done' := done + [key[b..e]];
  }

  /** Before the piece `[b, e)` of the key, of whose tokens those before are `done`. */
  ghost predicate Purging(key: string, hash: string -> int, es: seq<Entry>, done: seq<string>, seen: seq<ObjCore>,
      found: bool, b: nat, e: nat)
  {
    Reading(key, done, found, b, e) && seen == Visited(es, Digests(done, hash))
  }

  method PurgeRound(index: Index, key: string, soft: bool, now: real, hash: string -> int, b: nat, e: nat,
      ghost was: map<ObjCore, Times>, ghost busy: set<ObjCore>, ghost done: seq<string>,
      ghost seen: seq<ObjCore>, ghost calls: seq<ObjCore>)
    returns (n: int, found: bool, b': nat, e': nat, ghost done': seq<string>, ghost seen': seq<ObjCore>,
      ghost calls': seq<ObjCore>)
    requires index.Listing() && was.Keys == index.octree.Keys && Progress(was, busy, seen, calls, soft, now)
    requires Purging(key, hash, index.entries, done, seen, true, b, e)
    modifies was.Keys`ttl, was.Keys`grace, was.Keys`keep
    ensures index.Listing() && Progress(was, busy, seen', calls', soft, now) && |calls'| == |calls| + n
    ensures Purging(key, hash, index.entries, done', seen', found, b', e') && (found ==> e < e')
  {
    n, seen', calls' := PurgeToken(index, key[b..e], soft, now, hash, was, busy, index.entries, done, seen, calls);
    found, b', e', done' := NextToken(key, done, b, e);
  }

  lemma PurgedAll(key: string, hash: string -> int, es: seq<Entry>, done: seq<string>, seen: seq<ObjCore>, b: nat,
      e: nat)
    requires Purging(key, hash, es, done, seen, false, b, e)
    ensures seen == Visited(es, Digests(Tokens(key), hash))
  {
  }

  /** The loop of purge over the tokens of a key. */
  method PurgeTokens(index: Index, key: string, soft: bool, now: real, hash: string -> int,
      ghost was: map<ObjCore, Times>, ghost busy: set<ObjCore>)
    returns (count: int, ghost calls: seq<ObjCore>)
    requires index.Listing() && was.Keys == index.octree.Keys && Progress(was, busy, [], [], soft, now)
    modifies was.Keys`ttl, was.Keys`grace, was.Keys`keep
    ensures count == |calls|
    ensures Progress(was, busy, Visited(index.entries, Digests(Tokens(key), hash)), calls, soft, now)
  {
    count, calls := 0, [];
    ghost var done, seen := [], [];
    var found, b, e := FirstTok(key);
    while found
      invariant index.Listing() && Progress(was, busy, seen, calls, soft, now) && count == |calls|
      invariant Purging(key, hash, index.entries, done, seen, found, b, e)
      decreases found, |key| - e
    {
      var n;
      n, found, b, e, done, seen, calls := PurgeRound(index, key, soft, now, hash, b, e, was, busy, done, seen, calls);
      count := count + n;
    }
    PurgedAll(key, hash, index.entries, done, seen, b, e);
  }

  lemma NoneRearmed(objects: set<ObjCore>, soft: bool, now: real)
    ensures Progress(TimesOfAll(objects), BusyOf(objects), [], [], soft, now)
  {
  }

  lemma CallsRearmed(was: map<ObjCore, Times>, busy: set<ObjCore>, seen: seq<ObjCore>, calls: seq<ObjCore>,
      soft: bool, now: real)
    requires Progress(was, busy, seen, calls, soft, now)
    ensures forall o :: o in calls && o in was ==>
        TimesOf(o) == if soft then was[o].(ttl := now - was[o].origin) else Times(was[o].origin, 0.0, 0.0, 0.0)
  {
  }

  /** purge: the non-busy objects under the tokens of the key are rearmed.
      `calls` records the calls of EXP_Rearm. */
  method Purge(index: Index, key: VclString, soft: bool, now: real, hash: string -> int)
    returns (count: int, ghost calls: seq<ObjCore>)
    requires index.Listing()
    modifies index.octree.Keys`ttl, index.octree.Keys`grace, index.octree.Keys`keep
    ensures index.Listing() && count == |calls|
    ensures Progress(old(TimesOfAll(index.octree.Keys)), old(BusyOf(index.octree.Keys)),
                     Visited(index.entries, Named(key, hash)), calls, soft, now)
    ensures !soft ==> forall o :: o in calls && o in index.octree ==> o.ttl == 0.0 && o.grace == 0.0 && o.keep == 0.0
    ensures soft ==> forall o :: o in calls && o in index.octree ==>
        o.ttl == now - o.origin && o.grace == old(o.grace) && o.keep == old(o.keep)
  {
    count, calls := 0, [];
    ghost var was := TimesOfAll(index.octree.Keys);
    ghost var busy := BusyOf(index.octree.Keys);
    NoneRearmed(index.octree.Keys, soft, now);
    if key.Null? || key.s == "" {
      return;
    }
    count, calls := PurgeTokens(index, key.s, soft, now, hash, was, busy);
    CallsRearmed(was, busy, Visited(index.entries, Named(key, hash)), calls, soft, now);
  }

  /** vmod_purge: a linear scan of the index would have rearmed the same objects,
      and the count is the number of idle entries under each token. */
  method HardPurge(index: Index, key: VclString, now: real, hash: string -> int) returns (count: int)
    requires index.Listing()
    modifies index.octree.Keys`ttl, index.octree.Keys`grace, index.octree.Keys`keep
    ensures index.Listing()
    ensures count == IdleUnderAll(index.entries, Named(key, hash), old(BusyOf(index.octree.Keys)))
    ensures forall o :: o in index.octree.Keys ==>
        TimesOf(o) == if o in Matches(index.entries, Named(key, hash), old(BusyOf(index.octree.Keys)))
                      then Purged(old(TimesOf(o)), false, now) else old(TimesOf(o))
    ensures forall o :: o in IdleUnderKey(index, key, hash) && o in index.octree ==>
        o.ttl == 0.0 && o.grace == 0.0 && o.keep == 0.0
  {
    ghost var calls;
    count, calls := Purge(index, key, false, now, hash);
    PurgeCountsEntries(index.entries, Named(key, hash), old(BusyOf(index.octree.Keys)));
    PurgeIsLinearScan(index.entries, Named(key, hash), old(BusyOf(index.octree.Keys)));
    assert forall o :: o in calls <==> o in Elements(calls);
  }

  lemma TwoTokens(hash: string -> int)
    ensures Named(Str("a b"), hash) == [hash("a"), hash("b")]
  {
    assert "a b"[1..] == " b" && " b"[1..] == "b" && "b"[1..] == "";
    assert [] + ['a'] == "a" && [] + ['b'] == "b";
    assert Split("b", "") == ["b"] && Split("", "b") == ["b"] && Split("a", " b") == ["a"] + ["b"];
    assert ["a", "b"][1..] == ["b"] && ["b"][1..] == [];
    assert Digests(["b"], hash) == [hash("b")];
  }

  lemma NoOther(x: XkeyOc, y: XkeyOc, o: ObjCore, d: int, e: int, p: ObjCore)
    requires p != o
    ensures ByObject([Entry(x, o, d), Entry(y, o, e)], p) == []
  {
    assert [Entry(x, o, d), Entry(y, o, e)][1..] == [Entry(y, o, e)];
    assert ByObject([Entry(y, o, e)], p) == ByObject([], p) == [];
  }

  lemma OneObject(index: Index, x: XkeyOc, y: XkeyOc, o: ObjCore, d: int, e: int)
    requires index.Valid() && index.entries == [Entry(x, o, d), Entry(y, o, e)]
    ensures x != y && index.octree.Keys == {o}
  {
    var es := index.entries;
    assert es[0].oc != es[1].oc && es[0].obj in index.octree;
    forall p | p in index.octree.Keys ensures p == o {
      if p != o {
        NoOther(x, y, o, d, e, p);
      }
    }
  }

  /** A new index with one object under two tags. */
  method TagTwice(o: ObjCore, d: int, e: int) returns (index: Index, ghost x: XkeyOc, ghost y: XkeyOc)
    ensures fresh(index) && index.Valid() && index.octree.Keys == {o}
    ensures x != y && index.entries == [Entry(x, o, d), Entry(y, o, e)]
  {
    index := new Index();
    x := index.Insert(o, d);
    y := index.Insert(o, e);
    OneObject(index, x, y, o, d, e);
  }

  /** An index on which the two counts differ: one idle object tagged `a` and `b`, and a
      purge of both tags, which purges one object and returns two. */
  method PurgeTaggedTwice(o: ObjCore, now: real, hash: string -> int)
    returns (index: Index, count: int, ghost x: XkeyOc, ghost y: XkeyOc)
    requires !o.busy && hash("a") != hash("b")
    modifies o`ttl, o`grace, o`keep
    ensures index.Listing() && x != y && index.entries == [Entry(x, o, hash("a")), Entry(y, o, hash("b"))]
    ensures Matches(index.entries, Named(Str("a b"), hash), {}) == {o} && count == 2
  {
    index, x, y := TagTwice(o, hash("a"), hash("b"));
    TwoTokens(hash);
    assert BusyOf(index.octree.Keys) == {};
    PurgeCountsTwice(x, y, o, hash("a"), hash("b"), {});
    count := HardPurge(index, Str("a b"), now, hash);
  }

  /** vmod_softpurge: every match that is due is rearmed and counted once, however
      many tokens it carries. */
  method SoftPurge(index: Index, key: VclString, now: real, hash: string -> int) returns (count: int)
    requires index.Listing()
    modifies index.octree.Keys`ttl, index.octree.Keys`grace, index.octree.Keys`keep
    ensures index.Listing()
    ensures count == |DueMatches(old(TimesOfAll(index.octree.Keys)),
                                 Matches(index.entries, Named(key, hash), old(BusyOf(index.octree.Keys))), now)|
    ensures forall o :: o in index.octree.Keys ==>
        TimesOf(o) ==
          if o in Matches(index.entries, Named(key, hash), old(BusyOf(index.octree.Keys))) && old(Due(TimesOf(o), now))
          then Purged(old(TimesOf(o)), true, now) else old(TimesOf(o))
    ensures forall o :: o in IdleUnderKey(index, key, hash) && o in index.octree && old(o.ttl) > now - o.origin ==>
        o.ttl == now - o.origin && o.grace == old(o.grace) && o.keep == old(o.keep)
  {
    ghost var calls;
    count, calls := Purge(index, key, true, now, hash);
    ghost var was := old(TimesOfAll(index.octree.Keys));
    ghost var busy := old(BusyOf(index.octree.Keys));
    SoftTargetsAreMatches(was, index.entries, Named(key, hash), busy, now);
    OnceCounts(calls);
    assert forall o :: o in calls <==> o in Elements(calls);
  }

  /** What a soft purge at `now` would still have to rearm. */
  ghost function StillDue(index: Index, key: VclString, now: real, hash: string -> int): set<ObjCore>
    reads index, index.octree.Keys`busy
    reads index.octree.Keys`origin, index.octree.Keys`ttl, index.octree.Keys`grace, index.octree.Keys`keep
  {
    DueMatches(TimesOfAll(index.octree.Keys),
               Matches(index.entries, Named(key, hash), BusyOf(index.octree.Keys)), now)
  }

  method SoftPurgeOnce(index: Index, key: VclString, now: real, hash: string -> int) returns (first: int)
    requires index.Listing()
    modifies index.octree.Keys`ttl, index.octree.Keys`grace, index.octree.Keys`keep
    ensures index.Listing() && StillDue(index, key, now, hash) == {}
  {
    first := SoftPurge(index, key, now, hash);
    forall o | o in IdleUnderKey(index, key, hash) && o in index.octree ensures !Due(TimesOf(o), now) {
      if old(o.ttl) > now - o.origin {
        assert o.ttl == now - o.origin;
      } else {
        assert TimesOf(o) == old(TimesOf(o));
      }
    }
  }

  method SoftPurgeIdle(index: Index, key: VclString, now: real, hash: string -> int) returns (count: int)
    requires index.Listing() && StillDue(index, key, now, hash) == {}
    modifies index.octree.Keys`ttl, index.octree.Keys`grace, index.octree.Keys`keep
    ensures count == 0
  {
    count := SoftPurge(index, key, now, hash);
  }

  /** A soft purge repeated at the same time finds nothing more to do. */
  method SoftPurgeAgain(index: Index, key: VclString, now: real, hash: string -> int) returns (first: int, second: int)
    requires index.Listing()
    modifies index.octree.Keys`ttl, index.octree.Keys`grace, index.octree.Keys`keep
    ensures second == 0
  {
    first := SoftPurgeOnce(index, key, now, hash);
    second := SoftPurgeIdle(index, key, now, hash);
  }
}
