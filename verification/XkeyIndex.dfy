/** The secondary index as one list: which object was tagged with which digest,
    in the order of tagging.  The list of a digest and the list of an object are
    both selections from it. */
module XkeyIndex {

  /** The cached object, with the fields that a purge reads and writes. */
  class ObjCore {
    var busy: bool
    var origin: real
    var ttl: real
    var grace: real
    var keep: real

    /** EXP_Rearm, as far as a purge sees it: the new expiry is `now + ttl`, and
        the object keeps its time of origin. */
    method Rearm(now: real, ttl: real, grace: real, keep: real)
      modifies this`ttl, this`grace, this`keep
      ensures this.ttl == now + ttl - origin && this.grace == grace && this.keep == keep
    {
      this.ttl, this.grace, this.keep := now + ttl - origin, grace, keep;
    }
  }

  class HashHead {
    var digest: int
    var ocs: seq<XkeyOc>

    constructor ()
      ensures ocs == []
    {
      digest := 0;
      ocs := [];
    }
  }

  class OcHead {
    var ptr: ObjCore?
    var ocs: seq<XkeyOc>

    constructor ()
      ensures ocs == []
    {
      ptr := null;
      ocs := [];
    }
  }

  class XkeyOc {
    var hashhead: HashHead?
    var objcore: ObjCore?

    constructor ()
      ensures hashhead == null && objcore == null
    {
      hashhead, objcore := null, null;
    }
  }

  datatype Entry = Entry(oc: XkeyOc, obj: ObjCore, digest: int)

  function ByDigest(es: seq<Entry>, d: int): seq<XkeyOc> {
    if es == [] then [] else if es[0].digest == d then [es[0].oc] + ByDigest(es[1..], d) else ByDigest(es[1..], d)
  }

  function ByObject(es: seq<Entry>, o: ObjCore): seq<XkeyOc> {
    if es == [] then [] else if es[0].obj == o then [es[0].oc] + ByObject(es[1..], o) else ByObject(es[1..], o)
  }

  /** VTAILQ_FIRST. */
  function First(s: seq<XkeyOc>): XkeyOc? {
    if s == [] then null else s[0]
  }

  /** VTAILQ_REMOVE. */
  function Minus(s: seq<XkeyOc>, x: XkeyOc): seq<XkeyOc> {
    if s == [] then [] else if s[0] == x then s[1..] else [s[0]] + Minus(s[1..], x)
  }

  function Drop(es: seq<Entry>, x: XkeyOc): seq<Entry> {
    if es == [] then [] else if es[0].oc == x then es[1..] else [es[0]] + Drop(es[1..], x)
  }

  function Others(es: seq<Entry>, o: ObjCore): seq<Entry> {
    if es == [] then [] else if es[0].obj == o then Others(es[1..], o) else [es[0]] + Others(es[1..], o)
  }

  predicate Distinct(es: seq<Entry>) {
    forall i, j :: 0 <= i < j < |es| ==> es[i].oc != es[j].oc
  }

  lemma {:induction false} AppendEntry(es: seq<Entry>, e: Entry)
    ensures forall d :: ByDigest(es + [e], d) == ByDigest(es, d) + (if d == e.digest then [e.oc] else [])
    ensures forall o :: ByObject(es + [e], o) == ByObject(es, o) + (if o == e.obj then [e.oc] else [])
  {
    if es == [] {
      assert es + [e] == [e];
    } else {
      assert (es + [e])[1..] == es[1..] + [e];
      AppendEntry(es[1..], e);
    }
  }

  /** No digest and no object of the index has an empty list. */
  ghost predicate Tight(digests: set<int>, objects: set<ObjCore>, es: seq<Entry>) {
    && (forall d :: d in digests ==> ByDigest(es, d) != [])
    && (forall o :: o in objects ==> ByObject(es, o) != [])
  }

  lemma TightKeys(ds: set<int>, os: set<ObjCore>, ds': set<int>, os': set<ObjCore>, es: seq<Entry>)
    requires Tight(ds, os, es) && ds' <= ds && os' <= os
    ensures Tight(ds', os', es)
  {
  }

  lemma TightAppend(digests: set<int>, objects: set<ObjCore>, es: seq<Entry>, e: Entry)
    requires Tight(digests, objects, es)
    ensures Tight(digests + {e.digest}, objects + {e.obj}, es + [e])
  {
    AppendEntry(es, e);
  }

  lemma {:induction false} ListedObject(es: seq<Entry>, x: XkeyOc, o: ObjCore) returns (i: nat)
    requires x in ByObject(es, o)
    ensures i < |es| && es[i].oc == x && es[i].obj == o
  {
    if es[0].obj == o && es[0].oc == x {
      i := 0;
    } else {
      i := ListedObject(es[1..], x, o);
      i := i + 1;
    }
  }

  lemma {:induction false} Lists(es: seq<Entry>, i: nat)
    requires i < |es|
    ensures es[i].oc in ByDigest(es, es[i].digest) && es[i].oc in ByObject(es, es[i].obj)
  {
    if 0 < i {
      Lists(es[1..], i - 1);
    }
  }

  lemma {:induction false} Untagged(es: seq<Entry>, d: int)
    requires forall i :: 0 <= i < |es| ==> es[i].digest != d
    ensures ByDigest(es, d) == []
  {
    if es != [] {
      Untagged(es[1..], d);
    }
  }

  lemma AllTagged(es: seq<Entry>, d: int)
    requires ByDigest(es, d) == []
    ensures forall i :: 0 <= i < |es| ==> es[i].digest != d
  {
    forall i | 0 <= i < |es| ensures es[i].digest != d {
      Lists(es, i);
    }
  }

  lemma AllOwned(es: seq<Entry>, o: ObjCore)
    requires ByObject(es, o) == []
    ensures forall i :: 0 <= i < |es| ==> es[i].obj != o
  {
    forall i | 0 <= i < |es| ensures es[i].obj != o {
      Lists(es, i);
    }
  }

  lemma {:induction false} Unowned(es: seq<Entry>, o: ObjCore)
    requires forall i :: 0 <= i < |es| ==> es[i].obj != o
    ensures ByObject(es, o) == []
  {
    if es != [] {
      Unowned(es[1..], o);
    }
  }

  lemma {:induction false} DropAt(es: seq<Entry>, i: nat)
    requires i < |es| && Distinct(es)
    ensures Drop(es, es[i].oc) == es[..i] + es[i + 1..]
  {
    if 0 < i {
      DropAt(es[1..], i - 1);
      assert es[0].oc != es[i].oc;
    }
  }

  lemma DropKeeps(es: seq<Entry>, i: nat)
    requires i < |es| && Distinct(es)
    ensures var r := Drop(es, es[i].oc); forall j :: 0 <= j < |r| ==> r[j].oc != es[i].oc && r[j] in es
  {
    DropAt(es, i);
  }

  lemma MinusCons(y: XkeyOc, s: seq<XkeyOc>, x: XkeyOc)
    ensures Minus([y] + s, x) == if y == x then s else [y] + Minus(s, x)
  {
    assert ([y] + s)[1..] == s;
  }

  lemma {:induction false} DropByDigest(es: seq<Entry>, i: nat, d: int)
    requires i < |es| && Distinct(es)
    ensures ByDigest(Drop(es, es[i].oc), d)
         == if d == es[i].digest then Minus(ByDigest(es, d), es[i].oc) else ByDigest(es, d)
  {
    var e := es[i];
    if es[0].digest == d {
      MinusCons(es[0].oc, ByDigest(es[1..], d), e.oc);
    }
    if 0 < i {
      assert es[0].oc != e.oc;
      DropByDigest(es[1..], i - 1, d);
      var r := Drop(es[1..], e.oc);
      assert ([es[0]] + r)[1..] == r;
    }
  }

  lemma {:induction false} DropByObject(es: seq<Entry>, i: nat, o: ObjCore)
    requires i < |es| && Distinct(es)
    ensures ByObject(Drop(es, es[i].oc), o)
         == if o == es[i].obj then Minus(ByObject(es, o), es[i].oc) else ByObject(es, o)
  {
    var e := es[i];
    if es[0].obj == o {
      MinusCons(es[0].oc, ByObject(es[1..], o), e.oc);
    }
    if 0 < i {
      assert es[0].oc != e.oc;
      DropByObject(es[1..], i - 1, o);
      var r := Drop(es[1..], e.oc);
      assert ([es[0]] + r)[1..] == r;
    }
  }

  lemma DropOtherDigests(es: seq<Entry>, i: nat)
    requires i < |es| && Distinct(es)
    ensures forall d :: d != es[i].digest ==> ByDigest(Drop(es, es[i].oc), d) == ByDigest(es, d)
  {
    forall d | d != es[i].digest ensures ByDigest(Drop(es, es[i].oc), d) == ByDigest(es, d) {
      DropByDigest(es, i, d);
    }
  }

  lemma DropOtherObjects(es: seq<Entry>, i: nat, objects: set<ObjCore>)
    requires i < |es| && Distinct(es)
    ensures forall o :: o in objects && o != es[i].obj ==> ByObject(Drop(es, es[i].oc), o) == ByObject(es, o)
  {
    forall o | o in objects && o != es[i].obj ensures ByObject(Drop(es, es[i].oc), o) == ByObject(es, o) {
      DropByObject(es, i, o);
    }
  }

  lemma TightDrop(objects: set<ObjCore>, es: seq<Entry>, i: nat)
    requires i < |es| && Distinct(es) && es[i].obj !in objects && Tight({}, objects, es)
    ensures Tight({}, objects, Drop(es, es[i].oc)) && |Drop(es, es[i].oc)| < |es|
    ensures Distinct(Drop(es, es[i].oc))
  {
    DropOtherObjects(es, i, objects);
    RecordsDrop(es, i);
    DropAt(es, i);
  }

  lemma {:induction false} DropOthers(es: seq<Entry>, i: nat)
    requires i < |es| && Distinct(es)
    ensures Others(Drop(es, es[i].oc), es[i].obj) == Others(es, es[i].obj)
  {
    if 0 < i {
      assert es[0].oc != es[i].oc;
      DropOthers(es[1..], i - 1);
      var r := Drop(es[1..], es[i].oc);
      assert ([es[0]] + r)[1..] == r;
    }
  }

  lemma {:induction false} NoneLeft(es: seq<Entry>, o: ObjCore)
    requires ByObject(es, o) == []
    ensures Others(es, o) == es
  {
    if es != [] {
      NoneLeft(es[1..], o);
    }
  }

  /** Tagging a new object and then removing it leaves the index as it was,
      every list in its order, however often a tag was repeated. */
  lemma {:induction false} InsertThenRemove(es: seq<Entry>, added: seq<Entry>, o: ObjCore)
    requires forall i :: 0 <= i < |es| ==> es[i].obj != o
    requires forall i :: 0 <= i < |added| ==> added[i].obj == o
    ensures Others(es + added, o) == es
  {
    if es == [] {
      assert es + added == added;
      if added != [] {
        InsertThenRemove([], added[1..], o);
        assert [] + added[1..] == added[1..];
      }
    } else {
      assert (es + added)[1..] == es[1..] + added;
      InsertThenRemove(es[1..], added, o);
    }
  }

  function Records(es: seq<Entry>): set<XkeyOc> {
    set i | 0 <= i < |es| :: es[i].oc
  }

  lemma RecordsAppend(es: seq<Entry>, e: Entry)
    ensures Records(es + [e]) == Records(es) + {e.oc}
  {
    var w := es + [e];
    assert forall i :: 0 <= i < |es| ==> w[i] == es[i];
    assert w[|es|] == e;
  }

  lemma RecordsDrop(es: seq<Entry>, i: nat)
    requires i < |es| && Distinct(es)
    ensures Distinct(Drop(es, es[i].oc))
    ensures Records(Drop(es, es[i].oc)) == Records(es) - {es[i].oc}
  {
    DropAt(es, i);
    var w := es[..i] + es[i + 1..];
    forall j | 0 <= j < |es| && j != i ensures es[j].oc in Records(w) {
      var k := if j < i then j else j - 1;
      assert w[k] == es[j];
    }
  }
}
