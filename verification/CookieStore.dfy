/** The cookie store as an ordered map: a sequence of pairs without repeated
    names, changed only by setting, deleting and filtering. */
module CookieStore {

  datatype Pair = Pair(name: string, value: string)

  function Names(s: seq<Pair>): (r: seq<string>)
    ensures |r| == |s| && forall i :: 0 <= i < |s| ==> r[i] == s[i].name
  {
    seq(|s|, i requires 0 <= i < |s| => s[i].name)
  }

  /** What every reachable store keeps: distinct names, and nothing empty. */
  ghost predicate Stored(s: seq<Pair>) {
    && (forall i, j :: 0 <= i < j < |s| ==> s[i].name != s[j].name)
    && (forall i :: 0 <= i < |s| ==> s[i].name != "" && s[i].value != "")
  }

  /** find_cookie: the place of the first pair with the name, or |s|. */
  function Place(s: seq<Pair>, name: string): (r: nat)
    ensures r <= |s| && (r < |s| ==> s[r].name == name)
    ensures forall i :: 0 <= i < r ==> s[i].name != name
  {
    if s == [] || s[0].name == name then 0 else 1 + Place(s[1..], name)
  }

  function Set(s: seq<Pair>, name: string, value: string): seq<Pair> {
    if name == "" || value == "" then s
    else
      var k := Place(s, name);
      if k < |s| then s[k := Pair(name, value)] else s + [Pair(name, value)]
  }

  function Delete(s: seq<Pair>, name: string): seq<Pair> {
    var k := Place(s, name);
    if k < |s| then s[..k] + s[k + 1..] else s
  }

  /** The pairs whose name is among `names`, or is not, in order. */
  function Select(s: seq<Pair>, names: seq<string>, keep: bool): seq<Pair> {
    if s == [] then []
    else if (s[0].name in names) == keep then [s[0]] + Select(s[1..], names, keep)
    else Select(s[1..], names, keep)
  }

  /** The store seen as a map. */
  function Get(s: seq<Pair>, name: string): (r: string)
    ensures Stored(s) ==> (r == "" <==> name !in Names(s))
  {
    var k := Place(s, name);
    if k < |s| then s[k].value else ""
  }

  lemma {:induction false} PlaceFirst(s: seq<Pair>, name: string, i: nat)
    requires i <= |s| && (i < |s| ==> s[i].name == name)
    requires forall j :: 0 <= j < i ==> s[j].name != name
    ensures Place(s, name) == i
  {
  }

  lemma {:induction false} PlaceIsName(s: seq<Pair>, name: string)
    ensures Place(s, name) < |s| <==> name in Names(s)
    ensures Stored(s) ==> "" !in Names(s)
  {
    if name in Names(s) {
      var i :| 0 <= i < |s| && Names(s)[i] == name;
    }
    assert Place(s, name) < |s| ==> Names(s)[Place(s, name)] == name;
  }

  lemma {:induction false} PlaceIs(s: seq<Pair>, name: string, i: nat)
    requires Stored(s) && i <= |s|
    requires if i < |s| then s[i].name == name else name !in Names(s)
    ensures Place(s, name) == i
  {
    var k := Place(s, name);
    if k < |s| {
      assert Names(s)[k] == name;
    }
  }

  lemma {:induction false} SetKeepsStored(s: seq<Pair>, name: string, value: string)
    requires Stored(s)
    ensures Stored(Set(s, name, value))
  {
  }

  lemma {:induction false} SetThenGet(s: seq<Pair>, name: string, value: string, other: string)
    requires Stored(s)
    ensures Get(Set(s, name, value), other) ==
            if other == name && name != "" && value != "" then value else Get(s, other)
  {
    if name != "" && value != "" {
      SetKeepsStored(s, name, value);
      PlaceIs(Set(s, name, value), name, Place(s, name));
      if other != name {
        PlaceAfterSet(s, name, value, other);
      }
    }
  }

  lemma {:induction false} PlaceAfterSet(s: seq<Pair>, name: string, value: string, other: string)
    requires Stored(s) && Stored(Set(s, name, value)) && name != "" && value != "" && other != name
    ensures var r := Set(s, name, value);
            var k := Place(s, other);
            Place(r, other) == if k < |s| then k else |r|
  {
    var r, k := Set(s, name, value), Place(s, other);
    if k < |s| {
      PlaceIs(r, other, k);
    }
  }

  lemma {:induction false} DeleteKeepsStored(s: seq<Pair>, name: string)
    requires Stored(s)
    ensures Stored(Delete(s, name))
  {
  }

  lemma {:induction false} DeleteThenGet(s: seq<Pair>, name: string, other: string)
    requires Stored(s)
    ensures Get(Delete(s, name), other) == if other == name then "" else Get(s, other)
  {
    var k, r, j := Place(s, name), Delete(s, name), Place(s, other);
    DeleteKeepsStored(s, name);
    if k < |s| {
      if other != name && j < |s| {
        PlaceIs(r, other, if j < k then j else j - 1);
      }
    }
  }

  lemma {:induction false} PlaceOf(a: seq<Pair>, p: Pair, b: seq<Pair>)
    requires Stored(a + [p] + b)
    ensures Place(a + [p] + b, p.name) == |a| && p.name !in Names(a) + Names(b)
  {
    var s := a + [p] + b;
    assert s[|a|] == p;
    assert forall i :: 0 <= i < |a| ==> s[i] == a[i];
    assert forall i :: 0 <= i < |b| ==> s[|a| + 1 + i] == b[i];
    PlaceIs(s, p.name, |a|);
  }

  /** delete takes the pair out from between its neighbours. */
  lemma {:induction false} DeleteBetween(a: seq<Pair>, p: Pair, b: seq<Pair>)
    requires Stored(a + [p] + b)
    ensures Delete(a + [p] + b, p.name) == a + b
  {
    PlaceOf(a, p, b);
  }

  lemma {:induction false} DeleteAbsent(s: seq<Pair>, name: string)
    requires name !in Names(s)
    ensures Delete(s, name) == s
  {
    PlaceIsName(s, name);
  }

  /** set changes a value where it stands, and puts a new pair at the end. */
  lemma {:induction false} SetBetween(a: seq<Pair>, p: Pair, b: seq<Pair>, value: string)
    requires Stored(a + [p] + b) && value != ""
    ensures Set(a + [p] + b, p.name, value) == a + [Pair(p.name, value)] + b
  {
    PlaceOf(a, p, b);
    assert (a + [p] + b)[|a|] == p && p.name != "";
  }

  lemma {:induction false} SetAbsent(s: seq<Pair>, name: string, value: string)
    requires name !in Names(s) && name != "" && value != ""
    ensures Set(s, name, value) == s + [Pair(name, value)]
  {
    PlaceIsName(s, name);
  }

  lemma {:induction false} SelectHas(s: seq<Pair>, names: seq<string>, keep: bool)
    ensures forall p :: p in Select(s, names, keep) <==> p in s && ((p.name in names) == keep)
  {
    if s != [] {
      SelectHas(s[1..], names, keep);
    }
  }

  lemma {:induction false} SelectKeepsStored(s: seq<Pair>, names: seq<string>, keep: bool)
    requires Stored(s)
    ensures Stored(Select(s, names, keep))
  {
    if s != [] {
      SelectKeepsStored(s[1..], names, keep);
      SelectHas(s[1..], names, keep);
      var r := Select(s[1..], names, keep);
      forall i | 0 <= i < |r| ensures r[i].name != s[0].name {
        assert r[i] in s[1..];
      }
    }
  }

  lemma {:induction false} KeepAt(s: seq<Pair>, i: nat, names: seq<string>, keep: bool)
    requires i < |s| && (s[i].name in names) == keep
    ensures s[..i] + Select(s[i..], names, keep) == s[..i + 1] + Select(s[i + 1..], names, keep)
  {
    assert s[i..][1..] == s[i + 1..];
  }

  /** Two sequences shuffled together: `true` in `mask` takes from the first. */
  function Shuffle(mask: seq<bool>, a: seq<Pair>, b: seq<Pair>): seq<Pair> {
    if mask == [] then a + b
    else if mask[0] then (if a == [] then b else [a[0]] + Shuffle(mask[1..], a[1..], b))
    else (if b == [] then a else [b[0]] + Shuffle(mask[1..], a, b[1..]))
  }

  function Mask(s: seq<Pair>, names: seq<string>): seq<bool> {
    seq(|s|, i requires 0 <= i < |s| => s[i].name in names)
  }

  /** Filtering out and filtering except one list split the store into two
      complementary parts, each in the order of the store. */
  lemma {:induction false} FiltersPartition(s: seq<Pair>, names: seq<string>)
    ensures Shuffle(Mask(s, names), Select(s, names, true), Select(s, names, false)) == s
    ensures |Select(s, names, true)| + |Select(s, names, false)| == |s|
  {
    if s != [] {
      FiltersPartition(s[1..], names);
      assert Mask(s, names)[1..] == Mask(s[1..], names);
      var a, b := Select(s, names, true), Select(s, names, false);
      if s[0].name in names {
        assert a[1..] == Select(s[1..], names, true);
      } else {
        assert b[1..] == Select(s[1..], names, false);
      }
    }
  }

  /** Setting a sequence of pairs one after another. */
  function SetAll(s: seq<Pair>, ps: seq<Pair>): seq<Pair>
    decreases |ps|
  {
    if ps == [] then s else SetAll(Set(s, ps[0].name, ps[0].value), ps[1..])
  }

  /** The pairs that set() does not ignore. */
  function Effective(ps: seq<Pair>): seq<Pair> {
    if ps == [] then []
    else if ps[0].name == "" || ps[0].value == "" then Effective(ps[1..])
    else [ps[0]] + Effective(ps[1..])
  }

  /** Each name that is not yet in `seen`, once, where it first occurs. */
  function FirstNames(seen: seq<string>, ps: seq<Pair>): seq<string>
    decreases |ps|
  {
    if ps == [] then []
    else if ps[0].name in seen then FirstNames(seen, ps[1..])
    else [ps[0].name] + FirstNames(seen + [ps[0].name], ps[1..])
  }

  /** The value of the last pair with the name, if any. */
  function LastValue(ps: seq<Pair>, name: string, default: string): string {
    if ps == [] then default
    else if ps[|ps| - 1].name == name then ps[|ps| - 1].value
    else LastValue(ps[..|ps| - 1], name, default)
  }

  lemma {:induction false} LastValueFront(p: Pair, ps: seq<Pair>, name: string, default: string)
    ensures LastValue([p] + ps, name, default) == LastValue(ps, name, if p.name == name then p.value else default)
  {
    var all := [p] + ps;
    if ps != [] {
      assert all[|all| - 1] == ps[|ps| - 1];
      assert all[..|all| - 1] == [p] + ps[..|ps| - 1];
      LastValueFront(p, ps[..|ps| - 1], name, default);
    } else {
      assert all == [p] && all[..0] == [];
    }
  }

  /** Names keep the order of their first occurrence. */
  lemma {:induction false} SetAllNames(s: seq<Pair>, ps: seq<Pair>)
    ensures Names(SetAll(s, ps)) == Names(s) + FirstNames(Names(s), Effective(ps))
    decreases |ps|
  {
    if ps != [] {
      var p := ps[0];
      var t := Set(s, p.name, p.value);
      SetAllNames(t, ps[1..]);
      if p.name != "" && p.value != "" {
        var k := Place(s, p.name);
        assert Effective(ps)[1..] == Effective(ps[1..]);
        if k < |s| {
          assert Names(s)[k] == p.name;
          assert Names(t) == Names(s);
        } else {
          assert p.name !in Names(s);
          assert Names(t) == Names(s) + [p.name];
        }
      }
    }
  }

  /** Each name has its last nonempty value. */
  lemma {:induction false} SetAllGet(s: seq<Pair>, ps: seq<Pair>, name: string)
    requires Stored(s)
    ensures Stored(SetAll(s, ps))
    ensures Get(SetAll(s, ps), name) == LastValue(Effective(ps), name, Get(s, name))
    decreases |ps|
  {
    if ps != [] {
      var p := ps[0];
      SetKeepsStored(s, p.name, p.value);
      SetThenGet(s, p.name, p.value, name);
      SetAllGet(Set(s, p.name, p.value), ps[1..], name);
      if p.name != "" && p.value != "" {
        LastValueFront(p, Effective(ps[1..]), name, Get(s, name));
      }
    }
  }
}
