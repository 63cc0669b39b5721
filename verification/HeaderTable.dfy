/** The header table of one message: two parallel arrays, compacted in place by
    a removal and appended to by a copy that is walking it. */
module HeaderTable {
  import opened Ascii
  import opened Vcl
  import opened HeaderText

  class Http {
    const hd: array<VclString>
    const hdf: array<int>
    /** HTTP_HDR_FIRST, the first slot after the parts of the first line. */
    const first: nat
    var nhd: nat

    ghost predicate Valid()
      reads this
    {
      0 < first <= nhd <= hd.Length && hdf.Length == hd.Length
    }

    ghost function Entries(): (r: seq<Slot>)
      requires Valid()
      reads this, hd, hdf
      ensures |r| == nhd - first
    {
      seq(nhd - first, i requires 0 <= i < nhd - first reads this, hd, hdf =>
        if Valid() then Slot(hd[first + i], hdf[first + i]) else Slot(Null, 0))
    }

    constructor (first: nat, size: nat)
      requires 0 < first <= size
      ensures Valid() && Entries() == [] && this.first == first && hd.Length == size && fresh(hd) && fresh(hdf)
    {
      this.first := first;
      hd := new VclString[size](_ => Null);
      hdf := new int[size](_ => 0);
      nhd := first;
    }

    /** header_http_match. */
    method MatchAt(u: nat, re: Regex, hdr: string) returns (r: bool)
      requires Valid() && u < nhd
      ensures r <==> Match(hd[u], re, hdr)
    {
      if hd[u].Null? || !HasPrefix(hd[u].s, hdr) {
        return false;
      }
      if re.NoRegex? {
        return true;
      }
      var b := hd[u].s;
      var start := |hdr|;
      while start < |b| && b[start] == ' '
        invariant |hdr| <= start <= |b| && Content(b[|hdr|..], false) == Content(b[start..], false)
      {
        assert b[start..][1..] == b[start + 1..];
        start := start + 1;
      }
      if start == |b| {
        return false;
      }
      r := re.accepts(b[start..]);
    }

    /** header_http_findhdr: the first match, or 0 when there is none. */
    method FindHdr(hdr: string, re: Regex) returns (r: nat)
      requires Valid()
      ensures r == 0 <==> forall i :: first <= i < nhd ==> !Match(hd[i], re, hdr)
      ensures r != 0 ==>
          first <= r < nhd && Match(hd[r], re, hdr) && forall i :: first <= i < r ==> !Match(hd[i], re, hdr)
    {
      var u := first;
      while u < nhd
        invariant first <= u <= nhd && forall i :: first <= i < u ==> !Match(hd[i], re, hdr)
      {
        var m := MatchAt(u, re, hdr);
        if m {
          return u;
        }
        u := u + 1;
      }
      r := 0;
    }

    ghost predicate Unmatched(n: nat, re: Regex, hdr: string)
      requires Valid() && n <= nhd
      reads this, hd
    {
      forall j :: first <= j < n ==> !Match(hd[j], re, hdr)
    }

    /** vmod_get: the content of the first match. */
    method Get(hdr: string, re: Regex) returns (r: VclString)
      requires Valid()
      ensures r.Null? <==> forall i :: first <= i < nhd ==> !Match(hd[i], re, hdr)
      ensures r.Str? ==>
          exists i :: first <= i < nhd && Match(hd[i], re, hdr) && r.s == Content(hd[i].s[|hdr|..], true)
              && Unmatched(i, re, hdr)
    {
      var u := FindHdr(hdr, re);
      if u == 0 {
        return Null;
      }
      var p := SkipBlank(hd[u].s, |hdr|);
      r := Str(hd[u].s[p..]);
    }

    static method SkipBlank(b: string, from: nat) returns (p: nat)
      requires from <= |b|
      ensures from <= p <= |b| && Content(b[from..], true) == b[p..]
    {
      p := from;
      while p < |b| && (b[p] == ' ' || b[p] == '\t')
        invariant from <= p <= |b| && Content(b[from..], true) == Content(b[p..], true)
      {
        assert b[p..][1..] == b[p + 1..];
        p := p + 1;
      }
    }

    /** The move of one kept line and its flags. */
    method Move(v: nat, u: nat)
      requires v <= u < hd.Length && hdf.Length == hd.Length
      modifies hd, hdf
      ensures forall i :: 0 <= i < hd.Length ==>
          if i == v then hd[i] == old(hd[u]) && hdf[i] == old(hdf[u]) else hd[i] == old(hd[i]) && hdf[i] == old(hdf[i])
    {
      if v != u {
        hd[v] := hd[u];
        hdf[v] := hdf[u];
      }
    }

    /** Halfway through header_http_Unset: the lines before `u` have been kept up to
        `v`, the others are where they were. */
    ghost predicate Compacted(was: seq<Slot>, u: nat, v: nat, re: Regex, hdr: string)
      requires Valid()
      reads this, hd, hdf
    {
      && |was| == nhd - first && first <= v <= u <= nhd
      && v - first == |Kept(was[..u - first], re, hdr)|
      && (forall i :: first <= i < v ==> Slot(hd[i], hdf[i]) == Kept(was[..u - first], re, hdr)[i - first])
      && (forall i :: u <= i < nhd ==> Slot(hd[i], hdf[i]) == was[i - first])
    }

    method CompactOne(ghost was: seq<Slot>, u: nat, v: nat, re: Regex, hdr: string) returns (v': nat)
      requires Valid() && Compacted(was, u, v, re, hdr) && u < nhd
      modifies hd, hdf
      ensures Compacted(was, u + 1, v', re, hdr)
      ensures forall i :: 0 <= i < first ==> hd[i] == old(hd[i]) && hdf[i] == old(hdf[i])
    {
      KeptSnoc(was, u - first, re, hdr);
      assert Slot(hd[u], hdf[u]) == was[u - first];
      v' := v;
      var m := MatchAt(u, re, hdr);
      if hd[u].Str? && !m {
        Move(v, u);
        v' := v + 1;
      }
    }

    /** header_http_Unset: the kept lines move up with their flags, in order. */
    method Unset(hdr: string, re: Regex)
      requires Valid()
      modifies `nhd, hd, hdf
      ensures Valid() && Entries() == Kept(old(Entries()), re, hdr)
      ensures forall i :: 0 <= i < first ==> hd[i] == old(hd[i]) && hdf[i] == old(hdf[i])
    {
      ghost var was := Entries();
      var u, v := first, first;
      while u < nhd
        invariant nhd == old(nhd) && Compacted(was, u, v, re, hdr)
        invariant forall i :: 0 <= i < first ==> hd[i] == old(hd[i]) && hdf[i] == old(hdf[i])
      {
        v := CompactOne(was, u, v, re, hdr);
        u := u + 1;
      }
      assert was[..u - first] == was;
      nhd := v;
    }

    /** vmod_append: lost when the workspace or the table is full. */
    method Append(name: string, p: VclString, ws: Workspace) returns (ghost appended: bool)
      requires Valid()
      modifies `nhd, hd, hdf, ws
      ensures Valid() && nhd >= old(nhd)
      ensures appended ==> p.Str? && old(nhd) < hd.Length
      ensures Entries() == if appended then old(Entries()) + [Slot(Str(name + " " + p.s), 0)] else old(Entries())
      ensures p.Str? && !ws.overflow && old(nhd) < hd.Length ==> appended
      ensures old(ws.overflow) ==> ws.overflow
    {
      appended := false;
      if p.Null? {
        return;
      }
      var ok := ws.Alloc();
      if ok && nhd < hd.Length {
        hd[nhd] := Str(Line(name, p.s));
        hdf[nhd] := 0;
        nhd := nhd + 1;
        appended := true;
      }
    }

    ghost function Size(): nat
      requires Valid()
      reads this
    {
      hd.Length - first
    }
  }

  /** Neither table shares an array with the other, unless they are the same. */
  ghost predicate Apart(hp: Http, target: Http) {
    hp == target || (hp.hd != target.hd && hp.hdf != target.hdf)
  }

  /** The value to copy from line `u`, null when the line does not match. */
  method ValueAt(hp: Http, u: nat, hdr: string, ghost dst: string) returns (value: VclString)
    requires hp.Valid() && hp.first <= u < hp.nhd
    ensures value.Str? <==> Match(hp.Entries()[u - hp.first].b, NoRegex, hdr)
    ensures CopyOf(hp.Entries()[u - hp.first], hdr, dst) == ValueLine(dst, value)
  {
    assert hp.Entries()[u - hp.first].b == hp.hd[u];
    value := Null;
    var m := hp.MatchAt(u, NoRegex, hdr);
    if m {
      var p := Http.SkipBlank(hp.hd[u].s, |hdr|);
      value := Str(hp.hd[u].s[p..]);
    }
  }

  /** One round of header_http_cphdr: the value found, and the tables after it has
      been appended or lost. */
  method CopyOne(hp: Http, hdr: string, target: Http, dst: string, ws: Workspace, u: nat, ghost e: seq<Slot>,
      ghost t: seq<Slot>)
    returns (value: VclString, ghost appended: bool, ghost e': seq<Slot>, ghost t': seq<Slot>)
    requires Apart(hp, target) && hp.Valid() && target.Valid() && hp.first <= u < hp.nhd
    requires e == hp.Entries() && t == target.Entries()
    modifies target`nhd, target.hd, target.hdf, ws
    ensures hp.Valid() && target.Valid() && hp.nhd >= old(hp.nhd) && (old(ws.overflow) ==> ws.overflow)
    ensures e' == hp.Entries() && t' == target.Entries()
    ensures RoundOf(e, e', t, t', u - hp.first, hdr, dst, value, appended, target.Size(), hp == target, ws.overflow)
  {
    appended := false;
    value := ValueAt(hp, u, hdr, dst);
    if value.Str? {
      appended := target.Append(dst, value, ws);
    }
    e', t' := hp.Entries(), target.Entries();
  }

  method CopyRound(hp: Http, hdr: string, target: Http, dst: string, ws: Workspace, u: nat,
      ghost src: seq<Slot>, ghost before: seq<Slot>, ghost own: bool, ghost e: seq<Slot>, ghost t: seq<Slot>)
    returns (ghost e': seq<Slot>, ghost t': seq<Slot>)
    requires Apart(hp, target) && hp.Valid() && target.Valid() && HeaderName(hdr) && HeaderName(dst)
    requires hp.first <= u < hp.nhd && before <= t && e == hp.Entries() && t == target.Entries()
    requires own == (hp == target && SameName(dst, hdr) && Copies(src, hdr, dst) != [])
    requires Walking(e, t, src, before, u - hp.first, hdr, dst, target.Size(), own, ws.overflow)
    modifies target`nhd, target.hd, target.hdf, ws
    ensures hp.Valid() && target.Valid() && hp.nhd >= old(hp.nhd) && (old(ws.overflow) ==> ws.overflow)
    ensures e' == hp.Entries() && t' == target.Entries() && before <= t'
    ensures Walking(e', t', src, before, u + 1 - hp.first, hdr, dst, target.Size(), own, ws.overflow)
  {
    ghost var lost, k, size, one := ws.overflow, u - hp.first, target.Size(), hp == target;
    ghost var appended;
    var value;
    value, appended, e', t' := CopyOne(hp, hdr, target, dst, ws, u, e, t);
    StillAhead(before, t, ValueLine(dst, value));
    WalkStep(e, e', t, t', src, before, k, hdr, dst, value, appended, size, one, own, lost, ws.overflow);
  }

  lemma StillAhead(before: seq<Slot>, t: seq<Slot>, more: seq<Slot>)
    requires before <= t
    ensures before <= t + more
  {
  }

  /** The loop of header_http_cphdr.  It ends although the table may grow under it. */
  method CopyAll(hp: Http, hdr: string, target: Http, dst: string, ws: Workspace,
      ghost src: seq<Slot>, ghost before: seq<Slot>, ghost own: bool)
    requires Apart(hp, target) && hp.Valid() && target.Valid() && HeaderName(hdr) && HeaderName(dst)
    requires src == hp.Entries() && before == target.Entries()
    requires own == (hp == target && SameName(dst, hdr) && Copies(src, hdr, dst) != [])
    modifies target`nhd, target.hd, target.hdf, ws
    ensures hp.Valid() && target.Valid() && before <= target.Entries() && (old(ws.overflow) ==> ws.overflow)
    ensures Walking(hp.Entries(), target.Entries(), src, before, |hp.Entries()|, hdr, dst, target.Size(), own,
        ws.overflow)
  {
    WalkStarts(src, before, hdr, dst, target.Size(), own, ws.overflow);
    ghost var e, t := src, before;
    var u := hp.first;
    while u < hp.nhd
      invariant hp.Valid() && target.Valid() && hp.first <= u <= hp.nhd && (old(ws.overflow) ==> ws.overflow)
      invariant e == hp.Entries() && t == target.Entries() && before <= t
      invariant Walking(e, t, src, before, u - hp.first, hdr, dst, target.Size(), own, ws.overflow)
      decreases hp.hd.Length - u
    {
      e, t := CopyRound(hp, hdr, target, dst, ws, u, src, before, own, e, t);
      u := u + 1;
    }
  }

  /** The copy is of a name onto itself, in one table that has lines under it: it
      goes on to copy the lines that it appends. */
  ghost predicate FindsItsOwn(hp: Http, hdr: string, target: Http, dst: string)
    requires hp.Valid()
    reads hp, hp.hd, hp.hdf
  {
    hp == target && SameName(dst, hdr) && Copies(hp.Entries(), hdr, dst) != []
  }

  /** header_http_cphdr.  The old lines stay.  Unless the workspace fails, what is
      appended is one line for each line under the old name, in order, as far as
      they fit; only a copy that finds its own lines goes on until the table is
      full. */
  method Copy(hp: Http, hdr: string, target: Http, dst: string, ws: Workspace)
    requires Apart(hp, target) && hp.Valid() && target.Valid() && HeaderName(hdr) && HeaderName(dst)
    modifies target`nhd, target.hd, target.hdf, ws
    ensures hp.Valid() && target.Valid()
    ensures old(target.Entries()) <= target.Entries() && (old(ws.overflow) ==> ws.overflow)
    ensures !ws.overflow ==>
        CopyEnds(target.Entries(), old(target.Entries()), Copies(old(hp.Entries()), hdr, dst), target.Size(),
                 old(FindsItsOwn(hp, hdr, target, dst)))
    ensures !ws.overflow ==>
        var all := old(target.Entries()) + Copies(old(hp.Entries()), hdr, dst);
        target.Entries() == all <==>
          |all| <= target.Size() && (!old(FindsItsOwn(hp, hdr, target, dst)) || |all| == target.Size())
  {
    ghost var src, before, own := hp.Entries(), target.Entries(), FindsItsOwn(hp, hdr, target, dst);
    CopyAll(hp, hdr, target, dst, ws, src, before, own);
    WalkEnds(hp.Entries(), target.Entries(), src, before, hdr, dst, target.Size(), own, ws.overflow);
    if !ws.overflow {
      OneLineEach(target.Entries(), before, Copies(src, hdr, dst), target.Size(), own);
    }
  }

  /** A table of three slots with one line, copied onto its own name: the line is there
      three times, where one copy of each occurrence would make it two. */
  method CopyOntoItself() returns (h: Http, ws: Workspace)
    ensures h.Valid() && fresh(h)
    ensures !ws.overflow ==>
        var line := Slot(Str("a: 1"), 0);
        Copies([line], "a:", "a:") == [line] && |h.Entries()| == 3 && h.Entries() != [line] + [line]
  {
    ws := new Workspace();
    h := new Http(1, 4);
    ghost var appended := h.Append("a:", Str("1"), ws);
    OwnLine();
    assert appended ==> h.Entries() == [Slot(Str("a: 1"), 0)];
    Copy(h, "a:", h, "a:", ws);
    if !ws.overflow {
      OwnLineFills(h.Entries());
    }
  }

  lemma OwnLineFills(t: seq<Slot>)
    requires CopyEnds(t, [Slot(Str("a: 1"), 0)], [Slot(Str("a: 1"), 0)], 3, true)
    ensures |t| == 3 && t != [Slot(Str("a: 1"), 0)] + [Slot(Str("a: 1"), 0)]
  {
  }

  lemma OwnLine()
    ensures var line := Slot(Str("a: 1"), 0);
            && Line("a:", "1") == "a: 1" && Copies([line], "a:", "a:") == [line]
            && HeaderName("a:") && SameName("a:", "a:")
  {
    var line := Slot(Str("a: 1"), 0);
    assert [line][..0] == [];
    assert "a: 1"[2..] == " 1" && " 1"[1..] == "1";
    assert Line("a:", "1") == "a: 1";
  }
}
