/** The comma-separated name lists of filter and filter_except. */
module CookieList {
  import opened Ascii
  import opened CookieText

  /** The comma-separated pieces of `s`. */
  function Pieces(s: string): (r: seq<string>)
    ensures r != []
    decreases |s|
  {
    var c := Find(s, 0, ',');
    [s[..c]] + if c == |s| then [] else Pieces(s[c + 1..])
  }

  /** The names in a list: its pieces without leading space, empty ones dropped. */
  function NamesIn(pieces: seq<string>): seq<string> {
    if pieces == [] then []
    else (if SkipSpace(pieces[0]) == "" then [] else [SkipSpace(pieces[0])]) + NamesIn(pieces[1..])
  }

  function ListNames(s: string): seq<string> {
    NamesIn(Pieces(s))
  }

  /** Space at the front of the text is space at the front of its first piece. */
  lemma {:induction false} SpaceAhead(s: string)
    requires s != "" && IsSpace(s[0])
    ensures ListNames(s) == ListNames(s[1..])
  {
    var c := Find(s, 0, ',');
    FindTail(s, ',');
    var t := s[1..];
    assert t[..c - 1] == s[..c][1..];
    assert c < |s| ==> t[c..] == s[c + 1..];
    assert Pieces(s)[1..] == Pieces(t)[1..];
  }

  lemma {:induction false} FindTail(s: string, c: char)
    requires s != "" && s[0] != c
    ensures Find(s, 0, c) == 1 + Find(s[1..], 0, c)
  {
    var r := Find(s[1..], 0, c);
    var q := Find(s, 0, c);
    assert q < |s| ==> s[1..][q - 1] == c;
    assert r < |s| - 1 ==> s[r + 1] == c;
  }

  /** The next name of the text from `p` on: up to a comma, which is consumed. */
  lemma {:induction false} NextName(s: string, p: nat, q: nat)
    requires p < |s| && !IsSpace(s[p]) && p <= q <= |s| && (q < |s| ==> s[q] == ',')
    requires forall i :: p <= i < q ==> s[i] != ','
    ensures ListNames(s[p..]) ==
            if p == q then ListNames(s[q + 1..])
            else if q == |s| then [s[p..q]]
            else [s[p..q]] + ListNames(s[q + 1..])
  {
    var t, c := s[p..], q - p;
    FirstComma(t, c);
    assert t[..c] == s[p..q];
    if c < |t| {
      assert t[c + 1..] == s[q + 1..];
    }
    if p < q {
      assert !IsSpace(s[p..q][0]);
    }
    FirstPiece(t, c, s[p..q], if c < |t| then s[q + 1..] else "");
  }

  /** The names of `t`, whose first comma is at `c`. */
  lemma {:induction false} FirstPiece(t: string, c: nat, piece: string, rest: string)
    requires t != "" && c <= |t| && Find(t, 0, ',') == c && t[..c] == piece
    requires c < |t| ==> rest == t[c + 1..]
    requires SkipSpace(piece) == piece
    ensures ListNames(t) ==
            if piece == "" then ListNames(rest) else if c == |t| then [piece] else [piece] + ListNames(rest)
  {
    var all, others := Pieces(t), if c < |t| then Pieces(rest) else [];
    assert all == [piece] + others;
    assert all[1..] == others;
    assert NamesIn(all) == (if piece == "" then [] else [piece]) + NamesIn(others);
    assert c == |t| ==> NamesIn(others) == [];
  }

  lemma {:induction false} FirstComma(t: string, c: nat)
    requires c <= |t| && (c < |t| ==> t[c] == ',') && forall i :: 0 <= i < c ==> t[i] != ','
    ensures Find(t, 0, ',') == c
  {
  }

  lemma {:induction false} NoNames()
    ensures ListNames("") == []
  {
    assert Pieces("") == [""];
    assert Pieces("")[1..] == [];
  }

  lemma {:induction false} SkipKeepsNames(s: string)
    ensures ListNames(SkipSpace(s)) == ListNames(s)
  {
    if s != "" && IsSpace(s[0]) {
      SpaceAhead(s);
      SkipKeepsNames(s[1..]);
    }
  }

  /** A list without a comma names what follows its leading space, if anything. */
  lemma {:induction false} NamesOfOne(pad: string, name: string)
    requires forall i :: 0 <= i < |pad| ==> IsSpace(pad[i]) && pad[i] != ','
    requires (forall i :: 0 <= i < |name| ==> name[i] != ',') && (name != "" ==> !IsSpace(name[0]))
    ensures ListNames(pad + name) == if name == "" then [] else [name]
  {
    SkipPad(pad, name);
    SkipKeepsNames(pad + name);
    NoNames();
    if name != "" {
      FirstComma(name, |name|);
      SkipPad("", name);
      assert "" + name == name == name[..|name|];
      FirstPiece(name, |name|, name, "");
    }
  }

  /** A comma between two lists keeps their names apart. */
  lemma {:induction false} NamesJoin(a: string, b: string)
    ensures ListNames(a + "," + b) == ListNames(a) + ListNames(b)
    decreases |a|
  {
    PiecesJoin(a, b);
    NamesInJoin(Pieces(a), Pieces(b));
  }

  lemma {:induction false} PiecesJoin(a: string, b: string)
    ensures Pieces(a + "," + b) == Pieces(a) + Pieces(b)
    decreases |a|
  {
    var c := Find(a, 0, ',');
    JoinAt(a, b);
    if c < |a| {
      PiecesJoin(a[c + 1..], b);
      Regroup3([a[..c]], Pieces(a[c + 1..]), Pieces(b));
    } else {
      assert a[..c] == a;
    }
  }

  lemma {:induction false} JoinAt(a: string, b: string)
    ensures var s, c := a + "," + b, Find(a, 0, ',');
            && c < |s| && Find(s, 0, ',') == c && s[..c] == a[..c]
            && s[c + 1..] == if c < |a| then a[c + 1..] + "," + b else b
  {
    var s, c := a + "," + b, Find(a, 0, ',');
    assert s[..|a|] == a && s[|a|] == ',';
    forall i | 0 <= i < c ensures s[i] != ',' {
      assert s[i] == s[..|a|][i];
    }
    assert c < |a| ==> s[c] == s[..|a|][c];
    FirstComma(s, c);
  }

  lemma {:induction false} NamesInJoin(a: seq<string>, b: seq<string>)
    ensures NamesIn(a + b) == NamesIn(a) + NamesIn(b)
  {
    if a == [] {
      assert a + b == b;
    } else {
      NamesInJoin(a[1..], b);
      assert (a + b)[0] == a[0] && (a + b)[1..] == a[1..] + b;
      Regroup3(if SkipSpace(a[0]) == "" then [] else [SkipSpace(a[0])], NamesIn(a[1..]), NamesIn(b));
    }
  }

  lemma {:induction false} Regroup3(a: seq<string>, b: seq<string>, c: seq<string>)
    ensures a + (b + c) == a + b + c
  {
  }

  method NextComma(s: string, p: nat) returns (q: nat)
    requires p <= |s|
    ensures p <= q <= |s| && (q < |s| ==> s[q] == ',') && forall i :: p <= i < q ==> s[i] != ','
  {
    q := p;
    while q < |s| && s[q] != ','
      invariant p <= q <= |s| && forall i :: p <= i < q ==> s[i] != ','
    {
      q := q + 1;
    }
  }

  lemma {:induction false} Regroup(a: seq<string>, x: string, r: seq<string>)
    ensures a + ([x] + r) == (a + [x]) + r
    ensures a + [x] + [] == a + [x]
  {
  }

  /** The scanning loop of filter_cookies. */
  method ReadList(s: string) returns (names: seq<string>)
    ensures names == ListNames(s)
  {
    names := [];
    var p := 0;
    ghost var rest := ListNames(s);
    NoNames();
    assert s[0..] == s && s[|s|..] == "";
    while p < |s|
      invariant p <= |s|
      invariant rest == ListNames(s[p..]) && ListNames(s) == names + rest
    {
      SkipKeepsNames(s[p..]);
      p := SkipSpaces(s, p);
      if p == |s| {
        break;
      }
      var q := NextComma(s, p);
      NextName(s, p, q);
      if q == p {
        p := p + 1;
        continue;
      }
      rest := if q < |s| then ListNames(s[q + 1..]) else [];
      Regroup(names, s[p..q], rest);
      names := names + [s[p..q]];
      p := q;
      if p < |s| {
        p := p + 1;
      }
    }
    assert names + [] == names;
  }
}
