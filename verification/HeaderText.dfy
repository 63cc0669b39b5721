/** Matching one header line, and the two ways a table of them is changed. */
module HeaderText {
  import opened Ascii
  import opened Vcl

  /** One slot of a table: the line, or null, and its flags. */
  datatype Slot = Slot(b: VclString, flags: int)
  /** The regular expression of remove and get, as a predicate on contents. */
  datatype Regex = NoRegex | Regex(accepts: string -> bool)

  /** The text after the spaces (and, for `tabs`, tabs) at its front. */
  function Content(s: string, tabs: bool): string {
    if s != "" && (s[0] == ' ' || (tabs && s[0] == '\t')) then Content(s[1..], tabs) else s
  }

  /** header_http_match: the line is `hdr`, and a given regular expression accepts
      its content, which must not be empty. */
  predicate Match(b: VclString, re: Regex, hdr: string) {
    && b.Str? && HasPrefix(b.s, hdr)
    && (re.NoRegex? || (Content(b.s[|hdr|..], false) != "" && re.accepts(Content(b.s[|hdr|..], false))))
  }

  /** What a removal keeps, in order. */
  function Kept(s: seq<Slot>, re: Regex, hdr: string): seq<Slot> {
    if s == [] then []
    else Kept(s[..|s| - 1], re, hdr) + Keep(s[|s| - 1], re, hdr)
  }

  function Keep(x: Slot, re: Regex, hdr: string): seq<Slot> {
    if x.b.Null? || Match(x.b, re, hdr) then [] else [x]
  }

  /** The line that append makes of a header and a value. */
  function Line(dst: string, value: string): string {
    dst + " " + value
  }

  function CopyOf(x: Slot, hdr: string, dst: string): seq<Slot> {
    if Match(x.b, NoRegex, hdr) then [Slot(Str(Line(dst, Content(x.b.s[|hdr|..], true))), 0)] else []
  }

  /** One line under the new name for each line under the old one, in order. */
  function Copies(s: seq<Slot>, hdr: string, dst: string): seq<Slot> {
    if s == [] then []
    else Copies(s[..|s| - 1], hdr, dst) + CopyOf(s[|s| - 1], hdr, dst)
  }

  lemma {:induction false} KeptHas(s: seq<Slot>, re: Regex, hdr: string)
    ensures forall x :: x in Kept(s, re, hdr) <==> x in s && x.b.Str? && !Match(x.b, re, hdr)
  {
    if s != [] {
      KeptHas(s[..|s| - 1], re, hdr);
      assert s == s[..|s| - 1] + [s[|s| - 1]];
    }
  }

  /** A second removal with the same arguments changes nothing. */
  lemma {:induction false} KeptTwice(s: seq<Slot>, re: Regex, hdr: string)
    ensures Kept(Kept(s, re, hdr), re, hdr) == Kept(s, re, hdr)
  {
    if s != [] {
      var k, x := Kept(s[..|s| - 1], re, hdr), s[|s| - 1];
      KeptTwice(s[..|s| - 1], re, hdr);
      if Keep(x, re, hdr) == [x] {
        assert (k + [x])[..|k|] == k;
      } else {
        assert k + [] == k;
      }
    }
  }

  lemma KeptSnoc(s: seq<Slot>, i: nat, re: Regex, hdr: string)
    requires i < |s|
    ensures Kept(s[..i + 1], re, hdr) ==
            if s[i].b.Null? || Match(s[i].b, re, hdr) then Kept(s[..i], re, hdr) else Kept(s[..i], re, hdr) + [s[i]]
  {
    assert s[..i + 1][..i] == s[..i];
    assert Kept(s[..i], re, hdr) + [] == Kept(s[..i], re, hdr);
  }

  lemma CopiesSnoc(s: seq<Slot>, i: nat, hdr: string, dst: string)
    requires i < |s|
    ensures Copies(s[..i + 1], hdr, dst) == Copies(s[..i], hdr, dst) + CopyOf(s[i], hdr, dst)
  {
    assert s[..i + 1][..i] == s[..i];
  }

  lemma {:induction false} CopiesGrow(s: seq<Slot>, i: nat, hdr: string, dst: string)
    requires i <= |s|
    ensures |Copies(s[..i], hdr, dst)| <= |Copies(s, hdr, dst)|
    decreases |s|
  {
    if i < |s| {
      CopiesGrow(s[..|s| - 1], i, hdr, dst);
      assert s[..|s| - 1][..i] == s[..i];
    } else {
      assert s[..i] == s;
    }
  }

  /** A line appended as `dst` is found under `hdr` exactly when the names are equal
      up to case. */
  lemma AppendedMatches(hdr: string, dst: string, value: string)
    requires HeaderName(hdr) && HeaderName(dst)
    ensures Match(Str(Line(dst, value)), NoRegex, hdr) <==> SameName(dst, hdr)
  {
    NameAtFront(hdr, dst, " " + value);
    assert dst + (" " + value) == Line(dst, value);
  }

  predicate IsPad(c: char, tabs: bool) {
    c == ' ' || (tabs && c == '\t')
  }

  /** The text `pad + value` has `value` as its content. */
  predicate Padded(pad: string, value: string, tabs: bool) {
    && (forall i :: 0 <= i < |pad| ==> IsPad(pad[i], tabs))
    && (value != "" ==> !IsPad(value[0], tabs))
  }

  lemma {:induction false} PaddedContent(pad: string, value: string, tabs: bool)
    requires Padded(pad, value, tabs)
    ensures Content(pad + value, tabs) == value
  {
    if pad == "" {
      assert pad + value == value;
    } else {
      PaddedContent(pad[1..], value, tabs);
      assert (pad + value)[1..] == pad[1..] + value;
    }
  }

  /** A regular expression is shown the text after the spaces, and is not asked when
      there is none. */
  lemma RegexMatches(hdr: string, dst: string, pad: string, value: string, accepts: string -> bool)
    requires HeaderName(hdr) && HeaderName(dst) && Padded(pad, value, false)
    ensures Match(Str(dst + pad + value), Regex(accepts), hdr) <==>
            SameName(dst, hdr) && value != "" && accepts(value)
  {
    assert dst + pad + value == dst + (pad + value);
    NameAtFront(hdr, dst, pad + value);
    if SameName(dst, hdr) {
      assert (dst + (pad + value))[|hdr|..] == pad + value;
      PaddedContent(pad, value, false);
    }
  }

  /** The copy of a line is the new name, one space and the value without the spaces
      and tabs that were in front of it. */
  lemma CopiedLine(hdr: string, name: string, dst: string, pad: string, value: string, flags: int)
    requires HeaderName(hdr) && HeaderName(name) && Padded(pad, value, true)
    ensures CopyOf(Slot(Str(name + pad + value), flags), hdr, dst) ==
            if SameName(name, hdr) then [Slot(Str(dst + " " + value), 0)] else []
  {
    assert name + pad + value == name + (pad + value);
    NameAtFront(hdr, name, pad + value);
    if SameName(name, hdr) {
      assert (name + (pad + value))[|hdr|..] == pad + value;
      PaddedContent(pad, value, true);
    }
  }

  lemma Regroup(a: seq<Slot>, b: seq<Slot>, c: seq<Slot>)
    ensures a + (b + c) == a + b + c
  {
  }

  /** Removals and copies treat the two parts of a table one after the other. */
  lemma {:induction false} KeptJoin(a: seq<Slot>, b: seq<Slot>, re: Regex, hdr: string)
    ensures Kept(a + b, re, hdr) == Kept(a, re, hdr) + Kept(b, re, hdr)
    decreases |b|
  {
    if b == [] {
      assert a + b == a;
    } else {
      var n := |b| - 1;
      KeptJoin(a, b[..n], re, hdr);
      assert (a + b)[..|a + b| - 1] == a + b[..n] && (a + b)[|a + b| - 1] == b[n];
      Regroup(Kept(a, re, hdr), Kept(b[..n], re, hdr), Keep(b[n], re, hdr));
    }
  }

  lemma {:induction false} CopiesJoin(a: seq<Slot>, b: seq<Slot>, hdr: string, dst: string)
    ensures Copies(a + b, hdr, dst) == Copies(a, hdr, dst) + Copies(b, hdr, dst)
    decreases |b|
  {
    if b == [] {
      assert a + b == a;
    } else {
      var n := |b| - 1;
      CopiesJoin(a, b[..n], hdr, dst);
      assert (a + b)[..|a + b| - 1] == a + b[..n] && (a + b)[|a + b| - 1] == b[n];
      Regroup(Copies(a, hdr, dst), Copies(b[..n], hdr, dst), CopyOf(b[n], hdr, dst));
    }
  }

  function Min(a: nat, b: nat): nat {
    if a < b then a else b
  }

  /** As much of `s` as fits into `n` slots. */
  function Take(s: seq<Slot>, n: nat): (r: seq<Slot>)
    ensures |r| <= n && r <= s
  {
    if |s| <= n then s else s[..n]
  }

  /** Unless something was lost, the table `t` of `size` slots has got one line for
      each match among the first `k` lines of `src`, as far as they fit, and nothing
      else, or nothing else yet. */
  ghost predicate Copied(t: seq<Slot>, src: seq<Slot>, before: seq<Slot>, k: nat, hdr: string, dst: string, size: nat,
      exact: bool)
  {
    var c := Take(before + Copies(src[..Min(k, |src|)], hdr, dst), size);
    if exact || k <= |src| then t == c else c <= t
  }

  /** While copying a name onto itself in one table of `size` slots: until the table
      is full, a matching line still lies ahead. */
  ghost predicate Filling(e: seq<Slot>, k: nat, hdr: string, size: nat) {
    |e| >= size || exists i :: k <= i < |e| && Match(e[i].b, NoRegex, hdr)
  }

  /** A copy in progress, after `k` lines: `src` is still at the front of the table
      `e` walked over.  `own` says that the copy finds its own lines. */
  ghost predicate Walking(e: seq<Slot>, t: seq<Slot>, src: seq<Slot>, before: seq<Slot>, k: nat, hdr: string,
      dst: string, size: nat, own: bool, lost: bool)
  {
    && |before| <= size && src <= e
    && (!own ==> forall i :: |src| <= i < |e| ==> !Match(e[i].b, NoRegex, hdr))
    && (lost || (Copied(t, src, before, k, hdr, dst, size, !own) && (own ==> Filling(e, k, hdr, size))))
  }

  lemma FillStep(e: seq<Slot>, e': seq<Slot>, k: nat, hdr: string, dst: string, value: VclString, size: nat)
    requires Filling(e, k, hdr, size) && k < |e| && HeaderName(hdr) && HeaderName(dst) && SameName(dst, hdr)
    requires value.Str? <==> Match(e[k].b, NoRegex, hdr)
    requires e' == if value.Str? && |e| < size then e + [Slot(Str(Line(dst, value.s)), 0)] else e
    ensures Filling(e', k + 1, hdr, size)
  {
    if |e| < size {
      var i :| k <= i < |e| && Match(e[i].b, NoRegex, hdr);
      if value.Str? {
        AppendedMatches(hdr, dst, value.s);
        assert e'[|e|].b == Str(Line(dst, value.s));
      } else {
        assert i != k && e'[i] == e[i];
      }
    }
  }

  lemma TakeMore(s: seq<Slot>, x: Slot, size: nat)
    ensures Take(s + [x], size) == if |s| < size then Take(s, size) + [x] else Take(s, size)
  {
  }

  /** The line at `k` has been copied, if it matches and there is room. */
  lemma CopiedStep(t: seq<Slot>, t': seq<Slot>, src: seq<Slot>, before: seq<Slot>, k: nat, hdr: string, dst: string,
      size: nat, exact: bool, more: seq<Slot>)
    requires Copied(t, src, before, k, hdr, dst, size, exact) && |more| <= 1
    requires if k < |src| then more == CopyOf(src[k], hdr, dst) else exact ==> more == []
    requires t' == if |t| < size then t + more else t
    ensures Copied(t', src, before, k + 1, hdr, dst, size, exact)
  {
    if k < |src| {
      var c := before + Copies(src[..k], hdr, dst);
      CopiesSnoc(src, k, hdr, dst);
      assert before + (Copies(src[..k], hdr, dst) + more) == c + more;
      if more == [] {
        assert c + more == c && t + more == t;
      } else {
        TakeMore(c, more[0], size);
        assert more == [more[0]];
      }
    }
  }

  /** A match among the lines of `src` is one of its copies. */
  lemma {:induction false} HasCopy(src: seq<Slot>, k: nat, hdr: string, dst: string)
    requires k < |src| && Match(src[k].b, NoRegex, hdr)
    ensures Copies(src, hdr, dst) != []
  {
    if k < |src| - 1 {
      HasCopy(src[..|src| - 1], k, hdr, dst);
    }
  }

  /** One round at line `k`: its value, if it matches, is appended while there is room
      in the target and the workspace, and `e'` and `t'` are the tables afterwards. */
  predicate RoundOf(e: seq<Slot>, e': seq<Slot>, t: seq<Slot>, t': seq<Slot>, k: nat, hdr: string, dst: string,
      value: VclString, appended: bool, size: nat, one: bool, lost: bool)
  {
    && k < |e| && (value.Str? <==> Match(e[k].b, NoRegex, hdr))
    && CopyOf(e[k], hdr, dst) == ValueLine(dst, value)
    && e' == (if one then t' else e)
    && t' == (if appended then t + ValueLine(dst, value) else t)
    && (appended ==> value.Str? && |t| < size)
    && (value.Str? && !lost && |t| < size ==> appended)
  }

  /** One round keeps a copy on course: `e'` and `t'` are the tables after appending
      the value found at `k`, or losing it. */
  lemma WalkStep(e: seq<Slot>, e': seq<Slot>, t: seq<Slot>, t': seq<Slot>, src: seq<Slot>, before: seq<Slot>, k: nat,
      hdr: string, dst: string, value: VclString, appended: bool, size: nat, one: bool, own: bool,
      lost: bool, lost': bool)
    requires HeaderName(hdr) && HeaderName(dst) && (lost ==> lost') && (one ==> e == t)
    requires own == (one && SameName(dst, hdr) && Copies(src, hdr, dst) != [])
    requires Walking(e, t, src, before, k, hdr, dst, size, own, lost)
    requires RoundOf(e, e', t, t', k, hdr, dst, value, appended, size, one, lost')
    ensures Walking(e', t', src, before, k + 1, hdr, dst, size, own, lost')
  {
    if value.Str? {
      AppendedMatches(hdr, dst, value.s);
      assert !own ==> k < |src|;
      if k < |src| {
        assert src[k] == e[k];
        HasCopy(src, k, hdr, dst);
      }
    }
    if !lost' {
      assert k < |src| ==> src[k] == e[k];
      CopiedStep(t, t', src, before, k, hdr, dst, size, !own, ValueLine(dst, value));
      if own {
        FillStep(e, e', k, hdr, dst, value, size);
      }
    }
  }

  function ValueLine(dst: string, value: VclString): seq<Slot> {
    if value.Str? then [Slot(Str(Line(dst, value.s)), 0)] else []
  }

  lemma {:induction false} SomeCopy(s: seq<Slot>, hdr: string, dst: string)
    requires Copies(s, hdr, dst) != []
    ensures exists i :: 0 <= i < |s| && Match(s[i].b, NoRegex, hdr)
  {
    var n := |s| - 1;
    if !Match(s[n].b, NoRegex, hdr) {
      SomeCopy(s[..n], hdr, dst);
      var i :| 0 <= i < n && Match(s[..n][i].b, NoRegex, hdr);
      assert s[i] == s[..n][i];
    }
  }

  lemma WalkStarts(src: seq<Slot>, before: seq<Slot>, hdr: string, dst: string, size: nat, own: bool, lost: bool)
    requires own ==> Copies(src, hdr, dst) != []
    requires |before| <= size
    ensures Walking(src, before, src, before, 0, hdr, dst, size, own, lost)
  {
    if own {
      SomeCopy(src, hdr, dst);
    }
    assert src[..0] == [] && before + [] == before;
  }

  /** What a copy leaves, of a table that held `before` and `copies` to append. */
  ghost predicate CopyEnds(t: seq<Slot>, before: seq<Slot>, copies: seq<Slot>, size: nat, own: bool) {
    if own then |t| == size && Take(before + copies, size) <= t else t == Take(before + copies, size)
  }

  lemma WalkEnds(e: seq<Slot>, t: seq<Slot>, src: seq<Slot>, before: seq<Slot>, hdr: string, dst: string, size: nat,
      own: bool, lost: bool)
    requires Walking(e, t, src, before, |e|, hdr, dst, size, own, lost) && (own ==> e == t && |t| <= size)
    ensures !lost ==> CopyEnds(t, before, Copies(src, hdr, dst), size, own)
  {
    assert src[..|src|] == src;
  }

  /** So one line for each match, and nothing else, is what a copy leaves exactly when
      they fit and it does not find its own lines, or when they just fill the table. */
  lemma OneLineEach(t: seq<Slot>, before: seq<Slot>, copies: seq<Slot>, size: nat, own: bool)
    requires CopyEnds(t, before, copies, size, own) && (own ==> copies != [])
    ensures t == before + copies <==>
            |before + copies| <= size && (!own || |before + copies| == size)
  {
  }
}
