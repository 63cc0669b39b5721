/** The text of a Cookie header: the lenient parser and the printer. */
module CookieText {
  import opened Ascii
  import opened CookieStore

  function SkipSpace(s: string): (r: string)
    ensures r == [] || !IsSpace(r[0])
    ensures |r| <= |s|
  {
    if s != [] && IsSpace(s[0]) then SkipSpace(s[1..]) else s
  }

  /** The loop over isspace. */
  method SkipSpaces(s: string, from: nat) returns (p: nat)
    requires from <= |s|
    ensures from <= p <= |s| && SkipSpace(s[from..]) == s[p..]
  {
    p := from;
    while p < |s| && IsSpace(s[p])
      invariant from <= p <= |s| && SkipSpace(s[from..]) == SkipSpace(s[p..])
    {
      assert s[p..][1..] == s[p + 1..];
      p := p + 1;
    }
  }

  lemma {:induction false} FindShift(s: string, p: nat, from: nat, c: char)
    requires p <= from <= |s|
    ensures Find(s[p..], from - p, c) == Find(s, from, c) - p
    decreases |s| - from
  {
    if from < |s| && s[from] != c {
      FindShift(s, p, from + 1, c);
    }
  }

  /** The name and value pairs that the scanner cuts out of a header. */
  function Scan(s: string): seq<Pair>
    decreases |s|
  {
    var t := SkipSpace(s);
    var eq := Find(t, 0, '=');
    if s == [] || eq == |t| then []
    else
      var end := Find(t, eq + 1, ';');
      var p := Pair(t[..eq], t[eq + 1..end]);
      if end == |t| then [p] else [p] + Scan(t[end + 1..])
  }

  /** One round of the parser's scan, at places in the header: no name, or a pair
      and the text after it. */
  lemma {:induction false} ScanNothing(h: string, p: nat, q: nat)
    requires p <= q <= |h| && SkipSpace(h[p..]) == h[q..] && Find(h, q, '=') == |h|
    ensures Scan(h[p..]) == []
  {
    FindShift(h, q, q, '=');
  }

  lemma {:induction false} ScanPair(h: string, p: nat, q: nat, eq: nat, end: nat)
    requires p < |h| && p <= q <= eq < end <= |h| && SkipSpace(h[p..]) == h[q..]
    requires Find(h, q, '=') == eq && Find(h, eq + 1, ';') == end
    ensures Scan(h[p..]) != [] && Scan(h[p..])[0] == Pair(h[q..eq], h[eq + 1..end])
    ensures Scan(h[p..])[1..] == Scan(if end < |h| then h[end + 1..] else "")
  {
    FindShift(h, q, q, '=');
    FindShift(h, q, eq + 1, ';');
    Slices(h, q, eq, end);
    ScanFrom(h[p..], h[q..], eq - q, end - q, h[q..eq], h[eq + 1..end], if end < |h| then h[end + 1..] else "");
  }

  lemma {:induction false} ScanFrom(s: string, t: string, eq: nat, end: nat, name: string, value: string, rest: string)
    requires s != "" && SkipSpace(s) == t && Find(t, 0, '=') == eq < |t| && Find(t, eq + 1, ';') == end
    requires t[..eq] == name && t[eq + 1..end] == value && rest == if end < |t| then t[end + 1..] else ""
    ensures Scan(s) != [] && Scan(s)[0] == Pair(name, value)
    ensures Scan(s)[1..] == Scan(rest)
  {
    ConsParts(Pair(name, value), Scan(rest));
    if end == |t| {
      assert Scan(s) == [Pair(name, value)] && Scan(rest) == [];
    } else {
      assert Scan(s) == [Pair(name, value)] + Scan(rest);
    }
  }

  lemma ConsParts(p: Pair, ps: seq<Pair>)
    ensures ([p] + ps)[0] == p && ([p] + ps)[1..] == ps
  {
  }

  lemma {:induction false} Slices(h: string, q: nat, eq: nat, end: nat)
    requires q <= eq < end <= |h|
    ensures h[q..][..eq - q] == h[q..eq]
    ensures h[q..][eq - q + 1..end - q] == h[eq + 1..end]
    ensures end < |h| ==> h[q..][end - q + 1..] == h[end + 1..]
  {
  }

  lemma {:induction false} SkipPad(pad: string, text: string)
    requires (forall i :: 0 <= i < |pad| ==> IsSpace(pad[i])) && (text != "" ==> !IsSpace(text[0]))
    ensures SkipSpace(pad + text) == text
  {
    if pad == "" {
      assert pad + text == text;
    } else {
      SkipPad(pad[1..], text);
      assert (pad + text)[1..] == pad[1..] + text;
    }
  }

  /** Where the scanner cuts: space, a name up to the first `=`, and a value up to the
      next `;` or the end. */
  lemma {:induction false} ScanCuts(pad: string, name: string, value: string, rest: string)
    requires forall i :: 0 <= i < |pad| ==> IsSpace(pad[i])
    requires (forall i :: 0 <= i < |name| ==> name[i] != '=') && (name != "" ==> !IsSpace(name[0]))
    requires forall i :: 0 <= i < |value| ==> value[i] != ';'
    ensures Scan(pad + (name + "=" + value + (";" + rest))) == [Pair(name, value)] + Scan(rest)
    ensures Scan(pad + (name + "=" + value + "")) == [Pair(name, value)]
  {
    ScanCut(pad, name, value, ";" + rest, rest);
    ScanCut(pad, name, value, "", "");
    assert Scan("") == [] && [Pair(name, value)] + [] == [Pair(name, value)];
  }

  lemma {:induction false} ScanCut(pad: string, name: string, value: string, more: string, rest: string)
    requires forall i :: 0 <= i < |pad| ==> IsSpace(pad[i])
    requires (forall i :: 0 <= i < |name| ==> name[i] != '=') && (name != "" ==> !IsSpace(name[0]))
    requires forall i :: 0 <= i < |value| ==> value[i] != ';'
    requires more == (if more == "" then "" else ";" + rest) && (more == "" ==> rest == "")
    ensures Scan(pad + (name + "=" + value + more)) == [Pair(name, value)] + Scan(rest)
  {
    var t, end := name + "=" + value + more, |name| + 1 + |value|;
    CutSlices(name, value, more);
    CutsAt(t, name, value, more);
    SkipPad(pad, t);
    Behind(t, end, more, rest);
    ScanFrom(pad + t, t, |name|, end, name, value, rest);
    HeadTail(Scan(pad + t));
  }

  lemma {:induction false} CutSlices(name: string, value: string, more: string)
    ensures var t := name + "=" + value + more;
            var end := |name| + 1 + |value|;
            t[..|name|] == name && t[|name|] == '=' && t[|name| + 1..end] == value && t[end..] == more
            && |t| == end + |more| && t[0] == if name == "" then '=' else name[0]
  {
  }

  lemma {:induction false} Behind(t: string, end: nat, more: string, rest: string)
    requires end <= |t| && t[end..] == more && (more != "" ==> more == ";" + rest)
    ensures more != "" ==> t[end + 1..] == rest
  {
    if more != "" {
      assert more[1..] == rest && t[end..][1..] == t[end + 1..];
    }
  }

  /** A text whose parts are free of the separators is cut between them. */
  lemma {:induction false} CutsAt(t: string, name: string, value: string, more: string)
    requires var end := |name| + 1 + |value|;
             && end <= |t| && t[..|name|] == name && t[|name|] == '='
             && t[|name| + 1..end] == value && t[end..] == more
    requires forall i :: 0 <= i < |name| ==> name[i] != '='
    requires (forall i :: 0 <= i < |value| ==> value[i] != ';') && (more != "" ==> more[0] == ';')
    ensures Find(t, 0, '=') == |name| && Find(t, |name| + 1, ';') == |name| + 1 + |value|
  {
    var end := |name| + 1 + |value|;
    FindIs(t, 0, '=', |name|);
    forall i | |name| < i < end ensures t[i] != ';' {
      assert t[i] == value[i - |name| - 1];
    }
    FindIs(t, |name| + 1, ';', end);
  }

  lemma {:induction false} FindIs(s: string, from: nat, c: char, at: nat)
    requires from <= at <= |s| && (at < |s| ==> s[at] == c)
    requires forall i :: from <= i < at ==> s[i] != c
    ensures Find(s, from, c) == at
  {
  }

  /** And on a text without an `=`. */
  lemma {:induction false} ScanNothingLeft(s: string)
    requires forall i :: 0 <= i < |s| ==> s[i] != '='
    ensures Scan(s) == []
  {
    SkipLacks(s, '=');
    FindIs(SkipSpace(s), 0, '=', |SkipSpace(s)|);
  }

  lemma {:induction false} SkipLacks(s: string, c: char)
    requires forall i :: 0 <= i < |s| ==> s[i] != c
    ensures forall i :: 0 <= i < |SkipSpace(s)| ==> SkipSpace(s)[i] != c
  {
    if s != "" && IsSpace(s[0]) {
      SkipLacks(s[1..], c);
    }
  }

  function Parse(s: seq<Pair>, header: string): seq<Pair> {
    if header == "" then s else SetAll([], Scan(header))
  }

  /** The store is documented to be cleaned before a header is parsed.  It is, but for
      an empty header: the cookies of the header alone are what a parse leaves exactly
      when there is something to parse or nothing to clean. */
  lemma {:induction false} ParseCleans(s: seq<Pair>, header: string)
    ensures Parse(s, header) == SetAll([], Scan(header)) <==> header != "" || s == []
    ensures Parse([Pair("a", "1")], "") == [Pair("a", "1")] && SetAll([], Scan("")) == []
  {
  }

  function Field(p: Pair): string {
    p.name + "=" + p.value + ";"
  }

  function PrintRest(s: seq<Pair>): string {
    if s == [] then "" else " " + (Field(s[0]) + PrintRest(s[1..]))
  }

  /** get_string: `name=value;` for each cookie, with a space between. */
  function Print(s: seq<Pair>): string {
    if s == [] then "" else Field(s[0]) + PrintRest(s[1..])
  }

  /** Where the i-th field begins in the printed text. */
  function FieldStart(s: seq<Pair>, i: nat): nat
    requires i <= |s|
  {
    if i == 0 then 0 else FieldStart(s, i - 1) + |s[i - 1].name| + |s[i - 1].value| + 3
  }

  /** The text up to the i-th field, from the left. */
  lemma {:induction false} PrintSnoc(s: seq<Pair>, p: Pair)
    ensures Print(s + [p]) == if s == [] then Field(p) else Print(s) + " " + Field(p)
  {
    if s == [] {
      assert ([p])[1..] == [] && [] + [p] == [p];
      assert Field(p) + "" == Field(p);
    } else {
      PrintRestSnoc(s[1..], p);
      assert (s + [p])[1..] == s[1..] + [p];
      assert Field(s[0]) + (PrintRest(s[1..]) + " " + Field(p)) == Field(s[0]) + PrintRest(s[1..]) + " " + Field(p);
    }
  }

  lemma {:induction false} PrintRestSnoc(s: seq<Pair>, p: Pair)
    ensures PrintRest(s + [p]) == PrintRest(s) + " " + Field(p)
  {
    if s == [] {
      assert [] + [p] == [p] && [p][1..] == [];
      assert " " + (Field(p) + "") == "" + " " + Field(p);
    } else {
      assert (s + [p])[1..] == s[1..] + [p];
      PrintRestSnoc(s[1..], p);
      Regroup("", " ", Field(s[0]), PrintRest(s[1..]) + " " + Field(p));
      assert " " + (Field(s[0]) + (PrintRest(s[1..]) + " " + Field(p)))
          == " " + (Field(s[0]) + PrintRest(s[1..])) + " " + Field(p);
    }
  }

  lemma {:induction false} PrintLength(s: seq<Pair>)
    ensures |Print(s)| == if s == [] then 0 else FieldStart(s, |s|) - 1
  {
    if s != [] {
      var t, p := s[..|s| - 1], s[|s| - 1];
      assert s == t + [p];
      PrintSnoc(t, p);
      PrintLength(t);
      StartsSame(t, p, |t|);
    }
  }

  lemma {:induction false} StartsSame(s: seq<Pair>, p: Pair, i: nat)
    requires i <= |s|
    ensures FieldStart(s + [p], i) == FieldStart(s, i)
  {
    if i != 0 {
      StartsSame(s, p, i - 1);
    }
  }

  /** `name=value;` stands in the text from `from` on, behind a space if it is not at
      the front. */
  predicate FieldAt(text: string, from: nat, p: Pair) {
    && from + |p.name| + |p.value| + 2 <= |text|
    && text[from..][..|p.name| + |p.value| + 2] == p.name + "=" + p.value + ";"
    && (0 < from ==> text[from - 1] == ' ')
  }

  lemma {:induction false} FieldAtMore(text: string, more: string, from: nat, p: Pair)
    requires FieldAt(text, from, p)
    ensures FieldAt(text + " " + more, from, p)
  {
    assert (text + " " + more)[from..][..|p.name| + |p.value| + 2] == text[from..][..|p.name| + |p.value| + 2];
  }

  lemma {:induction false} FieldAtEnd(text: string, p: Pair)
    ensures |Field(p)| == |p.name| + |p.value| + 2
    ensures FieldAt(Field(p), 0, p) && FieldAt(text + " " + Field(p), |text| + 1, p)
  {
    assert (text + " " + Field(p))[|text| + 1..] == Field(p);
    assert Field(p)[0..] == Field(p) == Field(p)[..|Field(p)|];
  }

  /** Every printed field stands where the ones before it end, with one space before
      it unless it is the first; and the text ends with the last. */
  lemma {:induction false} PrintAt(s: seq<Pair>, i: nat)
    requires i < |s|
    ensures FieldAt(Print(s), FieldStart(s, i), s[i])
    ensures |Print(s)| == FieldStart(s, |s|) - 1
    decreases |s|
  {
    PrintLength(s);
    var t, p := s[..|s| - 1], s[|s| - 1];
    assert s == t + [p];
    PrintSnoc(t, p);
    StartsSame(t, p, i);
    if i < |t| {
      PrintAt(t, i);
      FieldAtMore(Print(t), Field(p), FieldStart(t, i), s[i]);
    } else {
      PrintLength(t);
      FieldAtEnd(Print(t), p);
    }
  }

  /** Halfway through get_string: `output` is the text of the first `i` cookies. */
  ghost predicate Printing(s: seq<Pair>, i: nat, output: string) {
    i <= |s| && if i == 0 then output == "" else Print(s) == output + PrintRest(s[i..])
  }

  lemma {:induction false} PrintNext(s: seq<Pair>, i: nat, output: string)
    requires Printing(s, i, output) && i < |s|
    ensures Printing(s, i + 1, if i == 0 then Field(s[0]) else output + " " + Field(s[i]))
  {
    assert s[i..][1..] == s[i + 1..];
    Regroup(output, " ", Field(s[i]), PrintRest(s[i + 1..]));
  }

  lemma {:induction false} PrintDone(s: seq<Pair>, output: string)
    requires Printing(s, |s|, output)
    ensures output == Print(s)
  {
    assert s[|s|..] == [] && output + "" == output;
  }

  lemma Regroup(a: string, b: string, c: string, d: string)
    ensures a + (b + (c + d)) == a + b + c + d
  {
  }

  /** A pair that the parser can give. */
  ghost predicate Clean(p: Pair) {
    && (forall i :: 0 <= i < |p.name| ==> p.name[i] != '=')
    && (p.name != "" ==> !IsSpace(p.name[0]))
    && (forall i :: 0 <= i < |p.value| ==> p.value[i] != ';')
  }

  ghost predicate AllClean(s: seq<Pair>) {
    forall i :: 0 <= i < |s| ==> Clean(s[i])
  }

  lemma {:induction false} ScanIsClean(s: string)
    ensures AllClean(Scan(s))
    decreases |s|
  {
    var t := SkipSpace(s);
    var eq := Find(t, 0, '=');
    if s != [] && eq < |t| {
      var end := Find(t, eq + 1, ';');
      var rest := if end < |t| then t[end + 1..] else "";
      ScanFrom(s, t, eq, end, t[..eq], t[eq + 1..end], rest);
      assert Clean(Pair(t[..eq], t[eq + 1..end]));
      ScanIsClean(rest);
      AllCleanCons(Scan(s));
    }
  }

  lemma {:induction false} AllCleanCons(ps: seq<Pair>)
    requires ps != [] && Clean(ps[0]) && AllClean(ps[1..])
    ensures AllClean(ps)
  {
    assert forall i :: 0 < i < |ps| ==> ps[i] == ps[1..][i - 1];
  }

  lemma {:induction false} SetAllIsClean(s: seq<Pair>, ps: seq<Pair>)
    requires AllClean(s) && AllClean(ps)
    ensures AllClean(SetAll(s, ps))
    decreases |ps|
  {
    if ps != [] {
      SetAllIsClean(Set(s, ps[0].name, ps[0].value), ps[1..]);
    }
  }

  /** One printed pair scans back, with or without the space before it. */
  lemma {:induction false} ScanPrinted(p: Pair, rest: string)
    requires Clean(p) && p.name != ""
    ensures Scan(Field(p) + rest) == [p] + Scan(rest)
    ensures Scan(" " + (Field(p) + rest)) == [p] + Scan(rest)
  {
    var t := p.name + "=" + p.value + (";" + rest);
    assert Field(p) + rest == t && "" + t == t;
    ScanCut("", p.name, p.value, ";" + rest, rest);
    ScanCut(" ", p.name, p.value, ";" + rest, rest);
  }

  lemma {:induction false} HeadTail(ps: seq<Pair>)
    requires ps != []
    ensures ps == [ps[0]] + ps[1..]
  {
  }

  lemma {:induction false} ScanPrintedRest(s: seq<Pair>)
    requires AllClean(s) && forall i :: 0 <= i < |s| ==> s[i].name != ""
    ensures Scan(PrintRest(s)) == s
  {
    if s != [] {
      ScanPrintedRest(s[1..]);
      ScanPrinted(s[0], PrintRest(s[1..]));
      HeadTail(s);
    }
  }

  lemma {:induction false} ScanPrint(s: seq<Pair>)
    requires AllClean(s) && forall i :: 0 <= i < |s| ==> s[i].name != ""
    ensures Scan(Print(s)) == s
  {
    if s != [] {
      ScanPrintedRest(s[1..]);
      ScanPrinted(s[0], PrintRest(s[1..]));
      HeadTail(s);
    }
  }

  /** Setting the pairs of a store one by one rebuilds it. */
  lemma {:induction false} SetAllRebuilds(a: seq<Pair>, b: seq<Pair>)
    requires Stored(a + b)
    ensures SetAll(a, b) == a + b
    decreases |b|
  {
    if b != [] {
      var s := a + b;
      assert s[|a|] == b[0];
      assert forall i :: 0 <= i < |a| ==> s[i] == a[i];
      assert Set(a, b[0].name, b[0].value) == a + [b[0]];
      assert a + [b[0]] + b[1..] == s;
      SetAllRebuilds(a + [b[0]], b[1..]);
    } else {
      assert a + b == a;
    }
  }

  /** Exactly the stores that hold what a parser can give survive printing and
      parsing again. */
  lemma {:induction false} RoundTripExactly(s: seq<Pair>)
    requires Stored(s)
    ensures Parse(s, Print(s)) == s <==> AllClean(s)
  {
    if AllClean(s) {
      ScanPrint(s);
      assert [] + s == s;
      SetAllRebuilds([], s);
    }
    if Print(s) != "" {
      ScanIsClean(Print(s));
      SetAllIsClean([], Scan(Print(s)));
    }
  }

  /** Any nonempty header: printing what was parsed and parsing it again gives the
      same ordered names and values. */
  lemma {:induction false} RoundTrip(before: seq<Pair>, header: string)
    requires header != ""
    ensures var r := Parse(before, header); Stored(r) && AllClean(r) && Parse(r, Print(r)) == r
  {
    ScanIsClean(header);
    SetAllIsClean([], Scan(header));
    SetAllGet([], Scan(header), "");
    RoundTripExactly(Parse(before, header));
  }

  /** What parsing means: each name at its first effective place, with its last
      nonempty value. */
  lemma {:induction false} ParseMeans(before: seq<Pair>, header: string, name: string)
    requires header != ""
    ensures Names(Parse(before, header)) == FirstNames([], Effective(Scan(header)))
    ensures Get(Parse(before, header), name) == LastValue(Effective(Scan(header)), name, "")
  {
    SetAllNames([], Scan(header));
    SetAllGet([], Scan(header), name);
  }
}
