/** The C library's view of characters, as far as the modules use it. */
module Ascii {

  function Lower(c: char): char {
    if 'A' <= c <= 'Z' then c - 'A' + 'a' else c
  }

  /** Two characters are equal up to case exactly when they are equal or the two forms
      of one of the 26 letters. */
  lemma SameLetter(c: char, d: char)
    ensures Lower(c) == Lower(d) <==>
            || c == d
            || ('A' <= c <= 'Z' && d as int - c as int == 32)
            || ('A' <= d <= 'Z' && c as int - d as int == 32)
  {
    assert 'a' as int - 'A' as int == 32;
  }

  /** strncasecmp(s, p, |p|) == 0. */
  predicate HasPrefix(s: string, p: string) {
    |p| <= |s| && forall i :: 0 <= i < |p| ==> Lower(s[i]) == Lower(p[i])
  }

  /** isspace(). */
  predicate IsSpace(c: char) {
    c == ' ' || c == '\t' || c == '\n' || c == '\r' || c as int == 11 || c as int == 12
  }

  /** The codes of the six characters that count as space. */
  lemma SpaceCodes(c: char)
    ensures IsSpace(c) <==> 9 <= c as int <= 13 || c as int == 32
  {
  }

  /** strchr: where `c` first occurs in `s` at or after `from`, or |s|. */
  function Find(s: string, from: nat, c: char): (r: nat)
    requires from <= |s|
    ensures from <= r <= |s| && (r < |s| ==> s[r] == c)
    ensures forall i :: from <= i < r ==> s[i] != c
    decreases |s| - from
  {
    if from == |s| || s[from] == c then from else Find(s, from + 1, c)
  }

  /** A header name with its colon, as VCL writes it. */
  predicate HeaderName(h: string) {
    h != "" && h[|h| - 1] == ':' && forall i :: 0 <= i < |h| - 1 ==> h[i] != ':'
  }

  predicate SameName(a: string, b: string) {
    |a| == |b| && HasPrefix(a, b)
  }

  /** A line begins with `hdr` exactly when the name it was made with is `hdr` up to
      case, whatever follows. */
  lemma NameAtFront(hdr: string, dst: string, rest: string)
    requires HeaderName(hdr) && HeaderName(dst)
    ensures HasPrefix(dst + rest, hdr) <==> SameName(dst, hdr)
  {
    var line := dst + rest;
    assert forall i :: 0 <= i < |dst| ==> line[i] == dst[i];
    if HasPrefix(line, hdr) {
      var k := |hdr| - 1;
      assert Lower(line[k]) == Lower(hdr[k]);
      if |dst| <= |hdr| {
        assert Lower(line[|dst| - 1]) == Lower(hdr[|dst| - 1]);
      }
    }
  }
}
