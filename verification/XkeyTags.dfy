/** Which tags the headers of an object carry. */
module XkeyTags {
  import opened Ascii
  import opened XkeyTokens

  const XKEY := "xkey:"
  const HASHTWO := "X-HashTwo:"

  predicate TagHeader(h: string) {
    HasPrefix(h, XKEY) || HasPrefix(h, HASHTWO)
  }

  /** Where the value of a tag header begins: after its first colon. */
  function ValueAt(h: string): (r: nat)
    requires TagHeader(h)
    ensures r <= |h|
    ensures r == if HasPrefix(h, XKEY) then |XKEY| else |HASHTWO|
  {
    PrefixHasColon(h);
    Find(h, 0, ':') + 1
  }

  lemma {:induction false} PrefixHasColon(h: string)
    requires TagHeader(h)
    ensures Find(h, 0, ':') == (if HasPrefix(h, XKEY) then |XKEY| else |HASHTWO|) - 1
  {
    var p := if HasPrefix(h, XKEY) then XKEY else HASHTWO;
    var k := |p| - 1;
    assert Lower(h[k]) == Lower(p[k]) == ':';
    forall i | 0 <= i < k ensures h[i] != ':' {
      assert Lower(h[i]) == Lower(p[i]);
      assert p[i] != ':';
    }
  }

  function TagsIn(h: string): seq<string> {
    if TagHeader(h) then Tokens(h[ValueAt(h)..]) else []
  }

  /** A header carries the tokens of its value when its name is one of the two, in any
      letter case, and none otherwise. */
  lemma {:induction false} TagsOfNamed(name: string, value: string)
    requires HeaderName(name)
    ensures TagsIn(name + value) == if SameName(name, XKEY) || SameName(name, HASHTWO) then Tokens(value) else []
  {
    var h := name + value;
    NameAtFront(XKEY, name, value);
    NameAtFront(HASHTWO, name, value);
    if TagHeader(h) {
      assert h[|name|..] == value;
    }
  }

  lemma {:induction false} TagsOfNameless(h: string)
    requires forall i :: 0 <= i < |h| ==> h[i] != ':'
    ensures TagsIn(h) == []
  {
    if TagHeader(h) {
      PrefixHasColon(h);
    }
  }

  /** The tags of an object, in header order. */
  function TagsOf(headers: seq<string>): seq<string> {
    if headers == [] then []
    else TagsIn(headers[0]) + TagsOf(headers[1..])
  }

  lemma {:induction false} Regroup(a: seq<string>, b: seq<string>, c: seq<string>)
    ensures a + (b + c) == a + b + c
  {
  }

  lemma {:induction false} TagsOfJoin(a: seq<string>, b: seq<string>)
    ensures TagsOf(a + b) == TagsOf(a) + TagsOf(b)
  {
    if a == [] {
      assert a + b == b;
    } else {
      TagsOfJoin(a[1..], b);
      assert (a + b)[0] == a[0] && (a + b)[1..] == a[1..] + b;
      Regroup(TagsIn(a[0]), TagsOf(a[1..]), TagsOf(b));
    }
  }

  function Digests(tokens: seq<string>, hash: string -> int): (r: seq<int>)
    ensures |r| == |tokens|
  {
    seq(|tokens|, i requires 0 <= i < |tokens| => hash(tokens[i]))
  }

  lemma {:induction false} TagsOfStep(headers: seq<string>, k: nat, done: seq<string>)
    requires k < |headers| && TagsOf(headers) == done + TagsOf(headers[k..])
    ensures TagHeader(headers[k]) ==> Find(headers[k], 0, ':') < |headers[k]|
    ensures TagsOf(headers) == done + TagsIn(headers[k]) + TagsOf(headers[k + 1..])
    ensures done + [] == done
  {
    if TagHeader(headers[k]) {
      PrefixHasColon(headers[k]);
    }
    assert headers[k..][1..] == headers[k + 1..];
  }
}
