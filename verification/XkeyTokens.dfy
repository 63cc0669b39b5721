/** Splitting a header value or a purge argument into keys at spaces and tabs. */
module XkeyTokens {

  /** isblank(). */
  predicate IsBlank(c: char) {
    c == ' ' || c == '\t'
  }

  predicate BlankFree(s: string) {
    forall i :: 0 <= i < |s| ==> !IsBlank(s[i])
  }

  /** The maximal blank-free pieces of `s`, left to right: `open` is the piece
      that the characters before `s` have begun. */
  function Split(open: string, s: string): seq<string>
    decreases |s|
  {
    if s == [] then (if open == [] then [] else [open])
    else if IsBlank(s[0]) then (if open == [] then [] else [open]) + Split([], s[1..])
    else Split(open + [s[0]], s[1..])
  }

  function Tokens(s: string): seq<string> {
    Split([], s)
  }

  lemma {:induction false} SplitRun(open: string, run: string, s: string)
    requires BlankFree(run)
    ensures Split(open, run + s) == Split(open + run, s)
    decreases |run|
  {
    if run == [] {
      assert run + s == s && open + run == open;
    } else {
      assert (run + s)[1..] == run[1..] + s;
      SplitRun(open + [run[0]], run[1..], s);
      assert open + [run[0]] + run[1..] == open + run;
    }
  }

  lemma {:induction false} SplitBlanks(blanks: string, s: string)
    requires forall i :: 0 <= i < |blanks| ==> IsBlank(blanks[i])
    ensures Split([], blanks + s) == Split([], s)
    decreases |blanks|
  {
    if blanks == [] {
      assert blanks + s == s;
    } else {
      assert (blanks + s)[1..] == blanks[1..] + s;
      SplitBlanks(blanks[1..], s);
    }
  }

  /** A blank between two strings keeps their tokens apart. */
  lemma {:induction false} TokensJoin(open: string, a: string, blank: char, b: string)
    requires IsBlank(blank)
    ensures Split(open, a + [blank] + b) == Split(open, a) + Tokens(b)
    decreases |a|
  {
    var s := a + [blank] + b;
    if a == [] {
      assert s[1..] == b;
    } else {
      assert s[1..] == a[1..] + [blank] + b;
      if IsBlank(a[0]) {
        TokensJoin([], a[1..], blank, b);
      } else {
        TokensJoin(open + [a[0]], a[1..], blank, b);
      }
    }
  }

  /** A text without a blank is one token, unless it is empty. */
  lemma {:induction false} TokenAlone(s: string)
    requires BlankFree(s)
    ensures Tokens(s) == if s == "" then [] else [s]
  {
    SplitRun([], s, []);
    assert s + [] == s && [] + s == s;
  }

  lemma {:induction false} TokensAreBlankFree(open: string, s: string)
    requires BlankFree(open)
    ensures forall t :: t in Split(open, s) ==> t != [] && BlankFree(t)
    decreases |s|
  {
    if s != [] {
      if IsBlank(s[0]) {
        TokensAreBlankFree([], s[1..]);
      } else {
        TokensAreBlankFree(open + [s[0]], s[1..]);
      }
    }
  }

  /** xkey_tok: `b` and `e` delimit the next token at or after `from`. */
  method Tok(s: string, from: nat) returns (found: bool, b: nat, e: nat)
    requires from <= |s|
    ensures from <= b <= e <= |s| && (found <==> b < e)
    ensures Tokens(s[from..]) == if found then [s[b..e]] + Tokens(s[e..]) else []
  {
    b := from;
    while b < |s| && IsBlank(s[b])
      invariant from <= b <= |s|
      invariant forall i :: from <= i < b ==> IsBlank(s[i])
    {
      b := b + 1;
    }
    e := b;
    while e < |s| && !IsBlank(s[e])
      invariant b <= e <= |s|
      invariant forall i :: b <= i < e ==> !IsBlank(s[i])
    {
      e := e + 1;
    }
    found := b < e;
    assert s[from..] == s[from..b] + s[b..];
    SplitBlanks(s[from..b], s[b..]);
    assert s[b..] == s[b..e] + s[e..];
    SplitRun([], s[b..e], s[e..]);
    assert [] + s[b..e] == s[b..e];
    if found && e < |s| {
      assert s[e..][1..] == s[e + 1..];
    }
  }

  /** A loop over the tokens of `s` that has taken `done` and is at s[b..e]. */
  ghost predicate Reading(s: string, done: seq<string>, found: bool, b: nat, e: nat) {
    && b <= e <= |s| && (found <==> b < e)
    && Tokens(s) == if found then done + [s[b..e]] + Tokens(s[e..]) else done
  }

  lemma {:induction false} Regroup(a: seq<string>, x: string, r: seq<string>)
    ensures a + ([x] + r) == a + [x] + r
    ensures a + [] == a
  {
  }

  /** The first round of such a loop. */
  method FirstTok(s: string) returns (found: bool, b: nat, e: nat)
    ensures Reading(s, [], found, b, e)
  {
    found, b, e := Tok(s, 0);
    assert s[0..] == s;
    if found {
      assert [] + [s[b..e]] + Tokens(s[e..]) == [s[b..e]] + Tokens(s[e..]);
    }
  }

  /** The next round, once the token at hand is done. */
  method NextTok(s: string, ghost done: seq<string>, b: nat, e: nat) returns (found: bool, b': nat, e': nat)
    requires Reading(s, done, true, b, e)
    ensures Reading(s, done + [s[b..e]], found, b', e') && (found ==> e < e')
  {
    found, b', e' := Tok(s, e);
    if found {
      Regroup(done + [s[b..e]], s[b'..e'], Tokens(s[e'..]));
    } else {
      Regroup(done + [s[b..e]], "", []);
    }
  }
}
