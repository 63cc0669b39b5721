/** From the arguments of a call to its digest, and from the digest back to the
    rule of its bucket. */
module ThrottleDigest {
  import T = TokenBucket
  import opened DigestOrder

  /** What do_digest feeds into SHA256: the key and three fields of eight bytes, a
      VCL_INT and two VCL_DURATIONs as they lie in memory. */
  datatype Request = Request(key: seq<Byte>, limit: seq<Byte>, period: seq<Byte>, block: seq<Byte>)

  predicate FixedWidth(q: Request) {
    |q.limit| == 8 && |q.period| == 8 && |q.block| == 8
  }

  function Message(q: Request): seq<Byte> {
    q.key + q.limit + q.period + q.block
  }

  /** Although nothing separates the key from the fields, no two requests are
      hashed as the same message. */
  lemma MessageInjective(q: Request, q': Request)
    requires FixedWidth(q) && FixedWidth(q') && Message(q) == Message(q')
    ensures q == q'
  {
    var m, n := Message(q), |q.key|;
    assert |m| == n + 24 && |q'.key| == n;
    assert m[..n] == q.key && m[..n] == q'.key;
    assert m[n..n + 8] == q.limit && m[n..n + 8] == q'.limit;
    assert m[n + 8..n + 16] == q.period && m[n + 8..n + 16] == q'.period;
    assert m[n + 16..] == q.block && m[n + 16..] == q'.block;
  }

  // ---------- what the fields mean ----------

  /** The number in a field, least significant byte first. */
  function Word(field: seq<Byte>): (r: nat) {
    if field == [] then 0 else field[0] + 256 * Word(field[1..])
  }

  const SIGN := 0x8000_0000_0000_0000
  const HIDDEN := 0x10_0000_0000_0000

  /** Two's complement. */
  function Integer(field: seq<Byte>): int {
    if Word(field) < SIGN then Word(field) else Word(field) - 2 * SIGN
  }

  function Scaled(x: real, e: int): real
    decreases if e < 0 then -e else e
  {
    if e == 0 then x else if 0 < e then Scaled(2.0 * x, e - 1) else Scaled(x / 2.0, e + 1)
  }

  /** A binary double: sign, eleven bits of exponent, fifty-two of fraction. */
  function Double(field: seq<Byte>): real {
    var w := Word(field);
    var exponent, fraction := (w / HIDDEN) % 2048, w % HIDDEN;
    var size :=
      if exponent == 0 then Scaled(fraction as real, -1074) else Scaled((HIDDEN + fraction) as real, exponent - 1075);
    if w < SIGN then size else -size
  }

  function RuleIn(q: Request): T.Rule {
    T.Rule(Integer(q.limit), Double(q.period), Double(q.block))
  }

  // ---------- one bucket, one request ----------

  /** No two of the messages that a throttle has been sent have the same digest. */
  ghost predicate CollisionFree(hash: seq<Byte> -> int, sent: set<seq<Byte>>) {
    forall m, m' :: m in sent && m' in sent && hash(m) == hash(m') ==> m == m'
  }

  ghost predicate Sent(sent: set<seq<Byte>>, q: Request) {
    FixedWidth(q) && Message(q) in sent
  }

  /** The documented identity of a bucket: the four arguments. */
  lemma BucketIsRequest(hash: seq<Byte> -> int, sent: set<seq<Byte>>, q: Request, q': Request)
    requires CollisionFree(hash, sent) && Sent(sent, q) && Sent(sent, q')
    ensures hash(Message(q)) == hash(Message(q')) <==> q == q'
  {
    if hash(Message(q)) == hash(Message(q')) {
      MessageInjective(q, q');
    }
  }

  ghost predicate MadeFrom(hash: seq<Byte> -> int, sent: set<seq<Byte>>, d: int, q: Request) {
    Sent(sent, q) && hash(Message(q)) == d
  }

  /** The rule of a digest that some call has made. */
  ghost function RuleOf(hash: seq<Byte> -> int, sent: set<seq<Byte>>, d: int): T.Rule {
    if exists q :: MadeFrom(hash, sent, d, q) then
      var q :| MadeFrom(hash, sent, d, q); RuleIn(q)
    else T.Rule(0, 1.0, 0.0)
  }

  /** So the digest determines the rule of its bucket: the one every call on it passes. */
  lemma RuleOfDigest(hash: seq<Byte> -> int, sent: set<seq<Byte>>, q: Request)
    requires CollisionFree(hash, sent) && Sent(sent, q)
    ensures RuleOf(hash, sent, hash(Message(q))) == RuleIn(q)
  {
    var d := hash(Message(q));
    assert MadeFrom(hash, sent, d, q);
    forall p | MadeFrom(hash, sent, d, p) ensures p == q {
      MessageInjective(p, q);
    }
  }

  /** There are hashes that never collide: the number of a message with a leading one. */
  function Tagged(m: seq<Byte>): int {
    Number([1] + m)
  }

  lemma {:induction false} TaggedSize(m: seq<Byte>)
    ensures Power(|m|) <= Tagged(m) < Power(|m| + 1)
  {
    var t, p := [1] + m, Power(|m|);
    assert t[1..] == m;
    assert Number(t) == t[0] * p + Number(m);
    assert t[0] * p == p;
    assert Power(|m| + 1) == 256 * p;
  }

  lemma {:induction false} PowerGrows(m: nat, n: nat)
    requires m <= n
    ensures Power(m) <= Power(n)
    decreases n
  {
    if m < n {
      PowerGrows(m, n - 1);
    }
  }

  lemma {:induction false} NumberInjective(a: seq<Byte>, b: seq<Byte>)
    requires |a| == |b| && Number(a) == Number(b)
    ensures a == b
  {
    MemcmpIsOrder(a, b);
    MemcmpZero(a, b);
  }

  lemma {:induction false} MemcmpZero(a: seq<Byte>, b: seq<Byte>)
    requires |a| == |b| && Memcmp(a, b) == 0
    ensures a == b
  {
    if a != [] {
      MemcmpZero(a[1..], b[1..]);
      assert a == [a[0]] + a[1..] && b == [b[0]] + b[1..];
    }
  }

  lemma CollisionFreeExists(sent: set<seq<Byte>>)
    ensures CollisionFree(Tagged, sent)
  {
    forall m, m' | m in sent && m' in sent && Tagged(m) == Tagged(m') ensures m == m' {
      TaggedSize(m);
      TaggedSize(m');
      if |m| < |m'| {
        PowerGrows(|m| + 1, |m'|);
      } else if |m'| < |m| {
        PowerGrows(|m'| + 1, |m|);
      } else {
        NumberInjective([1] + m, [1] + m');
        assert m == ([1] + m)[1..] && m' == ([1] + m')[1..];
      }
    }
  }
}
