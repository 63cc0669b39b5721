/** Digests are byte strings compared with memcmp; the trees of this project keep
    them as numbers.  The two orders are the same. */
module DigestOrder {
  import S = ThrottleSystem

  type Byte = x: int | 0 <= x < 256

  function Power(n: nat): (r: int)
    ensures 0 < r
  {
    if n == 0 then 1 else 256 * Power(n - 1)
  }

  /** The big-endian number of a byte string. */
  function Number(s: seq<Byte>): (r: int)
    ensures 0 <= r < Power(|s|)
  {
    if s == [] then 0
    else
      Head(s[0], Power(|s| - 1), Number(s[1..]));
      s[0] * Power(|s| - 1) + Number(s[1..])
  }

  lemma Head(b: Byte, p: int, rest: int)
    requires 0 < p && 0 <= rest < p
    ensures 0 <= b * p + rest < 256 * p
  {
    assert b * p <= 255 * p;
  }

  /** memcmp: the sign of the first difference. */
  function Memcmp(a: seq<Byte>, b: seq<Byte>): int
    requires |a| == |b|
  {
    if a == [] then 0 else if a[0] != b[0] then a[0] - b[0] else Memcmp(a[1..], b[1..])
  }

  lemma Leading(x: Byte, y: Byte, p: int, r: int, q: int)
    requires x < y && 0 < p && 0 <= r < p && 0 <= q
    ensures x * p + r < y * p + q
  {
    assert (x + 1) * p <= y * p;
  }

  lemma {:induction false} MemcmpIsOrder(a: seq<Byte>, b: seq<Byte>)
    requires |a| == |b|
    ensures Memcmp(a, b) < 0 <==> Number(a) < Number(b)
    ensures Memcmp(a, b) == 0 <==> Number(a) == Number(b)
  {
    if a != [] {
      var p := Power(|a| - 1);
      var r, q := Number(a[1..]), Number(b[1..]);
      if a[0] < b[0] {
        Leading(a[0], b[0], p, r, q);
      } else if b[0] < a[0] {
        Leading(b[0], a[0], p, q, r);
      } else {
        MemcmpIsOrder(a[1..], b[1..]);
      }
    }
  }

  lemma Quotient(b: Byte, p: int, rest: int)
    requires 0 < p && 0 <= rest < p
    ensures (b * p + rest) / p == b
  {
    var q, m := (b * p + rest) / p, (b * p + rest) % p;
    Unique(b, rest, q, m, p);
  }

  lemma Unique(b: int, r: int, q: int, m: int, p: int)
    requires 0 <= r < p && 0 <= m < p && b * p + r == q * p + m
    ensures b == q
  {
    Multiples(b, q, p);
    Multiples(q, b, p);
  }

  lemma Multiples(a: int, b: int, p: int)
    requires 0 < p
    ensures a < b ==> a * p + p <= b * p
  {
    if a < b {
      assert (a + 1) * p <= b * p;
    }
  }

  /** The partition of a digest is its first byte, masked. */
  lemma PartOfFirstByte(digest: seq<Byte>)
    requires |digest| == 32
    ensures S.PartOf(Number(digest)) == digest[0] % S.N_PART
  {
    assert Power(31) == S.DIGEST_TAIL by { Power31(); }
    Quotient(digest[0], Power(31), Number(digest[1..]));
  }

  lemma Power31()
    ensures Power(31) == S.DIGEST_TAIL
  {
    assert Power(8) == 0x1_0000_0000_0000_0000;
    PowerAdd(8, 8);
    PowerAdd(16, 8);
    PowerAdd(24, 7);
  }

  lemma {:induction false} PowerAdd(m: nat, n: nat)
    ensures Power(m + n) == Power(m) * Power(n)
  {
    if n > 0 {
      PowerAdd(m, n - 1);
      Rearrange(Power(m), Power(n - 1));
    }
  }

  lemma Rearrange(a: int, b: int)
    ensures 256 * (a * b) == a * (256 * b)
  {
  }
}
