/** One token bucket of the throttle, as a value, and what holds over whole runs
    of the calls that touch it.  Time and durations are reals, the cast to long
    is the floor of a nonnegative real. */
module TokenBucket {

  datatype Option<T> = None | Some(value: T)

  /** The arguments that, with the key, identify a bucket. */
  datatype Rule = Rule(limit: int, period: real, block: real)

  predicate Sane(r: Rule) {
    0 <= r.limit && 0.0 < r.period
  }

  datatype Bucket = Bucket(tokens: int, lastUsed: real, deadline: real, capacity: int, period: real)

  /** What every call on a bucket may rely on at time `now`. */
  predicate Fine(b: Bucket, now: real) {
    0 <= b.tokens <= b.capacity && 0.0 < b.period && b.lastUsed <= now
  }

  function Alloc(r: Rule, now: real): Bucket {
    Bucket(r.limit, now, 0.0, r.limit, r.period)
  }

  /** Tokens earned over `dt`, before rounding down. */
  function Credit(capacity: int, period: real, dt: real): real
    requires 0.0 < period
  {
    (dt / period) * capacity as real
  }

  function Refill(b: Bucket, now: real): int
    requires Fine(b, now)
  {
    var t := b.tokens + Credit(b.capacity, b.period, now - b.lastUsed).Floor;
    if t > b.capacity then b.capacity else t
  }

  /** is_denied on an existing bucket: the bucket afterwards and the answer. */
  function Deny(b: Bucket, block: real, now: real): (Bucket, bool)
    requires Fine(b, now)
  {
    var t := Refill(b, now);
    var blocked := 0.0 < block && now < b.deadline;
    var ret := !(t > 0 && !blocked);
    (Bucket(if t > 0 then t - 1 else t,
            if blocked || t > 0 then now else b.lastUsed,
            if 0.0 < block && !ret then 0.0
            else if t <= 0 && 0.0 < block && !blocked then now + block
            else b.deadline,
            b.capacity, b.period),
     ret)
  }

  // ---------- arithmetic of credit ----------

  lemma CreditAdds(capacity: int, period: real, a: real, b: real)
    requires 0.0 < period
    ensures Credit(capacity, period, a + b) == Credit(capacity, period, a) + Credit(capacity, period, b)
  {
    assert (a + b) / period == a / period + b / period;
  }

  lemma CreditGrows(capacity: int, period: real, a: real, b: real)
    requires 0.0 < period && 0 <= capacity && a <= b
    ensures Credit(capacity, period, a) <= Credit(capacity, period, b)
    ensures 0.0 <= a ==> 0.0 <= Credit(capacity, period, a)
  {
    assert a / period <= b / period;
    MulGrows(a / period, b / period, capacity as real);
    if 0.0 <= a {
      assert 0.0 <= a / period;
      MulGrows(0.0, a / period, capacity as real);
    }
  }

  lemma MulGrows(a: real, b: real, c: real)
    requires a <= b && 0.0 <= c
    ensures a * c <= b * c
  {
    assert 0.0 <= (b - a) * c;
  }

  lemma CreditOfPeriod(capacity: int, period: real)
    requires 0.0 < period
    ensures Credit(capacity, period, period) == capacity as real
    ensures Credit(capacity, period, 0.0) == 0.0
  {
    assert period / period == 1.0;
  }

  lemma CreditScaled(capacity: int, period: real, dt: real)
    requires 0.0 < period
    ensures Credit(capacity, period, dt) * period == dt * capacity as real
  {
    assert (dt / period) * period == dt;
  }
}
