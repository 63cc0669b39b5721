/** The conservation law of a bounded recycling pool: what was allocated and not
    freed is either live in the index or in the pool, never both. */
module XkeyPool {

  const POOL_MAX := 5

  ghost predicate Conserved<T>(pool: seq<T>, n: int, live: set<T>, own: set<T>) {
    && n == |pool| <= POOL_MAX
    && (forall i, j :: 0 <= i < j < |pool| ==> pool[i] != pool[j])
    && (forall x :: x in pool ==> x !in live)
    && live <= own && (forall x :: x in pool ==> x in own) && (forall x :: x in own ==> x in live || x in pool)
  }

  lemma Taken<T>(pool: seq<T>, n: int, live: set<T>, own: set<T>)
    requires Conserved(pool, n, live, own) && 0 < n
    ensures pool[0] in own && pool[0] !in live
    ensures Conserved(pool[1..], n - 1, live + {pool[0]}, own)
  {
    assert pool == [pool[0]] + pool[1..];
  }

  lemma Allocated<T>(pool: seq<T>, n: int, live: set<T>, own: set<T>, x: T)
    requires Conserved(pool, n, live, own) && x !in own
    ensures Conserved(pool, n, live + {x}, own + {x})
  {
  }

  lemma Given<T>(pool: seq<T>, n: int, live: set<T>, own: set<T>, x: T)
    requires Conserved(pool, n, live + {x}, own) && x !in live && n < POOL_MAX
    ensures Conserved([x] + pool, n + 1, live, own)
  {
    assert forall y :: y in [x] + pool <==> y == x || y in pool;
  }

  lemma Freed<T>(pool: seq<T>, n: int, live: set<T>, own: set<T>, x: T)
    requires Conserved(pool, n, live + {x}, own) && x !in live
    ensures Conserved(pool, n, live, own - {x})
  {
  }

  lemma HasValues<K, T>(m: map<K, T>)
    ensures forall k :: k in m ==> m[k] in m.Values
  {
  }

  lemma KeyBack<K, T>(m: map<K, T>, k: K)
    requires k in m
    ensures m.Keys - {k} + {k} == m.Keys
  {
  }

  lemma ValuesWith<K, T>(m: map<K, T>, k: K, v: T)
    requires k !in m
    ensures m[k := v].Values == m.Values + {v}
  {
    var w := m[k := v];
    assert forall j :: j in m ==> j in w && w[j] == m[j];
    assert w[k] == v;
  }

  lemma ValuesWithout<K, T>(m: map<K, T>, k: K)
    requires k in m && forall j :: j in m && j != k ==> m[j] != m[k]
    ensures (m - {k}).Values == m.Values - {m[k]}
  {
    var w := m - {k};
    assert forall j :: j in m && j != k ==> j in w && w[j] == m[j];
  }
}
