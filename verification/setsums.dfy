/** Sums over finite sets, the specification of the loops that add up one
    number per key of a hash map, visited in no particular order. */
module SetSums {

  /** The number `m` maps `k` to, zero off its keys. */
  function Value<K>(m: map<K, nat>, k: K): nat {
    if k in m then m[k] else 0
  }

  /** The sum of the numbers `m` maps the keys `keys` to. */
  ghost function Sum<K>(m: map<K, nat>, keys: set<K>): nat
    decreases keys
  {
    if keys == {} then 0 else var k :| k in keys; Value(m, k) + Sum(m, keys - {k})
  }

  /** The sum does not depend on the order the keys are visited in: any key
      may be taken out first. */
  lemma {:induction false} SumRemove<K>(m: map<K, nat>, keys: set<K>, k: K)
    requires k in keys
    ensures Sum(m, keys) == Value(m, k) + Sum(m, keys - {k})
    decreases keys
  {
    var j :| j in keys && Sum(m, keys) == Value(m, j) + Sum(m, keys - {j});
    if j != k {
      SumRemove(m, keys - {j}, k);
      SumRemove(m, keys - {k}, j);
      assert keys - {j} - {k} == keys - {k} - {j};
    }
  }

  /** Adding a key that was not yet summed adds its value. */
  lemma SumAdd<K>(m: map<K, nat>, keys: set<K>, k: K)
    requires k !in keys
    ensures Sum(m, keys + {k}) == Sum(m, keys) + Value(m, k)
  {
    SumRemove(m, keys + {k}, k);
    assert keys + {k} - {k} == keys;
  }

  /** Sums of maps that agree on the keys are equal. */
  lemma {:induction false} SumCongruent<K>(m: map<K, nat>, n: map<K, nat>, keys: set<K>)
    requires forall k | k in keys :: Value(m, k) == Value(n, k)
    ensures Sum(m, keys) == Sum(n, keys)
    decreases keys
  {
    if keys != {} {
      var k :| k in keys;
      SumRemove(m, keys, k);
      SumRemove(n, keys, k);
      SumCongruent(m, n, keys - {k});
    }
  }

  /** Raising one summand by one raises the sum by one. */
  lemma SumIncrement<K>(m: map<K, nat>, n: map<K, nat>, keys: set<K>, k: K)
    requires k in keys && Value(n, k) == Value(m, k) + 1
    requires forall j | j in keys && j != k :: Value(m, j) == Value(n, j)
    ensures Sum(n, keys) == Sum(m, keys) + 1
  {
    SumRemove(m, keys, k);
    SumRemove(n, keys, k);
    SumCongruent(m, n, keys - {k});
  }

  /** Moving one key from the keys still to visit to the keys visited. */
  lemma VisitOne<K>(all: set<K>, todo: set<K>, k: K)
    requires todo <= all && k in todo
    ensures all - (todo - {k}) == (all - todo) + {k}
    ensures k !in all - todo
    ensures |todo - {k}| < |todo|
  {
  }

  /** A map over the visited keys, extended at the key being visited. */
  lemma VisitKey<K, V>(all: set<K>, todo: set<K>, m: map<K, V>, k: K, v: V)
    requires todo <= all && k in todo && m.Keys == all - todo
    ensures m[k := v].Keys == all - (todo - {k})
  {
  }

  /** Once no key is left to visit, every key was visited. */
  lemma VisitedAll<K>(all: set<K>, todo: set<K>)
    requires todo == {}
    ensures all - todo == all
  {
  }
}
