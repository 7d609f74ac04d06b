/** Sums over the values of a finite map, independent of any iteration order. */
module Sums {

  /** Some element of a nonempty set; every sum below takes its keys in this order. */
  ghost function Pick<K>(s: set<K>): (k: K)
    requires s != {}
    ensures k in s
  {
    var k :| k in s; k
  }

  /** The sum of all values of `m`. */
  ghost function SumOf<K>(m: map<K, nat>): nat
    decreases m.Keys
  {
    if m.Keys == {} then 0
    else
      var k := Pick(m.Keys);
      assert (m - {k}).Keys < m.Keys;
      m[k] + SumOf(m - {k})
  }

  /** Any key can be taken out of the sum first. */
  lemma {:induction false} SumOfRemove<K>(m: map<K, nat>, j: K)
    requires j in m
    ensures SumOf(m) == m[j] + SumOf(m - {j})
    decreases m.Keys
  {
    var k := Pick(m.Keys);
    assert (m - {k}).Keys < m.Keys;
    if k != j {
      SumOfRemove(m - {k}, j);
      SumOfRemove(m - {j}, k);
      assert m - {k} - {j} == m - {j} - {k};
    }
  }

  /** Updating one entry changes the sum by the difference of the old and new value. */
  lemma SumOfUpdate<K>(m: map<K, nat>, k: K, v: nat)
    ensures SumOf(m[k := v]) + (if k in m then m[k] else 0) == SumOf(m) + v
  {
    var u := m[k := v];
    SumOfRemove(u, k);
    if k in m {
      SumOfRemove(m, k);
      assert u - {k} == m - {k};
    } else {
      assert u - {k} == m;
    }
  }
}
