/** Sums over the values of a map. */
module MapSum {

  ghost function Sum<K>(m: map<K, nat>): nat
    decreases |m|
  {
    if m == map[] then 0 else var k :| k in m; m[k] + Sum(m - {k})
  }

  lemma {:induction false} SumRemove<K>(m: map<K, nat>, k: K)
    requires k in m
    ensures Sum(m) == m[k] + Sum(m - {k})
    decreases |m|
  {
    var l :| l in m && Sum(m) == m[l] + Sum(m - {l});
    if l != k {
      SumRemove(m - {l}, k);
      SumRemove(m - {k}, l);
      assert (m - {l}) - {k} == (m - {k}) - {l};
    }
  }

  /** Changing one value changes the sum by the difference; an absent value counts as 0. */
  lemma SumUpdate<K>(m: map<K, nat>, k: K, v: nat)
    ensures Sum(m[k := v]) == Sum(m) - (if k in m then m[k] else 0) + v
  {
    SumRemove(m[k := v], k);
    assert m[k := v] - {k} == m - {k};
    if k in m { SumRemove(m, k); } else { assert m - {k} == m; }
  }
}
