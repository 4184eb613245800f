/** Sums of the values of a map, as Python's `sum(d.values())`. A map has no
    order, so each sum peels off an arbitrary key; `SumNatRemove` and
    `SumRealRemove` show that the choice does not matter. */
module MapSums {

  /** Some key of a non-empty map. */
  ghost function Pick<K, V>(m: map<K, V>): (k: K)
    requires |m| > 0
    ensures k in m
  {
    var k :| k in m; k
  }

  ghost function SumNat<K>(m: map<K, nat>): nat
    decreases |m|
  {
    if |m| == 0 then 0
    else
      var k := Pick(m);
      m[k] + SumNat(m - {k})
  }

  lemma {:induction false} SumNatRemove<K>(m: map<K, nat>, k: K)
    requires k in m
    ensures SumNat(m) == m[k] + SumNat(m - {k})
    decreases |m|
  {
    var j := Pick(m);
    if j != k {
      SumNatRemove(m - {j}, k);
      SumNatRemove(m - {k}, j);
      assert m - {j} - {k} == m - {k} - {j};
    }
  }

  /** A map with `k` set to `v` sums to `v` plus the rest of the map. */
  lemma SumNatSet<K>(m: map<K, nat>, k: K, v: nat)
    ensures SumNat(m[k := v]) == v + SumNat(m - {k})
  {
    SumNatRemove(m[k := v], k);
    assert m[k := v] - {k} == m - {k};
  }

  /** Removing a key that is absent changes nothing. */
  lemma SumNatRemoveAbsent<K>(m: map<K, nat>, k: K)
    requires k !in m
    ensures SumNat(m - {k}) == SumNat(m)
  {
    assert m - {k} == m;
  }

  /** Setting key `k` to `v` changes the sum by `v` minus the old value. */
  lemma SumNatUpdate<K>(m: map<K, nat>, k: K, v: nat)
    ensures SumNat(m[k := v]) == SumNat(m) - (if k in m then m[k] else 0) + v
  {
    SumNatSet(m, k, v);
    if k in m {
      SumNatRemove(m, k);
    } else {
      SumNatRemoveAbsent(m, k);
    }
  }

  ghost function SumReal<K>(m: map<K, real>): real
    decreases |m|
  {
    if |m| == 0 then 0.0
    else
      var k := Pick(m);
      m[k] + SumReal(m - {k})
  }

  lemma {:induction false} SumRealRemove<K>(m: map<K, real>, k: K)
    requires k in m
    ensures SumReal(m) == m[k] + SumReal(m - {k})
    decreases |m|
  {
    var j := Pick(m);
    if j != k {
      SumRealRemove(m - {j}, k);
      SumRealRemove(m - {k}, j);
      assert m - {j} - {k} == m - {k} - {j};
    }
  }

  /** Every value divided by `d`. */
  function DivideAll<K>(m: map<K, real>, d: real): (r: map<K, real>)
    requires d != 0.0
    ensures r.Keys == m.Keys
    ensures forall k :: k in m ==> r[k] * d == m[k]
  {
    map k | k in m :: m[k] / d
  }

  /** Dividing every value by `d` divides the sum by `d`. */
  lemma {:induction false} SumRealDivideAll<K>(m: map<K, real>, d: real)
    requires d != 0.0
    ensures SumReal(DivideAll(m, d)) == SumReal(m) / d
    decreases |m|
  {
    if |m| != 0 {
      var k := Pick(m);
      var q := DivideAll(m, d);
      SumRealRemove(m, k);
      SumRealRemove(q, k);
      assert q - {k} == DivideAll(m - {k}, d);
      SumRealDivideAll(m - {k}, d);
      DivideSum(m[k], SumReal(m - {k}), d);
    }
  }

  lemma DivideSum(a: real, b: real, d: real)
    requires d != 0.0
    ensures a / d + b / d == (a + b) / d
  {
  }
}
