/** Counting dictionaries: the `if k not in d: d[k] = 0; d[k] += 1` pattern
    of the tile-count scripts, as a fold over the sequence of keys seen. */
module Tallies {
  import opened MapSums

  /** Number of occurrences of `k` in `s`. */
  function Count<K(==)>(s: seq<K>, k: K): nat
    decreases |s|
  {
    if s == [] then 0 else Count(s[..|s| - 1], k) + (if s[|s| - 1] == k then 1 else 0)
  }

  /** The value a counting dictionary holds for `k`, 0 when `k` is absent. */
  function CountOf<K>(m: map<K, nat>, k: K): nat {
    if k in m then m[k] else 0
  }

  /** One increment of key `k`, creating it at 1 when absent. */
  function Inc<K>(m: map<K, nat>, k: K): (r: map<K, nat>)
    ensures k in r && r[k] == CountOf(m, k) + 1
    ensures forall j :: j in m && j != k ==> j in r && r[j] == m[j]
  {
    m[k := CountOf(m, k) + 1]
  }

  /** `if k not in d: d[k] = 0` followed by `d[k] += 1`. */
  method Increment<K>(d: map<K, nat>, k: K) returns (r: map<K, nat>)
    ensures r == Inc(d, k)
  {
    r := d;
    if k !in r {
      r := r[k := 0];
    }
    r := r[k := r[k] + 1];
  }

  /** The dictionary after counting every key of `s`, in order. */
  function Tally<K>(s: seq<K>): map<K, nat>
    decreases |s|
  {
    if s == [] then map[] else Inc(Tally(s[..|s| - 1]), s[|s| - 1])
  }

  /** Counting one more key is one more increment. */
  lemma TallyAppend<K>(s: seq<K>, k: K)
    ensures Tally(s + [k]) == Inc(Tally(s), k)
  {
    assert (s + [k])[..|s|] == s;
  }

  /** A key is present exactly when it was seen, its value is the number of
      times it was seen, and so every stored value is at least 1. */
  lemma {:induction false} TallyCounts<K>(s: seq<K>, k: K)
    ensures k in Tally(s) <==> k in s
    ensures CountOf(Tally(s), k) == Count(s, k)
    ensures k in Tally(s) ==> Tally(s)[k] >= 1
    decreases |s|
  {
    if s != [] {
      var init := s[..|s| - 1];
      TallyCounts(init, k);
      assert s == init + [s[|s| - 1]];
      assert k in s <==> k in init || k == s[|s| - 1];
    }
  }

  /** The values of a tally add up to the number of keys counted. */
  lemma {:induction false} TallySum<K>(s: seq<K>)
    ensures SumNat(Tally(s)) == |s|
    decreases |s|
  {
    if s != [] {
      var init := s[..|s| - 1];
      TallySum(init);
      SumNatUpdate(Tally(init), s[|s| - 1], CountOf(Tally(init), s[|s| - 1]) + 1);
    }
  }

  /** One increment of the inner counter `m[k][v]`, creating either level. */
  function Inc2<K, V>(m: map<K, map<V, nat>>, k: K, v: V): (r: map<K, map<V, nat>>)
  {
    m[k := Inc(if k in m then m[k] else map[], v)]
  }

  /** `if k not in d: d[k] = {}`, `if v not in d[k]: d[k][v] = 0`, then
      `d[k][v] += 1`. */
  method Increment2<K, V>(d: map<K, map<V, nat>>, k: K, v: V) returns (r: map<K, map<V, nat>>)
    ensures r == Inc2(d, k, v)
  {
    r := d;
    if k !in r {
      r := r[k := map[]];
    }
    var inner := r[k];
    assert inner == (if k in d then d[k] else map[]);
    if v !in inner {
      inner := inner[v := 0];
    }
    inner := inner[v := inner[v] + 1];
    assert inner == Inc(if k in d then d[k] else map[], v);
    r := r[k := inner];
  }

  /** The two-level dictionary after counting every pair of `s`. */
  function Tally2<K, V>(s: seq<(K, V)>): map<K, map<V, nat>>
    decreases |s|
  {
    if s == [] then map[] else Inc2(Tally2(s[..|s| - 1]), s[|s| - 1].0, s[|s| - 1].1)
  }

  /** Counting one more pair is one more two-level increment. */
  lemma Tally2Append<K, V>(s: seq<(K, V)>, p: (K, V))
    ensures Tally2(s + [p]) == Inc2(Tally2(s), p.0, p.1)
  {
    assert (s + [p])[..|s|] == s;
  }

  lemma SecondsAppend<K, V>(s: seq<(K, V)>, p: (K, V))
    ensures Seconds(s + [p]) == Seconds(s) + [p.1]
  {
    assert (s + [p])[..|s|] == s;
  }

  /** Inner count of `v` under `k`, 0 when either level is absent. */
  function CountOf2<K, V>(m: map<K, map<V, nat>>, k: K, v: V): nat {
    if k in m then CountOf(m[k], v) else 0
  }

  /** Outer keys are the first components seen; each inner value is the
      number of occurrences of its pair, hence at least 1. */
  lemma {:induction false} Tally2Counts<K, V>(s: seq<(K, V)>, k: K, v: V)
    ensures k in Tally2(s) <==> exists i :: 0 <= i < |s| && s[i].0 == k
    ensures CountOf2(Tally2(s), k, v) == Count(s, (k, v))
    ensures k in Tally2(s) && v in Tally2(s)[k] ==> Tally2(s)[k][v] >= 1
    decreases |s|
  {
    if s != [] {
      var init := s[..|s| - 1];
      Tally2Counts(init, k, v);
      assert forall i :: 0 <= i < |init| ==> init[i] == s[i];
      if k == s[|s| - 1].0 {
        assert s[|s| - 1].0 == k;
      }
    }
  }

  /** Column `v` of a two-level dictionary: for every outer key, its inner
      count at `v`. */
  function Column<K, V>(m: map<K, map<V, nat>>, v: V): (c: map<K, nat>)
    ensures c.Keys == m.Keys
  {
    map k | k in m :: CountOf(m[k], v)
  }

  function Seconds<K, V>(s: seq<(K, V)>): (r: seq<V>)
    ensures |r| == |s|
    ensures forall i :: 0 <= i < |s| ==> r[i] == s[i].1
    decreases |s|
  {
    if s == [] then [] else Seconds(s[..|s| - 1]) + [s[|s| - 1].1]
  }

  lemma ColumnInc2<K, V>(m: map<K, map<V, nat>>, k: K, w: V, v: V)
    ensures Column(Inc2(m, k, w), v)
         == Column(m, v)[k := CountOf(Inc(if k in m then m[k] else map[], w), v)]
  {
  }

  /** Counting the second components on their own gives, for every `v`, the
      sum over outer keys of the inner counts at `v`. */
  lemma {:induction false} Tally2Column<K, V>(s: seq<(K, V)>, v: V)
    ensures CountOf(Tally(Seconds(s)), v) == SumNat(Column(Tally2(s), v))
    decreases |s|
  {
    if s != [] {
      var init := s[..|s| - 1];
      var k, w := s[|s| - 1].0, s[|s| - 1].1;
      Tally2Column(init, v);
      var before := Tally2(init);
      var inner0 := if k in before then before[k] else map[];
      assert Seconds(s)[..|s| - 1] == Seconds(init);
      ColumnInc2(before, k, w, v);
      SumNatUpdate(Column(before, v), k, CountOf(Inc(inner0, w), v));
    }
  }
}
