/** Sums over the values of a finite map. */
module Sums {
  ghost function Sum<K>(m: map<K, nat>): nat
    decreases |m|
  {
    if m == map[] then 0 else
      var k :| k in m;
      assert |(m - {k}).Keys| == |m.Keys - {k}| && |m.Keys| == |m| && |(m - {k}).Keys| == |m - {k}|;
      m[k] + Sum(m - {k})
  }

  /** Any key may be taken out first. */
  lemma {:induction false} SumRemove<K>(m: map<K, nat>, k: K)
    requires k in m
    ensures Sum(m) == m[k] + Sum(m - {k})
    decreases |m|
  {
    var first :| first in m && Sum(m) == m[first] + Sum(m - {first});
    if first != k {
      assert |(m - {first}).Keys| == |m.Keys - {first}| && |m.Keys| == |m| && |(m - {first}).Keys| == |m - {first}|;
      assert |(m - {k}).Keys| == |m.Keys - {k}| && |(m - {k}).Keys| == |m - {k}|;
      SumRemove(m - {first}, k);
      SumRemove(m - {k}, first);
      assert (m - {first}) - {k} == (m - {k}) - {first};
    }
  }

  /** Changing or adding one entry changes the sum by that entry alone. */
  lemma SumUpdate<K>(m: map<K, nat>, k: K, v: nat)
    ensures Sum(m[k := v]) == Sum(m) - (if k in m then m[k] else 0) + v
  {
    SumRemove(m[k := v], k);
    if k in m {
      SumRemove(m, k);
      assert m[k := v] - {k} == m - {k};
    } else {
      assert m[k := v] - {k} == m;
    }
  }

  /** A sum splits over any set of keys. */
  lemma {:induction false} SumSplit<K>(m: map<K, nat>, keys: set<K>)
    ensures Sum(m) == Sum(map k | k in m && k in keys :: m[k]) + Sum(m - keys)
    decreases |keys|
  {
    var part := map k | k in m && k in keys :: m[k];
    if keys == {} {
      assert part == map[] && m - keys == m;
    } else {
      var k :| k in keys;
      SumSplit(m, keys - {k});
      var smaller := map x | x in m && x in keys - {k} :: m[x];
      if k in m {
        SumRemove(part, k);
        assert part - {k} == smaller;
        SumRemove(m - (keys - {k}), k);
        assert (m - (keys - {k})) - {k} == m - keys;
      } else {
        assert part == smaller && m - (keys - {k}) == m - keys;
      }
    }
  }

  lemma {:induction false} SumZero<K>(m: map<K, nat>)
    requires forall k :: k in m ==> m[k] == 0
    ensures Sum(m) == 0
    decreases |m|
  {
    if m != map[] {
      var k :| k in m;
      assert |(m - {k}).Keys| == |m.Keys - {k}| && |m.Keys| == |m| && |(m - {k}).Keys| == |m - {k}|;
      SumZero(m - {k});
      SumRemove(m, k);
    }
  }
}
