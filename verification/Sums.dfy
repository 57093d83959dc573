/** Sums over finite sets, whatever order the elements are visited in. */
module Sums {
  ghost function Sum<K>(f: K -> int, keys: set<K>): int
    decreases |keys|
  {
    if keys == {} then 0
    else
      var k :| k in keys;
      f(k) + Sum(f, keys - {k})
  }

  /** Any element can be taken out first. */
  lemma {:induction false} SumRemove<K>(f: K -> int, keys: set<K>, k: K)
    requires k in keys
    ensures Sum(f, keys) == f(k) + Sum(f, keys - {k})
    decreases |keys|
  {
    var j :| j in keys && Sum(f, keys) == f(j) + Sum(f, keys - {j});
    if j != k {
      SumRemove(f, keys - {j}, k);
      SumRemove(f, keys - {k}, j);
      assert keys - {j} - {k} == keys - {k} - {j};
    }
  }

  lemma SumAdd<K>(f: K -> int, keys: set<K>, k: K)
    requires k !in keys
    ensures Sum(f, keys + {k}) == Sum(f, keys) + f(k)
  {
    SumRemove(f, keys + {k}, k);
    assert keys + {k} - {k} == keys;
  }

  ghost function RealSum<K>(f: K -> real, keys: set<K>): real
    decreases |keys|
  {
    if keys == {} then 0.0
    else
      var k :| k in keys;
      f(k) + RealSum(f, keys - {k})
  }

  lemma {:induction false} RealSumRemove<K>(f: K -> real, keys: set<K>, k: K)
    requires k in keys
    ensures RealSum(f, keys) == f(k) + RealSum(f, keys - {k})
    decreases |keys|
  {
    var j :| j in keys && RealSum(f, keys) == f(j) + RealSum(f, keys - {j});
    if j != k {
      RealSumRemove(f, keys - {j}, k);
      RealSumRemove(f, keys - {k}, j);
      assert keys - {j} - {k} == keys - {k} - {j};
    }
  }

  lemma RealSumAdd<K>(f: K -> real, keys: set<K>, k: K)
    requires k !in keys
    ensures RealSum(f, keys + {k}) == RealSum(f, keys) + f(k)
  {
    RealSumRemove(f, keys + {k}, k);
    assert keys + {k} - {k} == keys;
  }

  lemma {:induction false} RealSumSame<K>(f: K -> real, g: K -> real, keys: set<K>)
    requires forall k :: k in keys ==> f(k) == g(k)
    ensures RealSum(f, keys) == RealSum(g, keys)
    decreases |keys|
  {
    if keys == {} {
    } else {
      var k :| k in keys;
      RealSumRemove(f, keys, k);
      RealSumRemove(g, keys, k);
      RealSumSame(f, g, keys - {k});
    }
  }

  /** A sum of reals is the sum of their integer parts and the sum of the rest. */
  lemma {:induction false} SumSplits<K>(f: K -> real, whole: K -> int, rest: K -> real, keys: set<K>)
    requires forall k :: k in keys ==> f(k) == whole(k) as real + rest(k)
    ensures RealSum(f, keys) == Sum(whole, keys) as real + RealSum(rest, keys)
    decreases |keys|
  {
    if keys == {} {
    } else {
      var k :| k in keys;
      RealSumRemove(f, keys, k);
      RealSumRemove(rest, keys, k);
      SumRemove(whole, keys, k);
      SumSplits(f, whole, rest, keys - {k});
    }
  }
}
