/** Sums over finite maps, independent of the order in which the keys are visited. */
module Sums {

  ghost function Sum<K>(m: map<K, int>): int {
    if m == map[] then 0
    else
      var k :| k in m;
      m[k] + Sum(m - {k})
  }

  lemma {:induction false} SumOfNothing<K>(m: map<K, int>)
    requires forall k :: k in m ==> m[k] == 0
    ensures Sum(m) == 0
    decreases |m|
  {
    if m == map[] {
    } else {
      var k :| k in m && Sum(m) == m[k] + Sum(m - {k});
      SumOfNothing(m - {k});
    }
  }

  lemma SomeKey<K, V>(m: map<K, V>) returns (k: K)
    requires m != map[]
    ensures k in m
  {
    k :| k in m;
  }

  /** Any key may be taken out first. */
  lemma {:induction false} SumTakesOut<K>(m: map<K, int>, k: K)
    requires k in m
    ensures Sum(m) == m[k] + Sum(m - {k})
    decreases |m|
  {
    var j :| j in m && Sum(m) == m[j] + Sum(m - {j});
    if j != k {
      SumTakesOut(m - {j}, k);
      SumTakesOut(m - {k}, j);
      assert m - {j} - {k} == m - {k} - {j};
    }
  }

  lemma SumPut<K>(m: map<K, int>, k: K, v: int)
    ensures Sum(m[k := v]) == Sum(m) - (if k in m then m[k] else 0) + v
  {
    SumTakesOut(m[k := v], k);
    assert m[k := v] - {k} == m - {k};
    if k in m {
      SumTakesOut(m, k);
    } else {
      assert m - {k} == m;
    }
  }

  lemma SumDrop<K>(m: map<K, int>, k: K)
    ensures Sum(m - {k}) == Sum(m) - (if k in m then m[k] else 0)
  {
    if k in m {
      SumTakesOut(m, k);
    } else {
      assert m - {k} == m;
    }
  }

  /** A sum of non-negative terms is at least each of its terms. */
  lemma {:induction false} SumBoundsItsTerms<K>(m: map<K, int>)
    requires forall k :: k in m ==> m[k] >= 0
    ensures Sum(m) >= 0
    ensures forall k :: k in m ==> m[k] <= Sum(m)
    decreases |m|
  {
    forall k | k in m
      ensures 0 <= m[k] <= Sum(m)
    {
      SumTakesOut(m, k);
      SumBoundsItsTerms(m - {k});
    }
    if m == map[] {
    } else {
      var k :| k in m;
      SumTakesOut(m, k);
    }
  }
}
