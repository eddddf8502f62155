/**
 * A JavaScript `Record<string, number>` seen as a finite map, and
 * `Object.values(record).reduce((a, b) => a + b, 0)` as the sum of its
 * values. Integer addition is commutative and associative, so the order in
 * which JavaScript would visit the properties does not change the sum.
 */
module Records {

  /** Some key of a non-empty map: the property the sum adds first. */
  ghost function Pick(m: map<string, int>): (k: string)
    requires |m| > 0
    ensures k in m
  {
    var k :| k in m; k
  }

  /** The sum of the values of `m`. */
  ghost function Sum(m: map<string, int>): int
    decreases |m|
  {
    if |m| == 0 then 0
    else
      var k := Pick(m);
      assert (m - {k}).Keys == m.Keys - {k};
      m[k] + Sum(m - {k})
  }

  /** Whichever key is taken out first, the sum is that key's value plus the sum of the rest. */
  lemma {:induction false} SumRemove(m: map<string, int>, k: string)
    requires k in m
    ensures Sum(m) == m[k] + Sum(m - {k})
    decreases |m|
  {
    var j := Pick(m);
    assert (m - {j}).Keys == m.Keys - {j};
    if j != k {
      SumRemove(m - {j}, k);
      SumRemove(m - {k}, j);
      assert (m - {j}) - {k} == (m - {k}) - {j};
    }
  }

  /** Setting one key changes the sum by the difference between the new and the old value. */
  lemma SumUpdate(m: map<string, int>, k: string, v: int)
    ensures Sum(m[k := v]) == Sum(m) - (if k in m then m[k] else 0) + v
  {
    SumRemove(m[k := v], k);
    assert m[k := v] - {k} == m - {k};
    if k in m {
      SumRemove(m, k);
    } else {
      assert m - {k} == m;
    }
  }

  /** A record with no negative value has a non-negative sum, at least as large as any one value. */
  lemma {:induction false} SumBoundsValues(m: map<string, int>, k: string)
    requires forall j :: j in m ==> m[j] >= 0
    ensures Sum(m) >= 0
    ensures k in m ==> Sum(m) >= m[k]
    decreases |m|
  {
    if |m| > 0 {
      var j := Pick(m);
      assert (m - {j}).Keys == m.Keys - {j};
      SumBoundsValues(m - {j}, k);
      if k in m {
        SumRemove(m, k);
        SumBoundsValues(m - {k}, k);
      }
    }
  }
}
