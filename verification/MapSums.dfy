/** Sums of the values of a map. */
module MapSums {
  /** The sum of a map's values, in whatever order they are visited. */
  ghost function SumMap(m: map<string, int>): int
    decreases |m.Keys|
  {
    if m.Keys == {} then 0
    else
      var k :| k in m.Keys;
      assert (m - {k}).Keys == m.Keys - {k};
      m[k] + SumMap(m - {k})
  }

  /** Any key may be visited first. */
  lemma {:induction false} SumTake(m: map<string, int>, k: string)
    requires k in m
    ensures SumMap(m) == m[k] + SumMap(m - {k})
    decreases |m.Keys|
  {
    var h :| h in m.Keys && SumMap(m) == m[h] + SumMap(m - {h});
    if h != k {
      assert (m - {h}).Keys == m.Keys - {h} && (m - {k}).Keys == m.Keys - {k};
      SumTake(m - {h}, k);
      SumTake(m - {k}, h);
      assert m - {h} - {k} == m - {k} - {h};
    }
  }

  /** Writing a value changes the sum by the difference. */
  lemma SumWrite(m: map<string, int>, k: string, v: int)
    ensures SumMap(m[k := v]) == SumMap(m) + v - (if k in m then m[k] else 0)
  {
    SumTake(m[k := v], k);
    assert m[k := v] - {k} == m - {k};
    if k in m {
      SumTake(m, k);
    } else {
      assert m - {k} == m;
    }
  }

  lemma {:induction false} SumMonotone(a: map<string, int>, b: map<string, int>)
    requires a.Keys == b.Keys && forall k <- a :: 0 <= a[k] <= b[k]
    ensures 0 <= SumMap(a) <= SumMap(b)
    decreases |a.Keys|
  {
    if a.Keys != {} {
      var k :| k in a.Keys;
      SumTake(a, k);
      SumTake(b, k);
      assert (a - {k}).Keys == a.Keys - {k};
      SumMonotone(a - {k}, b - {k});
    }
  }
}
