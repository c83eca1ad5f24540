/** Sums over the values of finite maps. */
module MapSum {
  ghost function Sum<K>(m: map<K, int>): int
    decreases |m|
  {
    if m == map[] then 0
    else
      var k :| k in m;
      m[k] + Sum(m - {k})
  }

  /** Any key may be taken out first. */
  lemma {:induction false} SumTakes<K>(m: map<K, int>, k: K)
    requires k in m
    ensures Sum(m) == m[k] + Sum(m - {k})
    decreases |m|
  {
    var first :| first in m && Sum(m) == m[first] + Sum(m - {first});
    if first != k {
      var a, b := m - {first}, m - {k};
      assert a - {k} == b - {first};
      SumTakes(a, k);
      SumTakes(b, first);
    }
  }

  /** Writing one key changes the sum by the difference. */
  lemma SumUpdate<K>(m: map<K, int>, k: K, v: int)
    ensures Sum(m[k := v]) == Sum(m) - (if k in m then m[k] else 0) + v
  {
    var m' := m[k := v];
    SumTakes(m', k);
    if k in m {
      SumTakes(m, k);
      assert m' - {k} == m - {k};
    } else {
      assert m' - {k} == m;
    }
  }

  lemma SumOfNothing<K>()
    ensures Sum<K>(map[]) == 0
  {
  }

  lemma Distributes(m: int, x: int, y: int)
    ensures m * (x + y) == m * x + m * y
  {
  }

  /** The sum of one map plus a multiple of another. */
  lemma {:induction false} SumScaled<K>(c: map<K, int>, a: map<K, int>, b: map<K, int>, m: int)
    requires c.Keys == a.Keys == b.Keys && forall k | k in c :: c[k] == a[k] + m * b[k]
    ensures Sum(c) == Sum(a) + m * Sum(b)
    decreases |c|
  {
    hide Sum;
    if c == map[] {
      assert a == map[] && b == map[];
      SumOfNothing<K>();
    } else {
      var k :| k in c;
      SumTakes(c, k);
      SumTakes(a, k);
      SumTakes(b, k);
      SumScaled(c - {k}, a - {k}, b - {k}, m);
      Distributes(m, b[k], Sum(b - {k}));
    }
  }

  ghost function RealSum<K>(m: map<K, real>): real
    decreases |m|
  {
    if m == map[] then 0.0
    else
      var k :| k in m;
      m[k] + RealSum(m - {k})
  }

  lemma {:induction false} RealSumTakes<K>(m: map<K, real>, k: K)
    requires k in m
    ensures RealSum(m) == m[k] + RealSum(m - {k})
    decreases |m|
  {
    var first :| first in m && RealSum(m) == m[first] + RealSum(m - {first});
    if first != k {
      var a, b := m - {first}, m - {k};
      assert a - {k} == b - {first};
      RealSumTakes(a, k);
      RealSumTakes(b, first);
    }
  }

  /** A sum of reals with a whole part in each entry. */
  lemma {:induction false} RealSumSplits<K>(r: map<K, real>, d: map<K, real>, n: map<K, int>)
    requires r.Keys == d.Keys == n.Keys && forall k | k in r :: r[k] == d[k] + n[k] as real
    ensures RealSum(r) == RealSum(d) + Sum(n) as real
    decreases |r|
  {
    if r == map[] {
      assert d == map[] && n == map[];
    } else {
      var k :| k in r;
      RealSumTakes(r, k);
      RealSumTakes(d, k);
      SumTakes(n, k);
      RealSumSplits(r - {k}, d - {k}, n - {k});
    }
  }

  lemma {:induction false} RealSumOfZeros<K>(d: map<K, real>)
    requires forall k | k in d :: d[k] == 0.0
    ensures RealSum(d) == 0.0
    decreases |d|
  {
    if d != map[] {
      var k :| k in d;
      RealSumTakes(d, k);
      RealSumOfZeros(d - {k});
    }
  }
}
