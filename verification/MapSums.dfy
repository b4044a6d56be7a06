/** Sums of the values of a finite map. */
module MapSums {

  ghost function Sum<K>(m: map<K, int>): int
    decreases |m|
  {
    if m == map[] then 0 else
      var k :| k in m;
      Smaller(m, k);
      m[k] + Sum(m - {k})
  }

  lemma Smaller<K, V>(m: map<K, V>, k: K)
    requires k in m
    ensures |m - {k}| == |m| - 1
  {
    assert (m - {k}).Keys == m.Keys - {k};
    assert |m| == |m.Keys| && |m - {k}| == |(m - {k}).Keys|;
  }

  method SomeKey<K(==), V>(m: map<K, V>) returns (k: K)
    requires m != map[]
    ensures k in m
  {
    k :| k in m;
  }

  lemma {:induction false} SumRemove<K>(m: map<K, int>, k: K)
    requires k in m
    ensures Sum(m) == m[k] + Sum(m - {k})
    decreases |m|
  {
    var c :| c in m && Sum(m) == m[c] + Sum(m - {c});
    if c != k {
      Smaller(m, c);
      Smaller(m, k);
      SumRemove(m - {c}, k);
      SumRemove(m - {k}, c);
      assert m - {c} - {k} == m - {k} - {c};
    }
  }

  lemma SumUpdate<K>(m: map<K, int>, k: K, v: int)
    ensures Sum(m[k := v]) == Sum(m) - (if k in m then m[k] else 0) + v
  {
    SumRemove(m[k := v], k);
    assert m[k := v] - {k} == m - {k};
    if k in m {
      SumRemove(m, k);
    } else {
      assert m - {k} == m;
    }
  }

  lemma {:induction false} SumConstant<K>(m: map<K, int>, v: int)
    requires forall k <- m :: m[k] == v
    ensures Sum(m) == v * |m|
    decreases |m|
  {
    if m != map[] {
      var k :| k in m;
      Smaller(m, k);
      SumRemove(m, k);
      SumConstant(m - {k}, v);
    }
  }

  function ValueOr0<K>(m: map<K, int>, k: K): int {
    if k in m then m[k] else 0
  }

  /** Keys with the value zero do not matter. */
  lemma {:induction false} SumsAgree<K(!new)>(a: map<K, int>, b: map<K, int>)
    requires forall k: K :: ValueOr0(a, k) == ValueOr0(b, k)
    ensures Sum(a) == Sum(b)
    decreases |a|
  {
    if a == map[] {
      forall k <- b ensures b[k] == 0 {
        assert ValueOr0(a, k) == ValueOr0(b, k);
      }
      SumConstant(b, 0);
    } else {
      var k :| k in a;
      Smaller(a, k);
      SumRemove(a, k);
      assert ValueOr0(a, k) == ValueOr0(b, k);
      assert k !in b ==> b - {k} == b;
      if k in b {
        SumRemove(b, k);
      }
      forall j: K ensures ValueOr0(a - {k}, j) == ValueOr0(b - {k}, j) {
        assert ValueOr0(a, j) == ValueOr0(b, j);
      }
      SumsAgree(a - {k}, b - {k});
    }
  }
}
