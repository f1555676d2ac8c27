/** Option, and sums over finite maps. */
module Prelude {
  datatype Option<+T> = None | Some(value: T) {
    /** The value, or the given default when there is none. */
    function GetOr(default: T): T {
      match this
      case Some(v) => v
      case None => default
    }
  }
}

/** The sum of the values of a finite integer map: SQL's `SUM` over the rows of a table. */
module Totals {

  ghost function Total<K>(m: map<K, int>): int {
    if m == map[] then 0
    else
      var k :| k in m;
      m[k] + Total(m - {k})
  }

  lemma {:induction false} TotalRemove<K>(m: map<K, int>, k: K)
    requires k in m
    ensures Total(m) == m[k] + Total(m - {k})
    decreases |m|
  {
    var c :| c in m && Total(m) == m[c] + Total(m - {c});
    if c != k {
      TotalRemove(m - {c}, k);
      TotalRemove(m - {k}, c);
      assert m - {c} - {k} == m - {k} - {c};
    }
  }

  lemma TotalUpdate<K>(m: map<K, int>, k: K, v: int)
    ensures Total(m[k := v]) == Total(m) - (if k in m then m[k] else 0) + v
  {
    TotalRemove(m[k := v], k);
    assert m[k := v] - {k} == m - {k};
    if k in m {
      TotalRemove(m, k);
    } else {
      assert m - {k} == m;
    }
  }

  /** If every non-zero row of `a` is covered by a row of the non-negative `b`, then `a` totals no more than `b`. */
  lemma {:induction false} TotalCovered<K>(a: map<K, int>, b: map<K, int>)
    requires forall k | k in a && a[k] > 0 :: k in b && a[k] <= b[k]
    requires forall k | k in b :: 0 <= b[k]
    ensures Total(a) <= Total(b)
    decreases |a|
  {
    if a == map[] {
      TotalNonNegative(b);
    } else {
      var k :| k in a;
      TotalRemove(a, k);
      if k in b {
        TotalRemove(b, k);
        TotalCovered(a - {k}, b - {k});
      } else {
        TotalCovered(a - {k}, b);
      }
    }
  }

  lemma {:induction false} TotalNonNegative<K>(m: map<K, int>)
    requires forall k | k in m :: 0 <= m[k]
    ensures 0 <= Total(m)
    decreases |m|
  {
    if m != map[] {
      var k :| k in m;
      TotalRemove(m, k);
      TotalNonNegative(m - {k});
    }
  }

  lemma {:induction false} TotalZero<K>(m: map<K, int>)
    requires forall k | k in m :: m[k] == 0
    ensures Total(m) == 0
    decreases |m|
  {
    if m != map[] {
      var k :| k in m;
      TotalRemove(m, k);
      TotalZero(m - {k});
    }
  }

  lemma {:induction false} TotalAdd<K>(a: map<K, int>, b: map<K, int>, sum: map<K, int>)
    requires a.Keys == b.Keys == sum.Keys
    requires forall k | k in sum :: sum[k] == a[k] + b[k]
    ensures Total(sum) == Total(a) + Total(b)
    decreases |a|
  {
    if a != map[] {
      var k :| k in a;
      TotalRemove(a, k);
      TotalRemove(b, k);
      TotalRemove(sum, k);
      TotalAdd(a - {k}, b - {k}, sum - {k});
    }
  }
}

/** Division that rounds down. */
module Rounding {
  lemma ProductMonotone(p: int, q: int, b: int)
    requires 0 < b && p <= q
    ensures p * b <= q * b
  {
    assert 0 <= (q - p) * b == q * b - p * b;
  }

  lemma QuotientAtLeast(a: int, b: int, q: int)
    requires 0 < b
    ensures a / b >= q <==> a >= q * b
  {
    var d := a / b;
    assert d * b <= a < (d + 1) * b;
    if d >= q {
      ProductMonotone(q, d, b);
    } else {
      ProductMonotone(d + 1, q, b);
    }
  }
}
