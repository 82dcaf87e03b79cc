/** Adding up a weight over the entries of a table. */
module Sums {
  ghost function Total<T>(m: map<string, T>, weight: T -> nat): nat {
    if m == map[] then 0
    else var k :| k in m; weight(m[k]) + Total(m - {k}, weight)
  }

  lemma {:induction false} TotalMinus<T>(m: map<string, T>, weight: T -> nat, k: string)
    requires k in m
    ensures Total(m, weight) == weight(m[k]) + Total(m - {k}, weight)
  {
    var e :| e in m && Total(m, weight) == weight(m[e]) + Total(m - {e}, weight);
    if e != k {
      TotalMinus(m - {e}, weight, k);
      TotalMinus(m - {k}, weight, e);
      assert m - {e} - {k} == m - {k} - {e};
    }
  }

  lemma TotalPlus<T>(m: map<string, T>, weight: T -> nat, k: string, x: T)
    ensures Total(m[k := x], weight) == weight(x) + Total(m - {k}, weight)
  {
    TotalMinus(m[k := x], weight, k);
    assert m[k := x] - {k} == m - {k};
  }

  /** Entries without weight can go. */
  lemma {:induction false} TotalSame<T>(m: map<string, T>, n: map<string, T>, weight: T -> nat)
    requires forall k :: k in n ==> k in m && m[k] == n[k]
    requires forall k :: k in m && k !in n ==> weight(m[k]) == 0
    ensures Total(m, weight) == Total(n, weight)
    decreases |m|
  {
    if m == map[] {
      assert n == map[];
    } else {
      var k :| k in m;
      TotalMinus(m, weight, k);
      if k in n {
        TotalMinus(n, weight, k);
        TotalSame(m - {k}, n - {k}, weight);
      } else {
        TotalSame(m - {k}, n, weight);
      }
    }
  }
}
