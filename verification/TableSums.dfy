/** Totals over table columns. A missing row counts as zero, so a row may come and go without a special case. */
module TableSums {

  function Get<K>(m: map<K, int>, k: K): int {
    if k in m then m[k] else 0
  }

  ghost function Total<K(!new)>(m: map<K, int>): int
    decreases |m|
  {
    if m == map[] then 0 else
    var k :| k in m;
    Shrinks(m, k);
    m[k] + Total(m - {k})
  }

  lemma Shrinks<K>(m: map<K, int>, k: K)
    requires k in m
    ensures |m - {k}| == |m| - 1
  {
    assert (m - {k}).Keys == m.Keys - {k};
    assert |m.Keys| == |m| && |(m - {k}).Keys| == |m - {k}|;
  }

  lemma {:induction false} TotalWithout<K(!new)>(m: map<K, int>, k: K)
    ensures Total(m) == Get(m, k) + Total(m - {k})
    decreases |m|
  {
    if k !in m {
      assert m - {k} == m;
    } else {
      var j :| j in m && Total(m) == m[j] + Total(m - {j});
      if j != k {
        Shrinks(m, j);
        TotalWithout(m - {j}, k);
        TotalWithout(m - {k}, j);
        assert m - {j} - {k} == m - {k} - {j};
      }
    }
  }

  lemma GetWithout<K>(m: map<K, int>, k: K)
    ensures forall j :: Get(m - {k}, j) == if j == k then 0 else Get(m, j)
    ensures |m - {k}| == |m| - if k in m then 1 else 0
  {
    if k in m { Shrinks(m, k); } else { assert m - {k} == m; }
  }

  /** A column that is nowhere larger has no larger total. */
  lemma {:induction false} TotalAtMost<K(!new)>(m: map<K, int>, n: map<K, int>)
    requires forall k :: Get(m, k) <= Get(n, k)
    ensures Total(m) <= Total(n)
    decreases |m| + |n|
  {
    if m == map[] && n == map[] {
    } else {
      var k :| k in m || k in n;
      hide Total, Get;
      TotalWithout(m, k);
      TotalWithout(n, k);
      GetWithout(m, k);
      GetWithout(n, k);
      TotalAtMost(m - {k}, n - {k});
    }
  }

  /** Columns that agree everywhere have the same total, whichever rows are spelled out. */
  lemma TotalSame<K(!new)>(m: map<K, int>, n: map<K, int>)
    requires forall k :: Get(m, k) == Get(n, k)
    ensures Total(m) == Total(n)
  {
    hide Total, Get;
    TotalAtMost(m, n);
    TotalAtMost(n, m);
  }

  /** Changing one row by `d` changes the total by `d`. */
  lemma TotalChange<K(!new)>(m: map<K, int>, n: map<K, int>, k: K, d: int)
    requires forall j :: j != k ==> Get(m, j) == Get(n, j)
    requires Get(n, k) == Get(m, k) + d
    ensures Total(n) == Total(m) + d
  {
    TotalWithout(m, k);
    TotalWithout(n, k);
    forall j ensures Get(m - {k}, j) == Get(n - {k}, j) {
      assert j != k ==> Get(m, j) == Get(n, j);
    }
    TotalSame(m - {k}, n - {k});
  }

  ghost predicate Nonnegative<K(!new)>(m: map<K, int>) {
    forall k :: Get(m, k) >= 0
  }

  lemma {:induction false} RowAtMostTotal<K(!new)>(m: map<K, int>, k: K)
    requires Nonnegative(m)
    ensures 0 <= Get(m, k) <= Total(m)
    decreases |m|
  {
    TotalWithout(m, k);
    var n := m - {k};
    if n != map[] {
      var j :| j in n;
      forall i ensures Get(n, i) >= 0 { assert Get(m, i) >= 0; }
      if k in m { Shrinks(m, k); RowAtMostTotal(n, j); }
      else {
        assert n == m;
        Shrinks(m, j);
        TotalWithout(m, j);
        forall i ensures Get(m - {j}, i) >= 0 { assert Get(m, i) >= 0; }
        RowAtMostTotal(m - {j}, k);
      }
    }
  }

  /** Two rows together are still at most the total. */
  lemma RowsAtMostTotal<K(!new)>(m: map<K, int>, k: K, j: K)
    requires Nonnegative(m) && k != j
    ensures Get(m, k) + Get(m, j) <= Total(m)
  {
    TotalWithout(m, k);
    forall i ensures Get(m - {k}, i) >= 0 { assert Get(m, i) >= 0; }
    RowAtMostTotal(m - {k}, j);
    assert Get(m - {k}, j) == Get(m, j);
  }
}
