/** An absent-or-present value: the `T | null` and `T | undefined` of the service. */
module Options {
  datatype Option<+T> = None | Some(value: T) {
    function GetOr(default: T): T {
      match this
      case None => default
      case Some(v) => v
    }
  }
}

/** Totals over the values of a map, used wherever a `Map` of accumulators is summed up. */
module MapTotals {
  ghost function Total<K>(m: map<K, real>): real {
    if m == map[] then 0.0
    else
      var k :| k in m;
      m[k] + Total(m - {k})
  }

  /** The total does not depend on the order in which the keys are picked. */
  lemma {:induction false} TotalPick<K>(m: map<K, real>, k: K)
    requires k in m
    ensures Total(m) == m[k] + Total(m - {k})
    decreases |m|
  {
    var j :| j in m && Total(m) == m[j] + Total(m - {j});
    if j != k {
      TotalPick(m - {j}, k);
      TotalPick(m - {k}, j);
      assert m - {j} - {k} == m - {k} - {j};
    }
  }

  lemma {:induction false} TotalUpdate<K>(m: map<K, real>, k: K, v: real)
    ensures Total(m[k := v]) == Total(m) + v - (if k in m then m[k] else 0.0)
  {
    TotalPick(m[k := v], k);
    if k in m {
      TotalPick(m, k);
      assert m[k := v] - {k} == m - {k};
    } else {
      assert m[k := v] - {k} == m;
    }
  }
  function At<K>(m: map<K, real>, k: K): real { if k in m then m[k] else 0.0 }

  lemma TotalWithout<K>(m: map<K, real>, k: K)
    ensures Total(m) == At(m, k) + Total(m - {k})
    ensures |m - {k}| == |m| - (if k in m then 1 else 0)
    ensures forall j :: At(m - {k}, j) == if j == k then 0.0 else At(m, j)
  {
    if k in m {
      TotalPick(m, k);
      assert (m - {k}).Keys == m.Keys - {k};
    } else {
      assert m - {k} == m;
    }
  }

  /** Maps that differ only in entries of zero have the same total. */
  lemma {:induction false} SameTotals<K>(m: map<K, real>, n: map<K, real>)
    requires forall k :: At(m, k) == At(n, k)
    ensures Total(m) == Total(n)
    decreases |m| + |n|
  {
    hide Total, At;
    if k :| k in m || k in n {
      TotalWithout(m, k);
      TotalWithout(n, k);
      SameTotals(m - {k}, n - {k});
    } else {
      assert m == n;
    }
  }

  function Restricted<K>(m: map<K, real>, ks: set<K>): map<K, real> { map k | k in m && k in ks :: m[k] }

  lemma RestrictedWithout<K>(m: map<K, real>, ks: set<K>, k: K)
    ensures Restricted(m, ks) - {k} == Restricted(m - {k}, ks)
    ensures At(Restricted(m, ks), k) == if k in ks then At(m, k) else 0.0
  {
  }

  lemma OutsideWithout<K>(m: map<K, real>, ks: set<K>, k: K)
    ensures m - ks - {k} == m - {k} - ks
    ensures At(m - ks, k) == if k in ks then 0.0 else At(m, k)
  {
  }

  /** A total is the total within a set of keys plus the total outside. */
  lemma {:induction false} TotalSplit<K>(m: map<K, real>, ks: set<K>)
    ensures Total(m) == Total(Restricted(m, ks)) + Total(m - ks)
    decreases |m|
  {
    if k :| k in m {
      TotalWithout(m, k);
      TotalWithout(Restricted(m, ks), k);
      TotalWithout(m - ks, k);
      RestrictedWithout(m, ks, k);
      OutsideWithout(m, ks, k);
      hide Total, At, Restricted;
      TotalSplit(m - {k}, ks);
    } else {
      assert Restricted(m, ks) == map[] && m - ks == map[] && m == map[];
    }
  }
}
