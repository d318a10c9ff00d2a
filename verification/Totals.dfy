/** Weighted sums over the entries of a finite map. */
module Totals {
  ghost function Total<K(!new), V>(m: map<K, V>, w: V -> nat): nat
    decreases |m|
  {
    if m == map[] then 0
    else
      var k :| k in m;
      assert (m - {k}).Keys == m.Keys - {k};
      w(m[k]) + Total(m - {k}, w)
  }

  /** Any entry can be taken out first. */
  lemma {:induction false} TotalSplit<K(!new), V>(m: map<K, V>, w: V -> nat, k: K)
    requires k in m
    ensures Total(m, w) == w(m[k]) + Total(m - {k}, w)
    decreases |m|
  {
    var first :| first in m && Total(m, w) == w(m[first]) + Total(m - {first}, w);
    if first != k {
      assert (m - {first}).Keys == m.Keys - {first} && (m - {k}).Keys == m.Keys - {k};
      TotalSplit(m - {first}, w, k);
      TotalSplit(m - {k}, w, first);
      assert m - {first} - {k} == m - {k} - {first};
    }
  }

  /** Changing or adding one entry changes the sum by that entry's weight. */
  lemma TotalUpdate<K(!new), V>(m: map<K, V>, w: V -> nat, k: K, v: V)
    ensures Total(m[k := v], w) == Total(m, w) + w(v) - if k in m then w(m[k]) else 0
  {
    TotalSplit(m[k := v], w, k);
    assert m[k := v] - {k} == m - {k};
    if k in m {
      TotalSplit(m, w, k);
    } else {
      assert m - {k} == m;
    }
  }

  /** A sum is zero exactly when every weight is. */
  lemma {:induction false} TotalZero<K(!new), V>(m: map<K, V>, w: V -> nat)
    ensures Total(m, w) == 0 <==> forall k :: k in m ==> w(m[k]) == 0
    decreases |m|
  {
    if m != map[] {
      var k :| k in m && Total(m, w) == w(m[k]) + Total(m - {k}, w);
      assert (m - {k}).Keys == m.Keys - {k};
      TotalZero(m - {k}, w);
      assert forall j :: j in m ==> j == k || j in m - {k};
    }
  }
}
