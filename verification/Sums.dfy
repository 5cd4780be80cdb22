/** Finite sums over maps: the arithmetic behind every byte-accounting argument of the project. */
module Sums {

  datatype Option<+T> = None | Some(value: T)

  function Max(a: int, b: int): int { if a > b then a else b }

  function Min(a: int, b: int): int { if a < b then a else b }

  /** The sum of all values of a map. */
  ghost function Sum<K>(m: map<K, int>): int
    decreases m.Keys
  {
    if m == map[] then 0
    else
      var k :| k in m;
      m[k] + Sum(m - {k})
  }

  /** The sum does not depend on which entry is taken out first. */
  lemma {:induction false} SumSplit<K>(m: map<K, int>, k: K)
    requires k in m
    ensures Sum(m) == m[k] + Sum(m - {k})
    decreases m.Keys
  {
    var c :| c in m && Sum(m) == m[c] + Sum(m - {c});
    if c != k {
      SumSplit(m - {c}, k);
      SumSplit(m - {k}, c);
      assert m - {c} - {k} == m - {k} - {c};
    }
  }

  function At<K>(m: map<K, int>, k: K): int { if k in m then m[k] else 0 }

  /** Setting one entry changes the sum by exactly the change of that entry. */
  lemma SumSet<K>(m: map<K, int>, k: K, v: int)
    ensures Sum(m[k := v]) == Sum(m) - At(m, k) + v
  {
    SumSplit(m[k := v], k);
    assert m[k := v] - {k} == m - {k};
    if k in m {
      SumSplit(m, k);
    } else {
      assert m - {k} == m;
    }
  }

  /** Sums add up entry by entry. */
  lemma {:induction false} SumZip<K>(a: map<K, int>, b: map<K, int>, c: map<K, int>)
    requires a.Keys == b.Keys == c.Keys
    requires forall k :: k in a ==> c[k] == a[k] + b[k]
    ensures Sum(c) == Sum(a) + Sum(b)
    decreases a.Keys
  {
    if a == map[] {
      assert b == map[] && c == map[];
    } else {
      var k :| k in a;
      SumSplit(a, k);
      SumSplit(b, k);
      SumSplit(c, k);
      SumZip(a - {k}, b - {k}, c - {k});
    }
  }

  /** A pointwise larger map has a sum that is larger by at least the gap at any one entry. */
  lemma {:induction false} SumGap<K>(a: map<K, int>, b: map<K, int>, k: K)
    requires a.Keys == b.Keys
    requires forall j :: j in a ==> a[j] <= b[j]
    ensures Sum(a) <= Sum(b)
    ensures k in a ==> Sum(a) + (b[k] - a[k]) <= Sum(b)
    decreases a.Keys
  {
    if a == map[] {
      assert b == map[];
    } else if k in a {
      SumSplit(a, k);
      SumSplit(b, k);
      SumGap(a - {k}, b - {k}, k);
    } else {
      var j :| j in a;
      SumSplit(a, j);
      SumSplit(b, j);
      SumGap(a - {j}, b - {j}, j);
    }
  }

  /** With no negative entry, every entry is at most the sum. */
  lemma SumBounds<K>(m: map<K, int>, k: K)
    requires forall j :: j in m ==> 0 <= m[j]
    ensures 0 <= Sum(m)
    ensures At(m, k) <= Sum(m)
  {
    var zero := map j | j in m :: 0;
    SumZero(zero);
    SumGap(zero, m, k);
  }

  lemma {:induction false} SumZero<K>(m: map<K, int>)
    requires forall j :: j in m ==> m[j] == 0
    ensures Sum(m) == 0
    decreases m.Keys
  {
    if m != map[] {
      var k :| k in m;
      SumSplit(m, k);
      SumZero(m - {k});
    }
  }

  /** A map that is zero away from `k` sums to its entry at `k`. */
  lemma SumSingle<K>(m: map<K, int>, k: K)
    requires forall j :: j in m && j != k ==> m[j] == 0
    ensures Sum(m) == At(m, k)
  {
    SumZero(m - {k});
    if k in m {
      SumSplit(m, k);
    } else {
      assert m - {k} == m;
    }
  }

  lemma OneLess(n: nat, m: nat, most: nat)
    requires n == m + 1
    ensures n * most == m * most + most
  {}

  /** A map that is at most `most` on a set of keys and at most zero elsewhere. */
  lemma {:induction false} SumAtMost<K>(m: map<K, int>, keys: set<K>, most: nat)
    requires forall k :: k in m ==> m[k] <= if k in keys then most else 0
    ensures Sum(m) <= |keys| * most
    decreases m.Keys
  {
    if m != map[] {
      var k :| k in m;
      SumSplit(m, k);
      SumAtMost(m - {k}, keys - {k}, most);
      if k in keys {
        OneLess(|keys|, |keys - {k}|, most);
      } else {
        assert keys - {k} == keys;
      }
    }
  }
}
