/** Sums over the values of a finite map, the form every ledger total takes. */
module Sums {

  ghost function Sum<K>(m: map<K, int>): int
  {
    if m == map[] then 0
    else
      var k :| k in m;
      m[k] + Sum(m - {k})
  }

  /** The sum does not depend on which key is taken out first. */
  lemma {:induction false} SumRemove<K>(m: map<K, int>, k: K)
    requires k in m
    ensures Sum(m) == m[k] + Sum(m - {k})
    decreases |m|
  {
    var c :| c in m && Sum(m) == m[c] + Sum(m - {c});
    if c != k {
      SumRemove(m - {c}, k);
      SumRemove(m - {k}, c);
      assert m - {c} - {k} == m - {k} - {c};
    }
  }

  lemma SumSet<K>(m: map<K, int>, k: K, v: int)
    ensures Sum(m[k := v]) == Sum(m - {k}) + v
    ensures k !in m ==> Sum(m[k := v]) == Sum(m) + v
    ensures k in m ==> Sum(m[k := v]) == Sum(m) - m[k] + v
  {
    var m' := m[k := v];
    SumRemove(m', k);
    assert m' - {k} == m - {k};
    if k in m {
      SumRemove(m, k);
    } else {
      assert m - {k} == m;
    }
  }

  /** Dropping a set of keys splits the sum. */
  lemma {:induction false} SumSplit<K>(m: map<K, int>, part: map<K, int>)
    requires part.Keys <= m.Keys
    requires forall k | k in part :: part[k] == m[k]
    ensures Sum(m) == Sum(part) + Sum(m - part.Keys)
    decreases |part|
  {
    if part == map[] {
      assert m - part.Keys == m;
    } else {
      var k :| k in part;
      SumSplit(m - {k}, part - {k});
      SumRemove(m, k);
      SumRemove(part, k);
      assert m - {k} - (part - {k}).Keys == m - part.Keys;
    }
  }

  lemma {:induction false} SumNonNegative<K>(m: map<K, int>)
    requires forall k | k in m :: 0 <= m[k]
    ensures 0 <= Sum(m)
    decreases |m|
  {
    if m != map[] {
      var k :| k in m && Sum(m) == m[k] + Sum(m - {k});
      SumNonNegative(m - {k});
    }
  }

  /** Two maps that agree on their keys have the same sum. */
  lemma SumSame<K>(m: map<K, int>, n: map<K, int>)
    requires m.Keys == n.Keys && forall k | k in m :: m[k] == n[k]
    ensures Sum(m) == Sum(n)
  {
    assert m == n;
  }

  function At<K>(m: map<K, int>, k: K): int {
    if k in m then m[k] else 0
  }

  /** Maps that agree except at one key differ in their sums by what that key holds. */
  lemma SumExcept<K>(m: map<K, int>, n: map<K, int>, k: K)
    requires forall j | j in m && j != k :: j in n && n[j] == m[j]
    requires forall j | j in n && j != k :: j in m
    ensures Sum(n) - At(n, k) == Sum(m) - At(m, k)
  {
    SumWithout(m, k);
    SumWithout(n, k);
    SumSame(m - {k}, n - {k});
  }

  lemma SumWithout<K>(m: map<K, int>, k: K)
    ensures Sum(m - {k}) == Sum(m) - At(m, k)
  {
    if k in m {
      SumRemove(m, k);
    } else {
      assert m - {k} == m;
    }
  }

  lemma SumRemoveTwo<K>(m: map<K, int>, j: K, k: K)
    requires j in m && k in m && j != k
    ensures Sum(m) == m[j] + m[k] + Sum(m - {j, k})
  {
    SumRemove(m, j);
    SumRemove(m - {j}, k);
    assert m - {j} - {k} == m - {j, k};
  }

  /** How much key `k` gains when `amount` moves from `down` to `up`. */
  function Shift<K(==)>(k: K, up: K, down: K, amount: int): int {
    (if k == up then amount else 0) - (if k == down then amount else 0)
  }

  /** What one key gains another loses: the sum stays. */
  lemma SumShift<K>(m: map<K, int>, shifted: map<K, int>, up: K, down: K, amount: int)
    requires up in m && down in m && shifted.Keys == m.Keys
    requires forall k | k in m :: shifted[k] == m[k] + Shift(k, up, down, amount)
    ensures Sum(shifted) == Sum(m)
  {
    if up == down {
      assert shifted == m;
    } else {
      SumRemoveTwo(m, up, down);
      SumRemoveTwo(shifted, up, down);
      SumSame(m - {up, down}, shifted - {up, down});
    }
  }
}
