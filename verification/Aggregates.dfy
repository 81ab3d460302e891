/** SUM, COALESCE(MAX, 0) and COUNT over the rows of a table, and how one changed row moves them. */
module Aggregates {
  ghost function Sum<K>(m: map<K, int>): int {
    if m == map[] then 0
    else
      var k :| k in m;
      m[k] + Sum(m - {k})
  }

  ghost function Largest<K>(m: map<K, int>): int {
    if m == map[] then 0
    else
      var k :| k in m;
      var rest := m - {k};
      if rest == map[] || m[k] >= Largest(rest) then m[k] else Largest(rest)
  }

  /** The sum does not depend on the order in which rows are visited. */
  lemma {:induction false} SumMinus<K>(m: map<K, int>, k: K)
    requires k in m
    ensures Sum(m) == m[k] + Sum(m - {k})
  {
    var c :| c in m && Sum(m) == m[c] + Sum(m - {c});
    if c != k {
      SumMinus(m - {c}, k);
      SumMinus(m - {k}, c);
      assert m - {c} - {k} == m - {k} - {c};
    }
  }

  lemma SumPut<K>(m: map<K, int>, k: K, x: int)
    ensures Sum(m[k := x]) == Sum(m) - (if k in m then m[k] else 0) + x
  {
    SumMinus(m[k := x], k);
    if k in m {
      SumMinus(m, k);
      assert m[k := x] - {k} == m - {k};
    } else {
      assert m[k := x] - {k} == m;
    }
  }

  lemma SumDrop<K>(m: map<K, int>, k: K)
    ensures Sum(m - {k}) == Sum(m) - (if k in m then m[k] else 0)
  {
    if k in m {
      SumMinus(m, k);
    } else {
      assert m - {k} == m;
    }
  }

  /** Largest is the maximum of the rows, and 0 exactly as COALESCE gives it when there are none. */
  lemma {:induction false} LargestIsMaximum<K>(m: map<K, int>)
    ensures m != map[] ==> Largest(m) in m.Values && forall k :: k in m ==> m[k] <= Largest(m)
    ensures m == map[] ==> Largest(m) == 0
  {
    if m != map[] {
      var c :| c in m && Largest(m) == var rest := m - {c};
                                       if rest == map[] || m[c] >= Largest(rest) then m[c] else Largest(rest);
      var rest := m - {c};
      LargestIsMaximum(rest);
      assert forall k :: k in m ==> k == c || (k in rest && rest[k] == m[k]);
      if Largest(m) != m[c] {
        var k :| k in rest && rest[k] == Largest(rest);
        assert m[k] == Largest(m);
      }
    }
  }

  lemma LargestUnique<K>(m: map<K, int>, x: int)
    requires if m == map[] then x == 0 else x in m.Values && forall k :: k in m ==> m[k] <= x
    ensures x == Largest(m)
  {
    LargestIsMaximum(m);
  }

  lemma LargestPut<K>(m: map<K, int>, k: K, x: int)
    requires k !in m
    ensures Largest(m[k := x]) == if m == map[] || x > Largest(m) then x else Largest(m)
  {
    var m', y := m[k := x], if m == map[] || x > Largest(m) then x else Largest(m);
    LargestIsMaximum(m);
    assert m'[k] == x;
    if y != x {
      var j :| j in m && m[j] == y;
      assert m'[j] == y;
    }
    LargestUnique(m', y);
  }

  /** SELECT COUNT(*), COALESCE(MAX(v), 0), COALESCE(SUM(v), 0) */
  method Aggregate(m: map<nat, int>) returns (count: nat, largest: int, total: int)
    ensures count == |m| && largest == Largest(m) && total == Sum(m)
  {
    count, largest, total := 0, 0, 0;
    var rest := m.Keys;
    ghost var seen: map<nat, int> := map[];
    while rest != {}
      invariant rest <= m.Keys
      invariant forall k :: k in seen <==> k in m && k !in rest
      invariant forall k :: k in seen ==> seen[k] == m[k]
      invariant count == |seen| && largest == Largest(seen) && total == Sum(seen)
      decreases |rest|
    {
      var k :| k in rest;
      SumPut(seen, k, m[k]);
      LargestPut(seen, k, m[k]);
      if count == 0 || m[k] > largest {
        largest := m[k];
      }
      count, total := count + 1, total + m[k];
      seen := seen[k := m[k]];
      rest := rest - {k};
    }
    assert seen == m;
  }
}
