/** Sums over the values of a finite map, independent of the order a loop visits the keys. */
module MapSum {

  ghost function Sum<K(!new)>(m: map<K, real>): (total: real)
    decreases |m|
  {
    if m == map[] then 0.0
    else
      var k :| k in m;
      m[k] + Sum(m - {k})
  }

  /** Any key may be taken out first. */
  lemma {:induction false} SumWithout<K(!new)>(m: map<K, real>, k: K)
    requires k in m
    ensures Sum(m) == m[k] + Sum(m - {k})
    decreases |m|
  {
    var first :| first in m && Sum(m) == m[first] + Sum(m - {first});
    if first != k {
      SumWithout(m - {first}, k);
      SumWithout(m - {k}, first);
      assert m - {first} - {k} == m - {k} - {first};
    }
  }

  lemma SumUpdate<K(!new)>(m: map<K, real>, k: K, v: real)
    ensures Sum(m[k := v]) == Sum(m) - (if k in m then m[k] else 0.0) + v
  {
    SumWithout(m[k := v], k);
    if k in m {
      SumWithout(m, k);
      assert m[k := v] - {k} == m - {k};
    } else {
      assert m[k := v] - {k} == m;
    }
  }

  /** One step of a loop that takes key after key out of `todo` and adds its value. */
  lemma SumStep<K(!new)>(m: map<K, real>, todo: set<K>, k: K)
    requires k in todo && todo <= m.Keys
    ensures Sum(m - (todo - {k})) == Sum(m - todo) + m[k]
  {
    var bigger := m - (todo - {k});
    SumWithout(bigger, k);
    assert bigger - {k} == m - todo;
  }
}
