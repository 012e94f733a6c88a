/** The total of a map of counters, in whatever order it is added up. */
module MapSums {
  ghost function Total<K>(m: map<K, nat>): nat
    decreases |m|
  {
    if m == map[] then 0 else
    var k :| k in m;
    m[k] + Total(m - {k})
  }

  lemma {:induction false} TotalWithout<K>(m: map<K, nat>, k: K)
    requires k in m
    ensures Total(m) == m[k] + Total(m - {k})
    decreases |m|
  {
    var first :| first in m && Total(m) == m[first] + Total(m - {first});
    if first != k {
      TotalWithout(m - {first}, k);
      TotalWithout(m - {k}, first);
      assert m - {first} - {k} == m - {k} - {first};
    }
  }

  function Get<K(==)>(m: map<K, nat>, k: K): nat { if k in m then m[k] else 0 }

  /** `n` more under one key, which need not be there yet. */
  function Bump<K(==)>(m: map<K, nat>, k: K, n: nat): map<K, nat> { m[k := Get(m, k) + n] }

  /** Counting `n` more under one key raises the total by `n`. */
  lemma TotalBump<K>(m: map<K, nat>, k: K, n: nat)
    ensures Total(m[k := Get(m, k) + n]) == Total(m) + n
  {
    var m' := m[k := Get(m, k) + n];
    TotalWithout(m', k);
    assert m' - {k} == m - {k};
    if k in m {
      TotalWithout(m, k);
    } else {
      assert m - {k} == m;
    }
  }

  /** Counters added key by key. */
  function AddCounters<K(==)>(a: map<K, nat>, b: map<K, nat>): map<K, nat> {
    map k | k in a.Keys + b.Keys :: Get(a, k) + Get(b, k)
  }

  lemma MoveOne<K>(a: map<K, nat>, b: map<K, nat>, k: K)
    requires k in b
    ensures AddCounters(a, b) == AddCounters(a[k := Get(a, k) + b[k]], b - {k})
  {
    var a', b' := a[k := Get(a, k) + b[k]], b - {k};
    assert a.Keys + b.Keys == a'.Keys + b'.Keys;
    forall j | j in a.Keys + b.Keys
      ensures Get(a, j) + Get(b, j) == Get(a', j) + Get(b', j)
    {
    }
  }

  /** What moving one key from `b` to `a` does to the totals. */
  lemma StepTotals<K>(a: map<K, nat>, b: map<K, nat>, k: K)
    requires k in b
    ensures Total(AddCounters(a, b)) == Total(AddCounters(a[k := Get(a, k) + b[k]], b - {k}))
    ensures Total(a[k := Get(a, k) + b[k]]) == Total(a) + b[k]
    ensures Total(b) == b[k] + Total(b - {k})
  {
    MoveOne(a, b, k);
    TotalBump(a, k, b[k]);
    TotalWithout(b, k);
  }

  lemma NothingAdded<K>(a: map<K, nat>, b: map<K, nat>)
    requires b == map[]
    ensures Total(AddCounters(a, b)) == Total(a) + Total(b)
  {
    assert AddCounters(a, b) == a;
  }

  /** Adding counters key by key adds their totals. */
  lemma {:induction false} TotalOfSum<K>(a: map<K, nat>, b: map<K, nat>)
    ensures Total(AddCounters(a, b)) == Total(a) + Total(b)
    decreases |b|, 1
  {
    if b == map[] {
      NothingAdded(a, b);
    } else {
      TotalOfSumStep(a, b);
    }
  }

  lemma {:induction false} TotalOfSumStep<K>(a: map<K, nat>, b: map<K, nat>)
    requires b != map[]
    ensures Total(AddCounters(a, b)) == Total(a) + Total(b)
    decreases |b|, 0
  {
    var k :| k in b;
    StepTotals(a, b, k);
    TotalOfSum(a[k := Get(a, k) + b[k]], b - {k});
  }

  /** The items of one counter map added to another, in whatever order they come. */
  method AddItems<K(==)>(into: map<K, nat>, items: map<K, nat>) returns (m: map<K, nat>)
    ensures m == AddCounters(into, items)
  {
    m := into;
    var rest := items.Keys;
    while rest != {}
      invariant rest <= items.Keys
      invariant m == AddCounters(into, items - rest)
      decreases rest
    {
      var k :| k in rest;
      m := m[k := Get(m, k) + items[k]];
      rest := rest - {k};
    }
    assert items - {} == items;
  }
}
