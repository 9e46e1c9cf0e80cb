/** Trades, and sums over the entries of a symbol table. */
module Trades {

  datatype Direction = HOLD | LONG | SHORT | FLAT

  datatype Trade = Trade(symbol: string, direction: Direction, price: real, quantity: real)

  /** What q units are worth at a price. */
  function Value(q: real, price: real): real { q * price }

  lemma ValueSplit(a: real, b: real, price: real)
    ensures Value(a + b, price) == Value(a, price) + Value(b, price)
    ensures Value(0.0, price) == 0.0
  {
  }

  /** The sum of f over the entries; the order in which a hash map yields them does not matter. */
  ghost function Sum<V>(m: map<string, V>, f: V -> real): real {
    if m == map[] then 0.0
    else
      var k :| k in m;
      f(m[k]) + Sum(m - {k}, f)
  }

  lemma {:induction false} SumSplit<V>(m: map<string, V>, k: string, f: V -> real)
    requires k in m
    ensures Sum(m, f) == f(m[k]) + Sum(m - {k}, f)
  {
    var j :| j in m && Sum(m, f) == f(m[j]) + Sum(m - {j}, f);
    if j != k {
      SumSplit(m - {j}, k, f);
      SumSplit(m - {k}, j, f);
      assert m - {j} - {k} == m - {k} - {j};
    }
  }

  lemma SumEmpty<V>(f: V -> real)
    ensures Sum(map[], f) == 0.0
  {
  }

  lemma {:induction false} SumOfZeros<V>(m: map<string, V>, f: V -> real)
    requires forall k <- m :: f(m[k]) == 0.0
    ensures Sum(m, f) == 0.0
  {
    if m != map[] {
      var k :| k in m;
      SumSplit(m, k, f);
      SumOfZeros(m - {k}, f);
    }
  }

  /** Replacing or adding one entry. */
  lemma SumUpdate<V>(m: map<string, V>, k: string, v: V, f: V -> real)
    ensures Sum(m[k := v], f) == Sum(m, f) - (if k in m then f(m[k]) else 0.0) + f(v)
  {
    SumSplit(m[k := v], k, f);
    assert m[k := v] - {k} == m - {k};
    if k in m {
      SumSplit(m, k, f);
    } else {
      assert m - {k} == m;
    }
  }

  lemma SumRemove<V>(m: map<string, V>, k: string, f: V -> real)
    requires k in m
    ensures Sum(m - {k}, f) == Sum(m, f) - f(m[k])
  {
    SumSplit(m, k, f);
  }

  /** q is a whole number of units (shares, board lots, ...). */
  ghost predicate Multiple(q: real, unit: real) {
    exists k: int :: q == Units(k, unit)
  }

  function Units(k: int, unit: real): real { k as real * unit }

  lemma MultipleClosed(a: real, b: real, unit: real)
    requires Multiple(a, unit) && Multiple(b, unit)
    ensures Multiple(a + b, unit) && Multiple(a - b, unit) && Multiple(0.0, unit)
  {
    var j: int :| a == Units(j, unit);
    var k: int :| b == Units(k, unit);
    assert a + b == Units(j + k, unit);
    assert a - b == Units(j - k, unit);
    assert 0.0 == Units(0, unit);
  }

  lemma UnitsBound(k: int, unit: real)
    requires unit > 0.0
    ensures k >= 1 ==> Units(k, unit) >= unit
    ensures k <= -1 ==> Units(k, unit) <= -unit
    ensures k == 0 ==> Units(k, unit) == 0.0
  {
    if k >= 1 {
      assert Units(k, unit) == unit + (k - 1) as real * unit;
    } else if k <= -1 {
      assert Units(k, unit) == -unit + (k + 1) as real * unit;
    }
  }

  /** Two multiples that differ by less than a unit are equal. */
  lemma MultiplesApart(a: real, b: real, unit: real)
    requires unit > 0.0 && Multiple(a, unit) && Multiple(b, unit)
    requires a <= b < a + unit
    ensures a == b
  {
    MultipleClosed(b, a, unit);
    var k: int :| b - a == Units(k, unit);
    UnitsBound(k, unit);
  }
}
