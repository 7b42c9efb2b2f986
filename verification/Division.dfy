/** Quotients and products, as the arithmetic of several parts needs them. */
module Division {

  lemma ScaleUp(m: nat, a: int, b: int)
    requires a <= b
    ensures m * a <= m * b
  {
  }

  lemma StepUp(m: nat, k: int, j: int)
    requires k + 1 <= j
    ensures m * k + m <= m * j
  {
    ScaleUp(m, k + 1, j);
  }

  // A quotient is determined by its remainder.
  lemma QuotientIs(x: int, m: nat, k: int, r: int)
    requires 0 < m && x == m * k + r && 0 <= r < m
    ensures x / m == k && x % m == r
  {
    var j := x / m;
    assert x == m * j + x % m;
    if j < k { StepUp(m, j, k); }
    if k < j { StepUp(m, k, j); }
  }

  lemma QuotientBelow(x: nat, m: nat, n: nat)
    requires 0 < m && x < m * n
    ensures x / m < n
  {
    var j := x / m;
    assert x == m * j + x % m;
    if n <= j { ScaleUp(m, n, j); }
  }

  lemma FactorNotNegative(d: nat, z: int)
    requires 0 < d && 0 <= d * z
    ensures 0 <= z
  {
    if z < 0 { StepUp(d, z, 0); }
  }

  // The digits of x between low and low * count.
  lemma BitsBetween(x: int, low: nat, count: nat)
    requires 0 < low && 0 < count
    ensures 0 < low * count && x % (low * count) == low * ((x / low) % count) + x % low
  {
    var q, r := x / low, x % low;
    var k, m := q / count, q % count;
    assert x == low * q + r && q == count * k + m;
    assert x == (low * count) * k + (low * m + r) by { assert low * (count * k + m) == (low * count) * k + low * m; }
    StepUp(low, m, count);
    ScaleUp(low, 0, m);
    ScaleUp(low, 1, count);
    QuotientIs(x, low * count, k, low * m + r);
  }
}
