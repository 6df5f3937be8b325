/** Integers and finite sets. */
module Numbers {
  function Min(a: int, b: int): int {
    if a < b then a else b
  }

  lemma SubsetSize<T>(a: set<T>, b: set<T>)
    requires a <= b
    ensures |a| <= |b|
    ensures |a| == |b| ==> a == b
  {
    assert b == a + (b - a);
    assert |b| == |a| + |b - a|;
  }

  lemma DivUnique(x: int, m: int, q: int, r: int)
    requires x == m * q + r && 0 <= r < m
    ensures x / m == q && x % m == r
  {
    QuotientBound(m, q, r, x / m, x % m);
    QuotientBound(m, x / m, x % m, q, r);
  }

  lemma QuotientBound(m: int, q: int, r: int, q': int, r': int)
    requires m * q + r == m * q' + r' && 0 <= r < m && 0 <= r' < m
    ensures q <= q'
  {
    assert m * (q - q') == m * q - m * q';
    if q > q' {
      AtLeast(m, q - q');
    }
  }

  lemma AtLeast(m: nat, d: nat)
    requires d > 0
    ensures m * d >= m
  {
  }

  lemma DivDiv(x: nat, a: nat, b: nat)
    requires a > 0 && b > 0
    ensures a * b > 0 && x / a / b == x / (a * b)
  {
    AtLeast(b, a);
    Nested(x, a, b, x / a, x % a, x / a / b, x / a % b);
    DivUnique(x, a * b, x / a / b, a * (x / a % b) + x % a);
  }

  lemma Nested(x: nat, a: nat, b: nat, q: nat, r: nat, s: nat, t: nat)
    requires x == a * q + r && q == b * s + t && r < a && t < b
    ensures x == a * b * s + (a * t + r) && a * t + r < a * b
  {
    Distribute(a, b * s, t);
    Associate(a, b, s);
    Distribute(a, t, b - t);
    AtLeast(a, b - t);
  }

  lemma Distribute(a: nat, x: nat, y: nat)
    ensures a * (x + y) == a * x + a * y
  {
  }

  lemma Associate(a: nat, b: nat, c: nat)
    ensures a * (b * c) == a * b * c
  {
  }
}
