/** Division and remainder by a variable, spelled out for the solver. */
module Arithmetic {
  lemma ModuloSmall(m: nat, p: nat)
    requires m < p
    ensures m % p == m
  {}

  lemma ModuloBack(m: nat, p: nat)
    requires 1 <= p <= m
    ensures m % p == (m - p) % p
  {
    var q, r := m / p, m % p;
    assert m - p == (q - 1) * p + r;
    DivModUnique(m - p, p, q - 1, r);
  }

  lemma MultipleGap(a: int, b: int, p: nat)
    requires a < b
    ensures a * p + p <= b * p
  {
    assert b * p == a * p + p + (b - a - 1) * p;
  }

  lemma DivModUnique(m: int, p: nat, q: int, r: nat)
    requires r < p && m == q * p + r
    ensures m / p == q && m % p == r
  {
    var q' := m / p;
    if q < q' {
      MultipleGap(q, q', p);
    } else if q' < q {
      MultipleGap(q', q, p);
    }
  }

  /** The counter srank_next keeps instead of dividing. */
  lemma ModuloNext(m: nat, p: nat)
    requires 1 <= p
    ensures (m + 1) % p == if m % p + 1 == p then 0 else m % p + 1
  {
    var q, r := m / p, m % p;
    if r + 1 == p {
      assert m + 1 == (q + 1) * p + 0;
      DivModUnique(m + 1, p, q + 1, 0);
    } else {
      DivModUnique(m + 1, p, q, r + 1);
    }
  }

  /** A multiple index bounds the number: m < b * p as soon as m / p < b. */
  lemma QuotientBounds(m: nat, p: nat, b: nat)
    requires 1 <= p && m / p < b
    ensures m < b * p
  {
    MultipleGap(m / p, b, p);
  }
}
