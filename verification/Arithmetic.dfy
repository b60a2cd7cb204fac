/** Quotients, for numbers read digit by digit. */
module Arithmetic {

  lemma Quotient(v: nat, m: nat, q: nat, r: nat)
    requires v == m * q + r && r < m
    ensures v / m == q
  {
    var a, e := v / m, v % m;
    assert v == m * a + e;
    assert m * (a - q) == r - e;
    if a > q { Larger(m, a - q); }
    if a < q { Larger(m, q - a); }
  }

  lemma Larger(m: nat, d: nat)
    requires d > 0
    ensures m * d >= m
  {
  }

  /** A number with one digit more, divided by a power with one more factor. */
  lemma DigitFirst(a: nat, v: nat, base: nat, m: nat)
    requires a < base && m > 0
    ensures base * m > 0 && (a + base * v) / (base * m) == v / m
  {
    var q, e := v / m, v % m;
    Larger(m, base);
    assert v == m * q + e;
    Factors(a, base, m, q, e);
    Quotient(a + base * v, base * m, q, a + base * e);
  }

  lemma Factors(a: nat, base: nat, m: nat, q: nat, e: nat)
    requires a < base && e < m
    ensures a + base * (m * q + e) == (base * m) * q + (a + base * e) && a + base * e < base * m
  {
    assert base * (m * q + e) == base * (m * q) + base * e;
    assert base * (m * q) == (base * m) * q;
    assert base * e <= base * (m - 1);
  }
}
