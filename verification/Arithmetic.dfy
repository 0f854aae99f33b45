/** Division with remainder, stated without division. */
module Arithmetic {
  lemma MulMono(m: int, n: int, c: nat)
    requires m <= n
    ensures m * c <= n * c
  {
  }

  lemma UniqueQuotient(q: int, r: nat, q': int, r': nat, p: nat)
    requires r < p && r' < p
    requires q * p + r == q' * p + r'
    ensures q == q' && r == r'
  {
    if q < q' {
      MulMono(q + 1, q', p);
    } else if q' < q {
      MulMono(q' + 1, q, p);
    }
  }

  lemma DivMod(q: nat, p: nat, r: nat)
    requires r < p
    ensures (q * p + r) / p == q && (q * p + r) % p == r
  {
    var n := q * p + r;
    assert n == (n / p) * p + n % p;
    UniqueQuotient(q, r, n / p, n % p, p);
  }

  lemma MulBound(q: nat, n: nat, p: nat, r: nat)
    requires q < n && r < p
    ensures q * p + r < n * p
  {
    MulMono(q + 1, n, p);
    assert (q + 1) * p == q * p + p;
  }

  lemma DivBound(k: nat, n: nat, p: nat)
    requires k < n * p
    ensures p > 0 && k / p < n
  {
  }

  // Euclidean division, for quotients of either sign.
  lemma QuotientUnique(x: int, q: int, r: nat, m: nat)
    requires r < m && x == q * m + r
    ensures x / m == q && x % m == r
  {
    assert x == (x / m) * m + x % m;
    UniqueQuotient(q, r, x / m, x % m, m);
  }

  lemma ModShift(x: int, q: int, m: nat)
    requires m > 0
    ensures (x + q * m) % m == x % m && (x + q * m) / m == x / m + q
  {
    assert x == (x / m) * m + x % m;
    assert (x / m + q) * m == (x / m) * m + q * m;
    QuotientUnique(x + q * m, x / m + q, x % m, m);
  }

  lemma Distributes(a: int, b: int, c: int)
    ensures (a + b) * c == a * c + b * c
  {
  }

  lemma DivTimes(x: real, y: real)
    requires y != 0.0
    ensures x / y * y == x
  {
  }

  lemma TimesDiv(x: real, y: real)
    requires y != 0.0
    ensures x * y / y == x
  {
  }
}
