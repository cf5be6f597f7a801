/** Products, quotients and remainders of unbounded integers. */
module Arithmetic {

  lemma Monotone(a: int, b: int, n: int)
    requires a <= b && n > 0
    ensures a * n <= b * n
  {
    assert (b - a) * n >= 0;
  }

  lemma NegativeProduct(k: int, size: int)
    requires k < 0 && size > 0
    ensures k * size + size <= 0
  {
    assert k * size + size == (k + 1) * size;
    Monotone(k + 1, 0, size);
  }

  lemma Quotient(a: int, b: int, q: int)
    requires b > 0 && q == a / b
    ensures q * b <= a < q * b + b
  {
  }

  lemma SmallQuotient(a: nat, b: int, n: int)
    requires b > 0 && a < n * b
    ensures 0 <= a / b < n
  {
    var q := a / b;
    Quotient(a, b, q);
    if q >= n {
      Monotone(n, q, b);
    }
  }

  /** A quotient and remainder are the only ones. */
  lemma RemainderOf(q: int, r: int, n: int)
    requires n > 0 && 0 <= r < n
    ensures (q * n + r) % n == r
  {
    var d, s := (q * n + r) / n, (q * n + r) % n;
    Quotient(q * n + r, n, d);
    assert (q - d) * n == q * n - d * n;
    assert s == q * n + r - d * n;
    if q - d > 0 {
      Monotone(1, q - d, n);
    } else if q - d < 0 {
      NegativeProduct(q - d, n);
    }
  }

  lemma QuotientOf(q: int, r: int, n: int)
    requires n > 0 && 0 <= r < n
    ensures (q * n + r) / n == q
  {
    RemainderOf(q, r, n);
    var d := (q * n + r) / n;
    assert d * n == q * n;
    assert (q - d) * n == 0;
  }

  lemma Multiple(k: int, n: int)
    requires n > 0
    ensures k * n % n == 0
  {
    RemainderOf(k, 0, n);
  }

  lemma Opposite(a: int, n: int)
    requires n > 0 && a % n == 0
    ensures -a % n == 0
  {
    assert a == a / n * n;
    assert -a == (-(a / n)) * n;
    Multiple(-(a / n), n);
  }
}
