/** Facts about division, remainders and divisibility used by the sizing proofs. */
module Arithmetic {

  function Min(a: int, b: int): int {
    if a <= b then a else b
  }

  lemma DivModUnique(n: int, m: int, q: int, r: int)
    requires 0 <= r < m && n == q * m + r
    ensures n / m == q && n % m == r
  {
    var q', r' := n / m, n % m;
    assert n == q' * m + r';
    assert (q' - q) * m == r - r';
    if q < q' {
      MulAtLeast(q' - q, m);
    } else if q' < q {
      MulAtLeast(q - q', m);
    }
  }

  lemma MulAtLeast(k: int, m: int)
    requires k >= 1 && m >= 0
    ensures k * m >= m
  {
  }

  /** Removing a multiple of `m` leaves the remainder by `m` unchanged. */
  lemma ModShift(n: int, k: int, m: int)
    requires m > 0
    ensures (n + k * m) % m == n % m
    ensures (n + k * m) / m == n / m + k
  {
    var q, r := n / m, n % m;
    assert n + k * m == (q + k) * m + r by {
      assert (q + k) * m == q * m + k * m;
    }
    DivModUnique(n + k * m, m, q + k, r);
  }
}
