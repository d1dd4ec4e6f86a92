/** Facts about multiplication, division and remainder that the solver does not find on its own. */
module Arithmetic {

  lemma MulAtLeast(n: nat, d: int)
    requires d >= 1
    ensures n * d >= n
  {
    assert n * d == n + n * (d - 1);
  }

  lemma Distribute(n: int, a: int, b: int)
    ensures n * (a - b) == n * a - n * b
    ensures n * (a + b) == n * a + n * b
  {
  }

  /** Quotient and remainder are determined by x == n * q + r with 0 <= r < n. */
  lemma DivModUnique(x: int, n: nat, q: int, r: int)
    requires 0 <= r < n && x == n * q + r
    ensures x / n == q && x % n == r
  {
    var q', r' := x / n, x % n;
    assert x == n * q' + r' && 0 <= r' < n;
    Distribute(n, q, q');
    Distribute(n, q', q);
    if q > q' {
      MulAtLeast(n, q - q');
    } else if q' > q {
      MulAtLeast(n, q' - q);
    }
  }

  lemma AddMultiple(x: int, n: nat, q: int)
    requires n > 0
    ensures (x + n * q) % n == x % n
  {
    Distribute(n, x / n, q);
    DivModUnique(x + n * q, n, x / n + q, x % n);
  }

  /** Taking the remainder off leaves a multiple. */
  lemma WithoutRemainder(x: int, n: nat)
    requires n > 0
    ensures (x - x % n) % n == 0
  {
    DivModUnique(x - x % n, n, x / n, 0);
  }
}
