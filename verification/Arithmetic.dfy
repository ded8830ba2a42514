/** Facts about quotients and remainders that the solver does not find by itself. */
module Arithmetic {

  lemma MulMonotone(a: int, b: int, c: int)
    requires a <= b && 0 <= c
    ensures a * c <= b * c
  {
  }

  lemma ScaleLess(n: int, a: int, b: int)
    requires 0 < n && a < b
    ensures n * a < n * b
  {
  }

  lemma CancelLess(n: int, a: int, b: int)
    requires 0 < n && n * a < n * b
    ensures a < b
  {
    if b <= a {
      MulMonotone(b, a, n);
    }
  }

  lemma Distribute(a: int, b: int, c: int)
    ensures (a + b) * c == a * c + b * c && c * (a + b) == c * a + c * b
  {
  }

  lemma Regroup(a: int, b: int, c: int)
    ensures a * b * c == a * (b * c) && a * b * c == a * c * b
  {
  }

  /** The remainder and quotient are determined by any decomposition with a small remainder. */
  lemma DivModUnique(x: int, n: int, q: int, r: int)
    requires 0 < n && x == n * q + r && 0 <= r < n
    ensures x / n == q && x % n == r
  {
    var d := x / n;
    assert x == n * d + x % n;
    assert n * (q - d) == x % n - r;
    if q - d >= 1 {
      MulMonotone(1, q - d, n);
    } else if q - d <= -1 {
      MulMonotone(1, d - q, n);
    }
  }

  lemma AddMultiple(x: int, n: int, k: int)
    requires 0 < n
    ensures (x + n * k) % n == x % n
  {
    assert x == n * (x / n) + x % n;
    assert x + n * k == n * (x / n + k) + x % n;
    DivModUnique(x + n * k, n, x / n + k, x % n);
  }

  lemma StepAround(x: int, n: int)
    requires 0 < n
    ensures (x % n + 1) % n == (x + 1) % n
  {
    assert x + 1 == x % n + 1 + n * (x / n);
    AddMultiple(x % n + 1, n, x / n);
  }

  lemma Wrap(x: int, n: int)
    requires 0 < n && 0 <= x < 2 * n
    ensures x % n == if x < n then x else x - n
  {
    DivModUnique(x, n, if x < n then 0 else 1, if x < n then x else x - n);
  }
}
