/**
 * Arithmetic modulo a prime, from the definition of a prime: inverses, Euclid's
 * lemma and Fermat's theorem. Field elements are integers below the prime.
 */
module PrimeField {

  import opened Arithmetic

  predicate Divides(d: int, x: int)
    requires d != 0
  {
    x % d == 0
  }

  ghost predicate IsPrime(p: nat) {
    2 <= p && forall d: nat {:trigger Divides(d, p)} :: 2 <= d < p ==> !Divides(d, p)
  }

  ghost predicate Cong(a: int, b: int, p: nat)
    requires 0 < p
  {
    a % p == b % p
  }

  // ------------------------------------------------------------------ congruences

  lemma CongWitness(a: int, b: int, p: nat) returns (q: int)
    requires 0 < p && Cong(a, b, p)
    ensures a == b + p * q
  {
    q := a / p - b / p;
    assert a == p * (a / p) + a % p && b == p * (b / p) + b % p;
    Distribute(a / p, -(b / p), p);
  }

  lemma WitnessCong(a: int, b: int, p: nat, q: int)
    requires 0 < p && a == b + p * q
    ensures Cong(a, b, p)
  {
    AddMultiple(b, p, q);
  }

  lemma CongAdd(a: int, b: int, c: int, d: int, p: nat)
    requires 0 < p && Cong(a, b, p) && Cong(c, d, p)
    ensures Cong(a + c, b + d, p)
  {
    var q := CongWitness(a, b, p);
    var r := CongWitness(c, d, p);
    Distribute(q, r, p);
    WitnessCong(a + c, b + d, p, q + r);
  }

  lemma CongMul(a: int, b: int, c: int, d: int, p: nat)
    requires 0 < p && Cong(a, b, p) && Cong(c, d, p)
    ensures Cong(a * c, b * d, p)
  {
    var q := CongWitness(a, b, p);
    var r := CongWitness(c, d, p);
    Product(a, b, c, d, p, q, r);
    WitnessCong(a * c, b * d, p, b * r + q * d + q * p * r);
  }

  lemma Product(a: int, b: int, c: int, d: int, p: int, q: int, r: int)
    requires a == b + p * q && c == d + p * r
    ensures a * c == b * d + p * (b * r + q * d + q * p * r)
  {
  }

  lemma CongMod(a: int, p: nat)
    requires 0 < p
    ensures Cong(a % p, a, p)
  {
    AddMultiple(a % p, p, a / p);
  }

  lemma CongZero(a: int, p: nat)
    requires 0 < p
    ensures Cong(a, 0, p) <==> Divides(p, a)
  {
    DivModUnique(0, p, 0, 0);
  }

  // ---------------------------------------------------------- Euclid and inverses

  /** The greatest common divisor as a combination of the two numbers. */
  lemma {:induction false} Bezout(a: nat, b: nat) returns (g: nat, x: int, y: int)
    requires 0 < a + b
    ensures 0 < g && g == a * x + b * y && Divides(g, a) && Divides(g, b)
    decreases b
  {
    if b == 0 {
      g, x, y := a, 1, 0;
      DivModUnique(a, a, 1, 0);
      DivModUnique(0, a, 0, 0);
    } else {
      var u, v;
      g, u, v := Bezout(b, a % b);
      // g == b * u + (a - b * (a / b)) * v
      x, y := v, u - a / b * v;
      BezoutStep(a, b, u, v, a / b, a % b);
      DividesCombination(g, b, a % b, a / b);
      assert a == b * (a / b) + a % b;
    }
  }

  lemma BezoutStep(a: int, b: int, u: int, v: int, q: int, r: int)
    requires a == b * q + r
    ensures b * u + r * v == a * v + b * (u - q * v)
  {
  }

  lemma DividesCombination(g: nat, a: int, b: int, k: int)
    requires 0 < g && Divides(g, a) && Divides(g, b)
    ensures Divides(g, a * k + b)
  {
    assert a == g * (a / g) && b == g * (b / g);
    Regroup(g, a / g, k);
    Distribute(a / g * k, b / g, g);
    DivModUnique(a * k + b, g, a / g * k + b / g, 0);
  }

  lemma InverseExists(a: int, p: nat) returns (u: int)
    requires IsPrime(p) && !Divides(p, a)
    ensures Cong(a * u, 1, p)
  {
    var r := a % p;
    var g, x, y := Bezout(r, p);
    OnlyOneDivides(g, p, r);
    u := x;
    CongMod(a, p);
    CongMul(a, r, x, x, p);
    WitnessCong(r * x, 1, p, -y);
  }

  lemma OnlyOneDivides(g: nat, p: nat, r: nat)
    requires IsPrime(p) && 0 < r < p && 0 < g && Divides(g, p) && Divides(g, r)
    ensures g == 1
  {
    assert r == g * (r / g);
    assert r / g != 0;
    MulMonotone(1, r / g, g);
  }

  /** Euclid's lemma: a product is a multiple of a prime only if a factor is. */
  lemma Euclid(a: int, b: int, p: nat)
    requires IsPrime(p) && Divides(p, a * b)
    ensures Divides(p, a) || Divides(p, b)
  {
    if !Divides(p, a) {
      var u := InverseExists(a, p);
      CongZero(a * b, p);
      CongMul(a * b, 0, u, u, p);
      CongMul(a * u, 1, b, b, p);
      assert a * b * u == a * u * b;
      CongZero(b, p);
    }
  }

  lemma Cancel(a: int, b: int, c: int, p: nat)
    requires IsPrime(p) && !Divides(p, c) && Cong(a * c, b * c, p)
    ensures Cong(a, b, p)
  {
    var q := CongWitness(a * c, b * c, p);
    Distribute(a, -b, c);
    assert (a - b) * c == p * q;
    DivModUnique(p * q, p, q, 0);
    Euclid(a - b, c, p);
    assert a - b == p * ((a - b) / p);
    WitnessCong(a, b, p, (a - b) / p);
  }

  // ------------------------------------------------------------------------ powers

  function Pow(z: int, e: nat): int {
    if e == 0 then 1 else z * Pow(z, e - 1)
  }

  lemma {:induction false} PowAdd(z: int, a: nat, b: nat)
    ensures Pow(z, a + b) == Pow(z, a) * Pow(z, b)
  {
    if a == 0 {
    } else {
      PowAdd(z, a - 1, b);
      Regroup(z, Pow(z, a - 1), Pow(z, b));
    }
  }

  lemma {:induction false} PowMul(z: int, a: nat, b: nat)
    ensures Pow(z, a * b) == Pow(Pow(z, a), b)
  {
    if b == 0 {
    } else {
      PowMul(z, a, b - 1);
      Distribute(b - 1, 1, a);
      PowAdd(z, a, a * (b - 1));
    }
  }

  lemma {:induction false} PowProduct(x: int, y: int, e: nat)
    ensures Pow(x * y, e) == Pow(x, e) * Pow(y, e)
  {
    if e == 0 {
    } else {
      PowProduct(x, y, e - 1);
      FourFactors(x, y, Pow(x, e - 1), Pow(y, e - 1));
    }
  }

  lemma FourFactors(a: int, b: int, c: int, d: int)
    ensures a * b * (c * d) == a * c * (b * d)
  {
  }

  lemma {:induction false} PowCong(x: int, y: int, e: nat, p: nat)
    requires 0 < p && Cong(x, y, p)
    ensures Cong(Pow(x, e), Pow(y, e), p)
  {
    if e == 0 {
    } else {
      PowCong(x, y, e - 1, p);
      CongMul(x, y, Pow(x, e - 1), Pow(y, e - 1), p);
    }
  }

  // ---------------------------------------------------------------- Fermat's theorem

  function Binomial(n: nat, k: nat): nat {
    if k == 0 then 1
    else if n == 0 then 0
    else Binomial(n - 1, k - 1) + Binomial(n - 1, k)
  }

  lemma {:induction false} BinomialAbove(n: nat, k: nat)
    requires n < k
    ensures Binomial(n, k) == 0
  {
    if n == 0 {
    } else {
      BinomialAbove(n - 1, k - 1);
      BinomialAbove(n - 1, k);
    }
  }

  lemma {:induction false} BinomialDiagonal(n: nat)
    ensures Binomial(n, n) == 1
  {
    if n == 0 {
    } else {
      BinomialDiagonal(n - 1);
      BinomialAbove(n - 1, n);
    }
  }

  lemma {:induction false} Absorb(n: nat, k: nat)
    requires 1 <= n && 1 <= k
    ensures k * Binomial(n, k) == n * Binomial(n - 1, k - 1)
  {
    if n == 1 {
      if k > 1 {
        BinomialAbove(1, k);
        BinomialAbove(0, k - 1);
      }
    } else {
      var a, b := Binomial(n - 1, k - 1), Binomial(n - 1, k);
      Absorb(n - 1, k);
      Distribute(a, b, k);
      if k > 1 {
        var c, d := Binomial(n - 2, k - 2), Binomial(n - 2, k - 1);
        Absorb(n - 1, k - 1);
        assert a == c + d;
        Distribute(c, d, n - 1);
        Distribute(k - 1, 1, a);
        Distribute(n - 1, 1, a);
      }
    }
  }

  lemma PrimeDividesBinomial(p: nat, k: nat)
    requires IsPrime(p) && 1 <= k < p
    ensures Divides(p, Binomial(p, k))
  {
    Absorb(p, k);
    DivModUnique(k * Binomial(p, k), p, Binomial(p - 1, k - 1), 0);
    DivModUnique(k, p, 0, k);
    Euclid(k, Binomial(p, k), p);
  }

  function BinomialSum(n: nat, a: int, m: nat): int {
    var term := Binomial(n, m) * Pow(a, m);
    if m == 0 then term else BinomialSum(n, a, m - 1) + term
  }

  lemma {:induction false} BinomialSumStep(n: nat, a: int, m: nat)
    requires 1 <= n && 1 <= m
    ensures BinomialSum(n, a, m) == BinomialSum(n - 1, a, m) + a * BinomialSum(n - 1, a, m - 1)
  {
    var b, c, w := Binomial(n - 1, m - 1), Binomial(n - 1, m), Pow(a, m - 1);
    assert Binomial(n, m) * Pow(a, m) == c * Pow(a, m) + a * (b * w);
    if m == 1 {
      assert BinomialSum(n, a, 0) == BinomialSum(n - 1, a, 0) == 1;
    } else {
      BinomialSumStep(n, a, m - 1);
      Distribute(BinomialSum(n - 1, a, m - 2), b * w, a);
    }
  }

  lemma BinomialSumTop(n: nat, a: int)
    requires 1 <= n
    ensures BinomialSum(n - 1, a, n) == BinomialSum(n - 1, a, n - 1)
  {
    BinomialAbove(n - 1, n);
  }

  lemma {:induction false} BinomialTheorem(n: nat, a: int)
    ensures Pow(a + 1, n) == BinomialSum(n, a, n)
  {
    if n == 0 {
      assert BinomialSum(0, a, 0) == 1;
    } else {
      var sum := BinomialSum(n - 1, a, n - 1);
      BinomialTheorem(n - 1, a);
      BinomialSumStep(n, a, n);
      BinomialSumTop(n, a);
      Distribute(a, 1, sum);
    }
  }

  lemma {:induction false} SumVanishes(p: nat, a: int, m: nat)
    requires IsPrime(p) && m < p
    ensures Cong(BinomialSum(p, a, m), 1, p)
  {
    if m == 0 {
    } else {
      SumVanishes(p, a, m - 1);
      PrimeDividesBinomial(p, m);
      CongZero(Binomial(p, m), p);
      CongMul(Binomial(p, m), 0, Pow(a, m), Pow(a, m), p);
      CongAdd(BinomialSum(p, a, m - 1), 1, Binomial(p, m) * Pow(a, m), 0, p);
    }
  }

  lemma {:induction false} PowPrime(a: nat, p: nat)
    requires IsPrime(p)
    ensures Cong(Pow(a, p), a, p)
  {
    if a == 0 {
    } else {
      PowPrime(a - 1, p);
      BinomialTheorem(p, a - 1);
      SumVanishes(p, a - 1, p - 1);
      BinomialDiagonal(p);
      CongAdd(BinomialSum(p, a - 1, p - 1), 1, Pow(a - 1, p), a - 1, p);
    }
  }

  lemma Fermat(a: int, p: nat)
    requires IsPrime(p) && !Divides(p, a)
    ensures Cong(Pow(a, p - 1), 1, p)
  {
    var r := a % p;
    CongMod(a, p);
    PowCong(a, r, p, p);
    PowPrime(r, p);
    FermatCancel(a, p);
  }

  lemma FermatCancel(a: int, p: nat)
    requires IsPrime(p) && !Divides(p, a) && Cong(Pow(a, p), a, p)
    ensures Cong(Pow(a, p - 1), 1, p)
  {
    assert Pow(a, p) == a * Pow(a, p - 1);
    Cancel(Pow(a, p - 1), 1, a, p);
  }
}
