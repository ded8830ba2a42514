/**
 * Squares modulo a prime p = 8k + 5, such as 2^255 - 19, given a square root `i` of
 * minus one: Euler's criterion, and that two is not a square.
 */
module Residues {

  import opened Arithmetic
  import opened PrimeField

  ghost predicate Setting(p: nat, k: nat, i: int) {
    IsPrime(p) && p == 8 * k + 5 && Cong(i * i, -1, p)
  }

  /** Euler's power: z to the (p - 1) / 2. */
  function Chi(z: int, k: nat): int {
    Pow(z, 4 * k + 2)
  }

  ghost predicate IsSquare(z: int, p: nat)
    requires 0 < p
  {
    exists y :: Cong(y * y, z, p)
  }

  lemma Signs(p: nat)
    requires 3 <= p
    ensures 1 % p == 1 && (-1) % p == p - 1 && 0 % p == 0
    ensures !Cong(1, -1, p) && !Cong(0, 1, p) && !Cong(0, -1, p)
  {
    DivModUnique(1, p, 0, 1);
    DivModUnique(-1, p, -1, p - 1);
    DivModUnique(0, p, 0, 0);
  }

  lemma {:induction false} PowMinusOne(e: nat)
    ensures Pow(-1, e) == if e % 2 == 0 then 1 else -1
  {
    if e == 0 {
    } else {
      PowMinusOne(e - 1);
    }
  }

  lemma PowTwo(z: int)
    ensures Pow(z, 2) == z * z
  {
    assert Pow(z, 1) == z * Pow(z, 0);
    assert Pow(z, 2) == z * Pow(z, 1);
  }

  lemma ChiOfSquare(y: int, p: nat, k: nat, i: int)
    requires Setting(p, k, i) && !Divides(p, y)
    ensures Cong(Chi(y * y, k), 1, p)
  {
    PowTwo(y);
    PowMul(y, 2, 4 * k + 2);
    Fermat(y, p);
  }

  lemma ChiProduct(x: int, y: int, k: nat)
    ensures Chi(x * y, k) == Chi(x, k) * Chi(y, k)
  {
    PowProduct(x, y, 4 * k + 2);
  }

  /** i to the (p - 1) / 2 is minus one to an odd power. */
  lemma ChiOfRoot(p: nat, k: nat, i: int)
    requires Setting(p, k, i)
    ensures Cong(Chi(i, k), -1, p)
  {
    PowTwo(i);
    PowMul(i, 2, 2 * k + 1);
    PowCong(i * i, -1, 2 * k + 1, p);
    PowMinusOne(2 * k + 1);
  }

  /** (1 + i)^2 is 2i. */
  lemma OnePlusRoot(p: nat, k: nat, i: int)
    requires Setting(p, k, i)
    ensures !Divides(p, 1 + i) && Cong((1 + i) * (1 + i), 2 * i, p)
  {
    Signs(p);
    assert (1 + i) * (1 + i) == 1 + 2 * i + i * i;
    CongAdd(1 + 2 * i, 1 + 2 * i, i * i, -1, p);
    if Divides(p, 1 + i) {
      CongZero(1 + i, p);
      CongAdd(1 + i, 0, -1, -1, p);
      CongMul(i, -1, i, -1, p);
    }
  }

  /** Two is not a square. */
  lemma ChiOfTwo(p: nat, k: nat, i: int)
    requires Setting(p, k, i)
    ensures Cong(Chi(2, k), -1, p)
  {
    var s := 1 + i;
    OnePlusRoot(p, k, i);
    ChiOfSquare(s, p, k, i);
    PowCong(s * s, 2 * i, 4 * k + 2, p);
    ChiProduct(2, i, k);
    ChiOfRoot(p, k, i);
    var c, d := Chi(2, k), Chi(i, k);
    CongMul(c, c, d, -1, p);
    CongMul(c * -1, 1, -1, -1, p);
  }

  /** Euler's power is 1 or -1 for every non-zero element. */
  lemma ChiIsSign(z: int, p: nat, k: nat, i: int)
    requires Setting(p, k, i) && !Divides(p, z)
    ensures Cong(Chi(z, k), 1, p) || Cong(Chi(z, k), -1, p)
  {
    var c := Chi(z, k);
    PowTwo(c);
    PowMul(z, 4 * k + 2, 2);
    Fermat(z, p);
    SignRoots(c, p);
  }

  lemma SignRoots(c: int, p: nat)
    requires IsPrime(p) && Cong(c * c, 1, p)
    ensures Cong(c, 1, p) || Cong(c, -1, p)
  {
    CongAdd(c * c, 1, -1, -1, p);
    assert (c - 1) * (c + 1) == c * c - 1;
    CongZero((c - 1) * (c + 1), p);
    Euclid(c - 1, c + 1, p);
    if Divides(p, c - 1) {
      CongZero(c - 1, p);
      CongAdd(c - 1, 0, 1, 1, p);
    } else {
      CongZero(c + 1, p);
      CongAdd(c + 1, 0, -1, -1, p);
    }
  }

  /** z times an odd power of z is an even power. */
  lemma RootCandidate(z: int, k: nat)
    ensures Pow(z, k + 1) * Pow(z, k + 1) == z * Pow(z, 2 * k + 1)
  {
    PowAdd(z, k + 1, k + 1);
    assert Pow(z, 2 * k + 2) == z * Pow(z, 2 * k + 1);
  }

  /** Euler's criterion, with the square root in closed form. */
  lemma ChiOneIsSquare(z: int, p: nat, k: nat, i: int)
    requires Setting(p, k, i) && Cong(Chi(z, k), 1, p)
    ensures IsSquare(z, p)
  {
    var c, y := Pow(z, 2 * k + 1), Pow(z, k + 1);
    PowTwo(c);
    PowMul(z, 2 * k + 1, 2);
    SignRoots(c, p);
    RootCandidate(z, k);
    if Cong(c, 1, p) {
      CongMul(z, z, c, 1, p);
    } else {
      CongMul(z, z, c, -1, p);
      FourFactors(i, y, i, y);
      CongMul(i * i, -1, y * y, z * -1, p);
      FourFactors(i, i, y, y);
      assert Cong((i * y) * (i * y), z, p);
    }
  }

  lemma ChiCong(x: int, y: int, p: nat, k: nat)
    requires 0 < p && Cong(x, y, p)
    ensures Cong(Chi(x, k), Chi(y, k), p)
  {
    PowCong(x, y, 4 * k + 2, p);
  }

  /** A non-zero element is a square exactly when Euler's power is one. */
  lemma EulerCriterion(z: int, p: nat, k: nat, i: int)
    requires Setting(p, k, i) && !Divides(p, z)
    ensures IsSquare(z, p) <==> Cong(Chi(z, k), 1, p)
    ensures !IsSquare(z, p) <==> Cong(Chi(z, k), -1, p)
  {
    Signs(p);
    ChiIsSign(z, p, k, i);
    if Cong(Chi(z, k), 1, p) {
      ChiOneIsSquare(z, p, k, i);
    }
    if y :| Cong(y * y, z, p) {
      ChiCong(y * y, z, p, k);
      RootNonZero(y, z, p);
      ChiOfSquare(y, p, k, i);
    }
  }

  lemma RootNonZero(y: int, z: int, p: nat)
    requires 0 < p && Cong(y * y, z, p) && !Divides(p, z)
    ensures !Divides(p, y)
  {
    if Divides(p, y) {
      CongZero(y, p);
      CongMul(y, 0, y, 0, p);
      CongZero(z, p);
    }
  }
}
