/**
 * The fixed chain of squarings and multiplications that raises an element of the field
 * of curve25519 to the power (p - 1) / 2 (chi25519, vrf/vrfGo.go). The chain's meaning
 * does not depend on the modulus, which stays a parameter; only the last lemma is about
 * the number 2^255 - 19.
 */
module Chi25519 {

  import opened Arithmetic
  import opened PrimeField

  /** A product of field elements, modulo `p`. */
  function Mul(p: nat, a: int, b: int): (c: nat)
    requires 0 < p
    ensures c < p
  {
    (a * b) % p
  }

  function Square(p: nat, a: int): nat
    requires 0 < p
  {
    Mul(p, a, a)
  }

  /** Plain exponentiation, reduced at the end. */
  function PowMod(p: nat, z: int, e: nat): nat
    requires 0 < p
  {
    Pow(z, e) % p
  }

  function Two(n: nat): nat {
    if n == 0 then 1 else 2 * Two(n - 1)
  }

  /** The exponent whose binary digits are `n` ones. */
  function Ones(n: nat): nat
    ensures Ones(n) + 1 == Two(n)
  {
    if n == 0 then 0 else 2 * Ones(n - 1) + 1
  }

  lemma {:induction false} TwoAdd(a: nat, b: nat)
    ensures Two(a + b) == Two(a) * Two(b)
  {
    if a == 0 {
    } else {
      TwoAdd(a - 1, b);
      Regroup(2, Two(a - 1), Two(b));
    }
  }

  lemma OnesAppend(a: nat, b: nat)
    ensures Ones(a) * Two(b) + Ones(b) == Ones(a + b)
  {
    TwoAdd(a, b);
    Distribute(Ones(a), 1, Two(b));
  }

  lemma MulPow(p: nat, z: int, a: nat, b: nat)
    requires 0 < p
    ensures Mul(p, PowMod(p, z, a), PowMod(p, z, b)) == PowMod(p, z, a + b)
  {
    CongMod(Pow(z, a), p);
    CongMod(Pow(z, b), p);
    CongMul(PowMod(p, z, a), Pow(z, a), PowMod(p, z, b), Pow(z, b), p);
    PowAdd(z, a, b);
  }

  /** The first squarings of the chain take z itself, which need not be reduced. */
  lemma MulFirst(p: nat, z: int, a: nat)
    requires 0 < p
    ensures Mul(p, PowMod(p, z, a), z) == PowMod(p, z, a + 1)
    ensures Square(p, z) == PowMod(p, z, 2)
  {
    CongMod(Pow(z, a), p);
    CongMul(PowMod(p, z, a), Pow(z, a), z, z, p);
    assert Pow(z, a + 1) == z * Pow(z, a);
    assert Pow(z, 1) == z * Pow(z, 0) == z;
    assert Pow(z, 2) == z * Pow(z, 1);
  }

  /** A loop `for i = 1; i < n; i++` that squares in place: n - 1 squarings. */
  method SquareLoop(p: nat, z: int, start: nat, ghost e: nat, n: nat) returns (t: nat)
    requires 0 < p && 1 <= n && start == PowMod(p, z, e)
    ensures t == PowMod(p, z, e * Two(n - 1))
  {
    t := start;
    var i := 1;
    assert Two(0) == 1;
    while i < n
      invariant 1 <= i <= n && t == PowMod(p, z, e * Two(i - 1))
    {
      MulPow(p, z, e * Two(i - 1), e * Two(i - 1));
      assert Two(i) == 2 * Two(i - 1);
      Regroup(e, Two(i - 1), 2);
      t := Square(p, t);
      i := i + 1;
    }
  }

  /**
   * The step the chain repeats: with z to the power of `a` ones, and of `b` ones,
   * `b` squarings (the first before the loop) and a product give `a + b` ones.
   */
  method AppendOnes(p: nat, z: int, ta: nat, ghost a: nat, tb: nat, b: nat) returns (t: nat)
    requires 0 < p && 1 <= b && ta == PowMod(p, z, Ones(a)) && tb == PowMod(p, z, Ones(b))
    ensures t == PowMod(p, z, Ones(a + b))
  {
    MulPow(p, z, Ones(a), Ones(a));
    t := Square(p, ta);
    ghost var e := Ones(a) + Ones(a);
    t := SquareLoop(p, z, t, e, b);
    MulPow(p, z, e * Two(b - 1), Ones(b));
    AppendExponent(a, b);
    t := Mul(p, t, tb);
  }

  lemma AppendExponent(a: nat, b: nat)
    requires 1 <= b
    ensures (Ones(a) + Ones(a)) * Two(b - 1) + Ones(b) == Ones(a + b)
  {
    Regroup(Ones(a), 2, Two(b - 1));
    OnesAppend(a, b);
  }

  /** The exponent the chain produces, which is 2^254 - 10. */
  function ChainExponent(ones250: nat): nat {
    ones250 * 16 + 6
  }

  /** The eight loops compute z^(2^254 - 10) for every z. */
  method Chi(p: nat, z: int) returns (out: nat)
    requires 0 < p
    ensures out == PowMod(p, z, ChainExponent(Ones(250)))
  {
    var t0, t1 := ChainStart(p, z);
    t1 := AppendOnes(p, z, t1, 5, t1, 5);
    out := LongLoops(p, z, 10, t1, t0);
  }

  /** From `n` ones to twenty-five times as many, and the end of the chain. */
  method LongLoops(p: nat, z: int, n: nat, t: nat, t0: nat) returns (out: nat)
    requires 0 < p && 1 <= n && t == PowMod(p, z, Ones(n)) && t0 == PowMod(p, z, 6)
    ensures out == PowMod(p, z, ChainExponent(Ones(5 * (5 * n))))
  {
    var t1 := TimesFive(p, z, n, t);
    t1 := TimesFive(p, z, 5 * n, t1);
    out := ChainEnd(p, z, 5 * (5 * n), t1, t0);
  }

  /** From `n` ones to five times as many. */
  method TimesFive(p: nat, z: int, n: nat, tn: nat) returns (t1: nat)
    requires 0 < p && 1 <= n && tn == PowMod(p, z, Ones(n))
    ensures t1 == PowMod(p, z, Ones(5 * n))
  {
    var t2 := AppendOnes(p, z, tn, n, tn, n);
    var t3 := AppendOnes(p, z, t2, 2 * n, t2, 2 * n);
    t1 := AppendOnes(p, z, t3, 4 * n, tn, n);
  }

  method ChainStart(p: nat, z: int) returns (t0: nat, t1: nat)
    requires 0 < p
    ensures t0 == PowMod(p, z, 6) && t1 == PowMod(p, z, Ones(5))
  {
    MulFirst(p, z, 2);
    t0 := Square(p, z);
    t1 := Mul(p, t0, z);
    MulPow(p, z, 3, 3);
    t0 := Square(p, t1);
    MulPow(p, z, 6, 6);
    var t2 := Square(p, t0);
    MulPow(p, z, 12, 12);
    t2 := Square(p, t2);
    MulPow(p, z, 24, 6);
    t2 := Mul(p, t2, t0);
    MulFirst(p, z, 30);
    t1 := Mul(p, t2, z);
    assert Ones(5) == 31;
  }

  /** With `n` ones, shifted by four squarings, and z^6. */
  method ChainEnd(p: nat, z: int, ghost n: nat, t: nat, t0: nat) returns (out: nat)
    requires 0 < p && t == PowMod(p, z, Ones(n)) && t0 == PowMod(p, z, 6)
    ensures out == PowMod(p, z, ChainExponent(Ones(n)))
  {
    MulPow(p, z, Ones(n), Ones(n));
    var t1 := Square(p, t);
    t1 := SquareLoop(p, z, t1, Ones(n) + Ones(n), 4);
    Regroup(Ones(n), 2, Two(3));
    assert Two(3) == 8;
    MulPow(p, z, Ones(n) * 16, 6);
    out := Mul(p, t1, t0);
  }

  lemma EndExponent(n: nat)
    ensures ChainExponent(Ones(n)) + 10 == Two(n + 4)
  {
    TwoAdd(n, 4);
    assert Two(4) == 16;
  }

  lemma TwoValue(a: nat, x: nat, b: nat, y: nat)
    requires Two(a) == x && Two(b) == y
    ensures Two(a + b) == x * y
  {
    TwoAdd(a, b);
  }

  /** 2^255 - 19 in digits. */
  const P25519: nat := 57896044618658097711785492504343953926634992332820282019728792003956564819949

  lemma TwoTo254()
    ensures 2 * Two(254) == P25519 + 19
  {
    assert Two(1) == 2;
    TwoValue(1, 2, 1, 2);
    TwoValue(2, 4, 2, 4);
    TwoValue(4, 16, 4, 16);
    TwoValue(8, 256, 8, 256);
    TwoValue(16, 65536, 16, 65536);
    TwoValue(32, 4294967296, 32, 4294967296);
    TwoValue(64, 18446744073709551616, 64, 18446744073709551616);
    TwoValue(128, 340282366920938463463374607431768211456, 64, 18446744073709551616);
    TwoValue(192, 6277101735386680763835789423207666416102355444464034512896, 32, 4294967296);
    TwoValue(224, 26959946667150639794667015087019630673637144422540572481103610249216, 16, 65536);
    TwoValue(240, 1766847064778384329583297500742918515827483896875618958121606201292619776, 8, 256);
    TwoValue(248, 452312848583266388373324160190187140051835877600158453279131187530910662656, 4, 16);
    TwoValue(252, 7237005577332262213973186563042994240829374041602535252466099000494570602496, 2, 4);
  }

  /** For that prime the chain's exponent is the one of Euler's criterion. */
  lemma ExponentIsHalf()
    ensures 2 * ChainExponent(Ones(250)) + 1 == P25519
    ensures Two(255) == P25519 + 19
  {
    EndExponent(250);
    TwoTo254();
    TwoAdd(1, 254);
    assert Two(1) == 2;
  }
}
