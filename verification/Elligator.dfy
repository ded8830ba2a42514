/**
 * Elligator 2 as the VRF uses it to hash to the curve (ge25519FromUniform,
 * vrf/vrfGo.go; section 5.4.1.2 of draft-irtf-cfrg-vrf-03 and section 6.7.1 of
 * RFC 9380): from any field element to a point, first on the Montgomery curve
 * v^2 = u^3 + a u^2 + u, then on the Edwards curve. Everything holds for any prime and
 * coefficients that fit together; `Curve25519Fits` is about the numbers of curve25519.
 */
module Elligator {

  import opened Arithmetic
  import opened Chi25519
  import opened PrimeField
  import R = Residues

  /**
   * The field and the two curves: the prime p = 8k + 5, a square root `i` of minus one,
   * the Montgomery coefficient `a`, a square root `s` of -(a + 2), and the Edwards
   * coefficient `d`, which is -(a - 2) / (a + 2).
   */
  datatype Curve = Curve(p: nat, k: nat, i: int, a: int, s: int, d: int)

  ghost predicate Related(c: Curve) {
    && R.Setting(c.p, c.k, c.i)
    && Cong(c.s * c.s, -(c.a + 2), c.p)
    && Cong(c.d * (c.a + 2), -(c.a - 2), c.p)
    && !Divides(c.p, c.a + 2)
  }

  ghost predicate Fits(c: Curve) {
    Related(c) && !R.IsSquare(c.d, c.p)
  }

  /** The second byte of minus one is odd. */
  ghost predicate OddSecondByte(c: Curve) {
    256 < c.p && SecondByteBit(c.p - 1) == 1
  }

  /** What the code relies on about the prime: the chain's exponent and that byte. */
  ghost predicate Coded(c: Curve) {
    4 * c.k + 2 == ChainExponent(Ones(250)) && OddSecondByte(c)
  }

  // --------------------------------------------------------------- the Montgomery curve

  /** The right-hand side of the Montgomery equation. */
  function G(c: Curve, u: int): int {
    u * u * u + c.a * (u * u) + u
  }

  /** u^2 + a u + 1, so that G(u) is u times it. */
  function Q(c: Curve, u: int): int {
    u * u + c.a * u + 1
  }

  lemma GFactors(c: Curve, u: int)
    ensures G(c, u) == u * Q(c, u)
  {
    Distribute(u * u, c.a * u, u);
    Distribute(u * u + c.a * u, 1, u);
    Regroup(c.a, u, u);
  }

  /** Q is symmetric about -a / 2. */
  lemma QMirror(c: Curve, x: int)
    ensures Q(c, -x - c.a) == Q(c, x)
  {
    assert (-x - c.a) * (-x - c.a) == x * x + 2 * c.a * x + c.a * c.a;
    assert c.a * (-x - c.a) == -c.a * x - c.a * c.a;
  }

  function Denominator(r: int): int {
    1 + 2 * (r * r)
  }

  /** The denominator never vanishes: otherwise minus one would be twice a square. */
  lemma DenominatorNonZero(c: Curve, r: int)
    requires R.Setting(c.p, c.k, c.i)
    ensures !Divides(c.p, Denominator(r))
  {
    if Divides(c.p, Denominator(r)) {
      CongZero(Denominator(r), c.p);
      CongAdd(Denominator(r), 0, -1, -1, c.p);
      MinusOneIsNotTwiceSquare(c, r);
    }
  }

  lemma MinusOneIsNotTwiceSquare(c: Curve, r: int)
    requires R.Setting(c.p, c.k, c.i)
    ensures !Cong(2 * (r * r), -1, c.p)
  {
    ChiTwiceSquare(c, r);
    DifferentPowers(c, 2 * (r * r));
  }

  lemma DifferentPowers(c: Curve, t: int)
    requires R.Setting(c.p, c.k, c.i)
    requires Cong(R.Chi(t, c.k), 0, c.p) || Cong(R.Chi(t, c.k), -1, c.p)
    ensures !Cong(t, -1, c.p)
  {
    R.Signs(c.p);
    R.PowMinusOne(4 * c.k + 2);
    if Cong(t, -1, c.p) {
      R.ChiCong(t, -1, c.p, c.k);
    }
  }

  /** Twice a non-zero square is not a square. */
  lemma ChiTwiceSquare(c: Curve, r: int)
    requires R.Setting(c.p, c.k, c.i)
    ensures Cong(R.Chi(2 * (r * r), c.k), if Divides(c.p, r) then 0 else -1, c.p)
  {
    R.ChiProduct(2, r * r, c.k);
    if Divides(c.p, r) {
      CongZero(r, c.p);
      CongMul(r, 0, r, 0, c.p);
      CongMul(2, 2, r * r, 0, c.p);
      R.ChiCong(2 * (r * r), 0, c.p, c.k);
      assert R.Chi(0, c.k) == 0;
    } else {
      R.ChiOfTwo(c.p, c.k, c.i);
      R.ChiOfSquare(r, c.p, c.k, c.i);
      CongMul(R.Chi(2, c.k), -1, R.Chi(r * r, c.k), 1, c.p);
    }
  }

  /** The candidate: x (1 + 2 r^2) is -a. */
  ghost predicate Candidate(c: Curve, x: int, r: int)
    requires 0 < c.p
  {
    Cong(x * Denominator(r), -c.a, c.p)
  }

  /** The other candidate -x - a is 2 r^2 x, and its curve value 2 r^2 times that of x. */
  lemma OtherCandidate(c: Curve, x: int, r: int)
    requires 0 < c.p
    requires Candidate(c, x, r)
    ensures Cong(G(c, -x - c.a), 2 * (r * r) * G(c, x), c.p)
  {
    QMirror(c, x);
    GFactors(c, x);
    GFactors(c, -x - c.a);
    Mirror(c, x, 2 * (r * r), c.a, Q(c, x));
  }

  lemma Mirror(c: Curve, x: int, t: int, a: int, q: int)
    requires 0 < c.p
    requires Cong(x * (1 + t), -a, c.p)
    ensures Cong((-x - a) * q, t * (x * q), c.p)
  {
    Distribute(1, t, x);
    CongAdd(x * (1 + t), -a, -x, -x, c.p);
    CongMul(-x - a, t * x, q, q, c.p);
    Regroup(t, x, q);
  }

  /** What the code selects: the other candidate exactly if Euler's power of G(x) is minus one. */
  ghost predicate Selected(c: Curve, x: int, u: int)
    requires 0 < c.p
  {
    u == if Cong(R.Chi(G(c, x), c.k), -1, c.p) then -x - c.a else x
  }

  /** Euler's power of a product with a factor whose power is minus one, or which vanishes. */
  lemma TimesNonSquare(c: Curve, t: int, g: int, h: int)
    requires Related(c) && Cong(h, t * g, c.p) && Cong(R.Chi(g, c.k), -1, c.p)
    requires Cong(R.Chi(t, c.k), -1, c.p) || Divides(c.p, t)
    ensures R.IsSquare(h, c.p)
  {
    R.Signs(c.p);
    if Divides(c.p, t) {
      CongZero(t, c.p);
      CongMul(t, 0, g, g, c.p);
      assert Cong(0 * 0, h, c.p);
    } else {
      R.ChiProduct(t, g, c.k);
      R.ChiCong(h, t * g, c.p, c.k);
      CongMul(R.Chi(t, c.k), -1, R.Chi(g, c.k), -1, c.p);
      R.ChiOneIsSquare(h, c.p, c.k, c.i);
    }
  }

  lemma TwiceSquareVanishes(c: Curve, r: int)
    requires 0 < c.p
    requires Divides(c.p, r)
    ensures Divides(c.p, 2 * (r * r))
  {
    CongZero(r, c.p);
    CongMul(r, 0, r, 0, c.p);
    CongMul(2, 2, r * r, 0, c.p);
    CongZero(2 * (r * r), c.p);
  }

  /**
   * For every input the selected candidate is the u coordinate of a point: its curve
   * value is zero or a square.
   */
  lemma SelectedIsOnCurve(c: Curve, x: int, r: int, u: int)
    requires Related(c) && Candidate(c, x, r) && Selected(c, x, u)
    ensures R.IsSquare(G(c, u), c.p)
  {
    if Cong(R.Chi(G(c, x), c.k), -1, c.p) {
      OtherCandidate(c, x, r);
      OtherIsOnCurve(c, r, G(c, x), G(c, -x - c.a));
    } else {
      FirstIsOnCurve(c, G(c, x));
    }
  }

  lemma OtherIsOnCurve(c: Curve, r: int, g: int, h: int)
    requires Related(c) && Cong(h, 2 * (r * r) * g, c.p) && Cong(R.Chi(g, c.k), -1, c.p)
    ensures R.IsSquare(h, c.p)
  {
    ChiTwiceSquare(c, r);
    if Divides(c.p, r) {
      TwiceSquareVanishes(c, r);
    }
    TimesNonSquare(c, 2 * (r * r), g, h);
  }

  lemma FirstIsOnCurve(c: Curve, g: int)
    requires Related(c) && !Cong(R.Chi(g, c.k), -1, c.p)
    ensures R.IsSquare(g, c.p)
  {
    if Divides(c.p, g) {
      CongZero(g, c.p);
      assert Cong(0 * 0, g, c.p);
    } else {
      R.EulerCriterion(g, c.p, c.k, c.i);
    }
  }

  // ------------------------------------------------------------------ the Edwards curve

  /** Decoding y succeeds: some x puts (x, y) on the Edwards curve. */
  ghost predicate Decodes(c: Curve, y: int)
    requires 0 < c.p
  {
    exists x :: EdwardsPoint(c, x, y)
  }

  ghost predicate EdwardsPoint(c: Curve, x: int, y: int)
    requires 0 < c.p
  {
    Cong(x * x * (c.d * (y * y) + 1), y * y - 1, c.p)
  }

  lemma NonZeroProduct(c: Curve, a: int, b: int)
    requires Related(c) && !Divides(c.p, a) && !Divides(c.p, b)
    ensures !Divides(c.p, a * b)
  {
    if Divides(c.p, a * b) {
      Euclid(a, b, c.p);
    }
  }

  lemma QuotientIsSquare(c: Curve, d: int, a: int, m: int)
    requires Related(c) && !Divides(c.p, a) && Cong(d * (a * a), m * m, c.p)
    ensures R.IsSquare(d, c.p)
  {
    var w := InverseExists(a, c.p);
    CongMul(a * w, 1, a * w, 1, c.p);
    CongMul(d, d, a * w * (a * w), 1, c.p);
    CongMul(d * (a * a), m * m, w * w, w * w, c.p);
    FourFactors(m, w, m, w);
    FourFactors(a, w, a, w);
    Regroup(d, a * a, w * w);
    assert Cong(m * w * (m * w), d, c.p);
  }

  /** A zero of u^2 + a u + 1 would make d a square. */
  lemma RootMakesDSquare(c: Curve, u: int)
    requires Related(c) && Divides(c.p, Q(c, u))
    ensures R.IsSquare(c.d, c.p)
  {
    var a, m := c.a + 2, 2 * u + c.a;
    CompleteSquare(u, c.a);
    CongZero(Q(c, u), c.p);
    CongMul(4, 4, Q(c, u), 0, c.p);
    CongAdd(4 * Q(c, u), 0, (c.a - 2) * a, (c.a - 2) * a, c.p);
    CongMul(c.d * a, -(c.a - 2), a, a, c.p);
    Regroup(c.d, a, a);
    MinusSquare(c, m, (c.a - 2) * a);
    assert -(c.a - 2) * a == -((c.a - 2) * a);
    QuotientIsSquare(c, c.d, a, c.i * m);
  }

  lemma CompleteSquare(u: int, a: int)
    ensures (2 * u + a) * (2 * u + a) == 4 * (u * u + a * u + 1) + (a - 2) * (a + 2)
  {
  }

  lemma MinusSquare(c: Curve, m: int, x: int)
    requires Related(c) && Cong(m * m, x, c.p)
    ensures Cong(c.i * m * (c.i * m), -x, c.p)
  {
    FourFactors(c.i, m, c.i, m);
    CongMul(c.i * c.i, -1, m * m, x, c.p);
  }

  /** How the code turns u into y: (u - 1) / (u + 1), the inverse of zero being zero. */
  ghost predicate FromMontgomery(c: Curve, u: int, y: int)
    requires 0 < c.p
  {
    if Divides(c.p, u + 1) then Cong(y, 0, c.p) else Cong(y * (u + 1), u - 1, c.p)
  }

  /** (d y^2 + 1) (a + 2) (u + 1)^2 is four times Q(u). */
  lemma EdwardsDenominator(c: Curve, u: int, y: int)
    requires Related(c) && Cong(y * (u + 1), u - 1, c.p)
    ensures Cong((c.d * (y * y) + 1) * ((c.a + 2) * ((u + 1) * (u + 1))), 4 * Q(c, u), c.p)
  {
    var a, n, m := c.a + 2, u + 1, u - 1;
    CongMul(y * n, m, y * n, m, c.p);
    CongMul(c.d * a, -(c.a - 2), y * n * (y * n), m * m, c.p);
    CongAdd(c.d * a * (y * n * (y * n)), -(c.a - 2) * (m * m), a * (n * n), a * (n * n), c.p);
    FourFactors(y, n, y, n);
    FourFactors(c.d, a, y * y, n * n);
    Distribute(c.d * (y * y), 1, a * (n * n));
    FourQ(u, c.a);
  }

  lemma FourQ(u: int, a: int)
    ensures -(a - 2) * ((u - 1) * (u - 1)) + (a + 2) * ((u + 1) * (u + 1)) == 4 * (u * u + a * u + 1)
  {
  }

  /** (y^2 - 1) (a + 2) (u + 1)^2 is -4 u (a + 2). */
  lemma EdwardsNumerator(c: Curve, u: int, y: int)
    requires 0 < c.p
    requires Cong(y * (u + 1), u - 1, c.p)
    ensures Cong((y * y - 1) * ((c.a + 2) * ((u + 1) * (u + 1))), -4 * u * (c.a + 2), c.p)
  {
    var a, n, m := c.a + 2, u + 1, u - 1;
    CongMul(y * n, m, y * n, m, c.p);
    CongAdd(y * n * (y * n), m * m, -(n * n), -(n * n), c.p);
    CongMul(y * n * (y * n) - n * n, m * m - n * n, a, a, c.p);
    FourFactors(y, n, y, n);
    Distribute(y * y, -1, n * n);
    Regroup(y * y - 1, n * n, a);
    assert m * m - n * n == -4 * u;
  }

  /** The x coordinate s u / w, where w is a root of G(u). */
  lemma EdwardsNonZero(c: Curve, u: int, y: int, w: int)
    requires Fits(c) && !Divides(c.p, u) && !Divides(c.p, u + 1)
    requires Cong(y * (u + 1), u - 1, c.p) && Cong(w * w, G(c, u), c.p)
    ensures Decodes(c, y)
  {
    if Divides(c.p, Q(c, u)) {
      RootMakesDSquare(c, u);
    }
    NonZeroProduct(c, u, Q(c, u));
    GFactors(c, u);
    R.RootNonZero(w, G(c, u), c.p);
    var v := InverseExists(w, c.p);
    var x, a, n := c.s * u * v, c.a + 2, u + 1;
    var f := a * (n * n);
    EdwardsDenominator(c, u, y);
    EdwardsNumerator(c, u, y);
    RootSquare(c, u, v, w);
    BothSides(c, x * x, w * w, c.d * (y * y) + 1, y * y - 1, f, a, u, Q(c, u));
    NonZeroProduct(c, n, n);
    NonZeroProduct(c, a, n * n);
    NonZeroProduct(c, w, w);
    NonZeroProduct(c, f, w * w);
    Cancel(x * x * (c.d * (y * y) + 1), y * y - 1, f * (w * w), c.p);
    assert EdwardsPoint(c, x, y);
  }

  lemma RootSquare(c: Curve, u: int, v: int, w: int)
    requires Related(c) && Cong(w * v, 1, c.p)
    ensures var x := c.s * u * v; Cong(x * x * (w * w), -(c.a + 2) * (u * u), c.p)
  {
    FourFactors(c.s * u, v, c.s * u, v);
    FourFactors(c.s, u, c.s, u);
    CongMul(w * v, 1, w * v, 1, c.p);
    FourFactors(w, v, w, v);
    SquaresCancel(c.s * c.s, u * u, v * v, w * w, -(c.a + 2), c.p);
  }

  lemma SquaresCancel(ss: int, uu: int, vv: int, ww: int, k: int, p: nat)
    requires 0 < p && Cong(ss, k, p) && Cong(ww * vv, 1, p)
    ensures Cong(ss * uu * vv * ww, k * uu, p)
  {
    CongMul(ss, k, uu, uu, p);
    CongMul(ss * uu, k * uu, ww * vv, 1, p);
    Regroup(ss * uu, ww, vv);
    Regroup(ss * uu, vv, ww);
  }

  /** With the parts known up to a common factor, both sides of the curve equation agree. */
  lemma BothSides(c: Curve, xx: int, ww: int, den: int, num: int, f: int, a: int, u: int, q: int)
    requires 0 < c.p
    requires Cong(xx * ww, -a * (u * u), c.p) && Cong(den * f, 4 * q, c.p)
    requires Cong(num * f, -4 * u * a, c.p) && Cong(ww, u * q, c.p)
    ensures Cong(xx * den * (f * ww), num * (f * ww), c.p)
  {
    CongMul(xx * ww, -a * (u * u), den * f, 4 * q, c.p);
    CongMul(num * f, -4 * u * a, ww, u * q, c.p);
    Regroup(num, f, ww);
    assert xx * ww * (den * f) == xx * den * (f * ww) by {
      FourFactors(xx, den, ww, f);
      assert ww * f == f * ww;
    }
    SameSides(a, u, q);
  }

  lemma SameSides(a: int, u: int, q: int)
    ensures -a * (u * u) * (4 * q) == -4 * u * a * (u * q)
  {
  }

  /** Whatever the input, the y that is computed decodes to a point. */
  lemma AlwaysDecodes(c: Curve, u: int, y: int)
    requires Fits(c) && R.IsSquare(G(c, u), c.p) && FromMontgomery(c, u, y)
    ensures Decodes(c, y)
  {
    if Divides(c.p, u + 1) {
      CongMul(y, 0, y, 0, c.p);
      CongMul(c.d, c.d, y * y, 0, c.p);
      CongAdd(c.d * (y * y), 0, 1, 1, c.p);
      CongMul(c.i * c.i, -1, c.d * (y * y) + 1, 1, c.p);
      CongAdd(y * y, 0, -1, -1, c.p);
      assert EdwardsPoint(c, c.i, y);
    } else if Divides(c.p, u) {
      YIsMinusOne(c, u, y);
      CongMul(y, -1, y, -1, c.p);
      CongAdd(y * y, 1, -1, -1, c.p);
      assert EdwardsPoint(c, 0, y);
    } else {
      var w :| Cong(w * w, G(c, u), c.p);
      EdwardsNonZero(c, u, y, w);
    }
  }

  lemma YIsMinusOne(c: Curve, u: int, y: int)
    requires 0 < c.p
    requires Divides(c.p, u) && Cong(y * (u + 1), u - 1, c.p)
    ensures Cong(y, -1, c.p)
  {
    CongZero(u, c.p);
    CongMul(y, y, u, 0, c.p);
    Distribute(u, 1, y);
    CongAdd(y * u, 0, y, y, c.p);
    CongAdd(u, 0, -1, -1, c.p);
  }

  // ------------------------------------------------------------------------ the code

  function Add(c: Curve, a: int, b: int): (r: nat)
    requires 0 < c.p
    ensures r < c.p
  {
    (a + b) % c.p
  }

  function Neg(c: Curve, a: int): (r: nat)
    requires 0 < c.p
    ensures r < c.p
  {
    (-a) % c.p
  }

  /** Inversion by exponentiation: z^(p - 2), which sends zero to zero. */
  function Invert(c: Curve, z: int): (r: nat)
    requires 2 <= c.p
    ensures r < c.p
  {
    PowMod(c.p, z, c.p - 2)
  }

  lemma InvertWorks(c: Curve, z: int)
    requires Related(c)
    ensures if Divides(c.p, z) then Cong(Invert(c, z), 0, c.p) else Cong(z * Invert(c, z), 1, c.p)
  {
    CongMod(Pow(z, c.p - 2), c.p);
    if Divides(c.p, z) {
      CongZero(z, c.p);
      PowCong(z, 0, c.p - 2, c.p);
      assert Pow(0, c.p - 2) == 0 * Pow(0, c.p - 3);
    } else {
      Fermat(z, c.p);
      CongMul(z, z, Invert(c, z), Pow(z, c.p - 2), c.p);
      assert Pow(z, c.p - 1) == z * Pow(z, c.p - 2);
    }
  }

  /** The lowest bit of the second byte of e, written with the least byte first. */
  function SecondByteBit(e: nat): nat {
    e / 256 % 256 % 2
  }

  /** That bit tells minus one from zero and one. */
  lemma BitTellsMinusOne(c: Curve, e: nat)
    requires OddSecondByte(c) && e < c.p && (Cong(e, 0, c.p) || Cong(e, 1, c.p) || Cong(e, -1, c.p))
    ensures SecondByteBit(e) == 1 <==> Cong(e, -1, c.p)
    ensures SecondByteBit(e) == 0 <==> !Cong(e, -1, c.p)
  {
    ThreeValues(e, c.p);
  }

  lemma ThreeValues(e: nat, p: nat)
    requires 3 <= p && e < p && (Cong(e, 0, p) || Cong(e, 1, p) || Cong(e, -1, p))
    ensures e == 0 || e == 1 || e == p - 1
    ensures Cong(e, -1, p) <==> e == p - 1
  {
    R.Signs(p);
    DivModUnique(e, p, 0, e);
  }

  /** The curve value as the code accumulates it, reduced at every step. */
  function CurveValue(c: Curve, x: int): nat
    requires 0 < c.p
  {
    var x2 := Square(c.p, x);
    var x3 := Mul(c.p, x, x2);
    Add(c, Mul(c.p, x2, c.a), Add(c, x3, x))
  }

  lemma CurveValueIsG(c: Curve, x: int)
    requires 0 < c.p
    ensures Cong(CurveValue(c, x), G(c, x), c.p)
  {
    var x2 := Square(c.p, x);
    var x3 := Mul(c.p, x, x2);
    CongMod(x * x, c.p);
    CongMod(x * x2, c.p);
    CongMul(x, x, x2, x * x, c.p);
    assert Cong(x3, x * (x * x), c.p);
    CongMod(x3 + x, c.p);
    CongAdd(x3, x * (x * x), x, x, c.p);
    CongMod(x2 * c.a, c.p);
    CongMul(x2, x * x, c.a, c.a, c.p);
    CongMod(Mul(c.p, x2, c.a) + Add(c, x3, x), c.p);
    CongAdd(Mul(c.p, x2, c.a), x * x * c.a, Add(c, x3, x), x * (x * x) + x, c.p);
    Regroup(x, x, x);
    assert x * x * c.a + (x * (x * x) + x) == G(c, x);
  }

  lemma FirstCandidate(c: Curve, r: int)
    requires Related(c)
    ensures Candidate(c, Neg(c, Mul(c.p, Invert(c, Denominator(r)), c.a)), r)
  {
    DenominatorNonZero(c, r);
    InvertWorks(c, Denominator(r));
    NegatedQuotient(c, Denominator(r), Invert(c, Denominator(r)), c.a);
  }

  lemma NegatedQuotient(c: Curve, d: int, v: int, a: int)
    requires 0 < c.p && Cong(d * v, 1, c.p)
    ensures Cong(Neg(c, Mul(c.p, v, a)) * d, -a, c.p)
  {
    var m: int := Mul(c.p, v, a);
    CongMod(v * a, c.p);
    CongMod(-m, c.p);
    CongMul(m, v * a, -1, -1, c.p);
    CongMul(Neg(c, m), v * a * -1, d, d, c.p);
    CongMul(d * v, 1, -a, -a, c.p);
    NegatedProduct(v, a, d);
  }

  lemma NegatedProduct(v: int, a: int, d: int)
    ensures v * a * -1 * d == d * v * -a
  {
  }

  lemma ReducedDenominator(c: Curve, r: int)
    requires 0 < c.p
    ensures Cong(Add(c, Add(c, Square(c.p, r), Square(c.p, r)), 1), Denominator(r), c.p)
  {
    var q := Square(c.p, r);
    CongMod(r * r, c.p);
    CongAdd(q, r * r, q, r * r, c.p);
    CongMod(q + q, c.p);
    CongAdd(Add(c, q, q), 2 * (r * r), 1, 1, c.p);
    CongMod(Add(c, q, q) + 1, c.p);
  }

  lemma InvertCong(c: Curve, a: int, b: int)
    requires 2 <= c.p
    requires Cong(a, b, c.p)
    ensures Invert(c, a) == Invert(c, b)
  {
    PowCong(a, b, c.p - 2, c.p);
  }

  lemma SelectedCandidate(c: Curve, x: int, u: nat, e: nat)
    requires Related(c) && OddSecondByte(c) && e == PowMod(c.p, CurveValue(c, x), 4 * c.k + 2)
    requires u == Add(c, if SecondByteBit(e) == 1 then Neg(c, x) else x, -(if SecondByteBit(e) == 1 then c.a else 0))
    ensures exists w :: Selected(c, x, w) && Cong(u, w, c.p)
  {
    var g := CurveValue(c, x);

    CurveValueIsG(c, x);
    CongMod(Pow(g, 4 * c.k + 2), c.p);
    R.ChiCong(g, G(c, x), c.p, c.k);
    EulerPowers(c, g);
    BitTellsMinusOne(c, e);
    if Cong(e, -1, c.p) {
      CongMod(-x, c.p);
      CongAdd(Neg(c, x), -x, -c.a, -c.a, c.p);
      CongMod(Neg(c, x) - c.a, c.p);
      assert Selected(c, x, -x - c.a);
    } else {
      CongMod(x, c.p);
      assert Selected(c, x, x);
    }
  }

  lemma EulerPowers(c: Curve, g: int)
    requires Related(c)
    ensures var e := R.Chi(g, c.k); Cong(e, 0, c.p) || Cong(e, 1, c.p) || Cong(e, -1, c.p)
  {
    if Divides(c.p, g) {
      CongZero(g, c.p);
      R.ChiCong(g, 0, c.p, c.k);
      assert R.Chi(0, c.k) == 0 * Pow(0, 4 * c.k + 1);
    } else {
      R.ChiIsSign(g, c.p, c.k, c.i);
    }
  }

  /**
   * From the low 255 bits of the input, as a number, and its top bit, which is put back
   * on the encoded y. It never fails: decoding that y always finds a point of the Edwards
   * curve, so the error branch after it is never taken.
   */
  method FromUniform(c: Curve, r: nat, xSign: bool) returns (yed: nat, sign: bool, ghost x0: int, ghost u: int)
    requires Fits(c) && Coded(c)
    ensures Candidate(c, x0, r) && Selected(c, x0, u) && FromMontgomery(c, u, yed)
    ensures R.IsSquare(G(c, u), c.p) && Decodes(c, yed)
    ensures yed < c.p && sign == xSign
  {
    var x := FirstX(c, r);
    x0 := x;
    var e := EulerPower(c, CurveValue(c, x));
    x := SelectX(c, x, e);
    u :| Selected(c, x0, u) && Cong(x, u, c.p);
    SelectedIsOnCurve(c, x0, r, u);
    yed := ToEdwards(c, x, u);
    AlwaysDecodes(c, u, yed);
    sign := xSign;
  }

  /** -a / (1 + 2 r^2). */
  method FirstX(c: Curve, r: int) returns (x: nat)
    requires Related(c)
    ensures Candidate(c, x, r)
  {
    var rr2 := Square(c.p, r);
    rr2 := Add(c, rr2, rr2);
    rr2 := Add(c, rr2, 1);
    ReducedDenominator(c, r);
    InvertCong(c, rr2, Denominator(r));
    rr2 := Invert(c, rr2);
    x := Mul(c.p, rr2, c.a);
    x := Neg(c, x);
    FirstCandidate(c, r);
  }

  /** The chain computes Euler's power. */
  method EulerPower(c: Curve, z: nat) returns (e: nat)
    requires 0 < c.p && Coded(c)
    ensures e == PowMod(c.p, z, 4 * c.k + 2)
  {
    e := Chi(c.p, z);
  }

  /** That x, or -x - a when the curve value of x has no square root. */
  method SelectX(c: Curve, x0: nat, e: nat) returns (x: nat)
    requires Related(c) && OddSecondByte(c) && e == PowMod(c.p, CurveValue(c, x0), 4 * c.k + 2)
    ensures exists u :: Selected(c, x0, u) && Cong(x, u, c.p)
  {
    x := x0;
    var eIsMinus1 := SecondByteBit(e);
    var x2 := 0;
    if eIsMinus1 == 1 {
      x := Neg(c, x);
      x2 := c.a;
    }
    x := Add(c, x, -x2);
    SelectedCandidate(c, x0, x, e);
  }

  /** y = (x - 1) / (x + 1). */
  method ToEdwards(c: Curve, x: nat, ghost u: int) returns (yed: nat)
    requires Related(c) && Cong(x, u, c.p)
    ensures FromMontgomery(c, u, yed) && yed < c.p
  {
    var xPlusOne := Add(c, x, 1);
    var xMinusOne := Add(c, x, -1);
    var xPlusOneInv := Invert(c, xPlusOne);
    yed := Mul(c.p, xMinusOne, xPlusOneInv);
    CongMod(x + 1, c.p);
    CongAdd(x, u, 1, 1, c.p);
    CongMod(x - 1, c.p);
    CongAdd(x, u, -1, -1, c.p);
    InvertCong(c, xPlusOne, u + 1);
    QuotientIsY(c, xMinusOne, xPlusOneInv, u);
  }

  lemma QuotientIsY(c: Curve, m: nat, v: nat, u: int)
    requires Related(c) && Cong(m, u - 1, c.p) && v == Invert(c, u + 1)
    ensures FromMontgomery(c, u, Mul(c.p, m, v))
  {
    InvertWorks(c, u + 1);
    if Divides(c.p, u + 1) {
      CongMod(m * v, c.p);
      CongMul(m, m, v, 0, c.p);
    } else {
      MulBack(c, m, v, u + 1, u - 1);
    }
  }

  lemma MulBack(c: Curve, m: int, v: int, n: int, k: int)
    requires 0 < c.p
    requires Cong(n * v, 1, c.p) && Cong(m, k, c.p)
    ensures Cong(Mul(c.p, m, v) * n, k, c.p)
  {
    CongMod(m * v, c.p);
    CongMul(Mul(c.p, m, v), m * v, n, n, c.p);
    CongMul(m, k, n * v, 1, c.p);
    Regroup(m, v, n);
    Regroup(m, n, v);
  }

  /** A curve small enough to compute everything: modulo 13, u^3 + 10 u^2 + u, with d = 8. */
  lemma SmallCurveFits()
    ensures Fits(Curve(13, 1, 5, 10, 1, 8))
  {
    assert IsPrime(13);
    assert R.Setting(13, 1, 5);
    assert Pow(8, 2) == 8 * Pow(8, 1) && Pow(8, 1) == 8 * Pow(8, 0);
    assert Pow(8, 4) == 8 * Pow(8, 3) && Pow(8, 3) == 8 * Pow(8, 2);
    assert Pow(8, 6) == 8 * Pow(8, 5) && Pow(8, 5) == 8 * Pow(8, 4);
    assert R.Chi(8, 1) == 262144;
    R.EulerCriterion(8, 13, 1, 5);
  }

  // ------------------------------------------------------------------------ curve25519

  function Curve25519(): Curve {
    Curve(P25519,
          7237005577332262213973186563042994240829374041602535252466099000494570602493,
          19681161376707505956807079304988542015446066515923890162744021073123829784752,
          486662,
          6853475219497561581579357271197624642482790079785650197046958215289687604742,
          37095705934669439343138083508754565189542113879843219016388785533085940283555)
  }

  /**
   * When twice `d` is a square, which a root shows, `d` is none: two is not a square
   * modulo such a prime.
   */
  lemma HalfOfSquare(c: Curve, y: int)
    requires R.Setting(c.p, c.k, c.i) && !Divides(c.p, c.d) && Cong(y * y, 2 * c.d, c.p)
    ensures !R.IsSquare(c.d, c.p)
  {
    R.Signs(c.p);
    if x :| Cong(x * x, c.d, c.p) {
      CongMul(2, 2, x * x, c.d, c.p);
      TwiceNonZero(c, x);
      ChiTwiceSquare(c, x);
      R.ChiCong(y * y, 2 * (x * x), c.p, c.k);
      ChiOfAnySquare(c, y);
    }
  }

  /** The square root of a non-multiple is none itself. */
  lemma TwiceNonZero(c: Curve, x: int)
    requires R.Setting(c.p, c.k, c.i) && !Divides(c.p, c.d) && Cong(x * x, c.d, c.p)
    ensures !Divides(c.p, x)
  {
    if Divides(c.p, x) {
      CongZero(x, c.p);
      CongMul(x, 0, x, 0, c.p);
      CongZero(c.d, c.p);
    }
  }

  lemma ChiOfAnySquare(c: Curve, y: int)
    requires R.Setting(c.p, c.k, c.i)
    ensures Cong(R.Chi(y * y, c.k), if Divides(c.p, y) then 0 else 1, c.p)
  {
    if Divides(c.p, y) {
      CongZero(y, c.p);
      CongMul(y, 0, y, 0, c.p);
      R.ChiCong(y * y, 0, c.p, c.k);
      assert R.Chi(0, c.k) == 0;
    } else {
      R.ChiOfSquare(y, c.p, c.k, c.i);
    }
  }

  /** The numbers of curve25519 qualify, given that p is prime, which is not computed here. */
  lemma Curve25519Fits()
    requires IsPrime(P25519)
    ensures Fits(Curve25519()) && Coded(Curve25519())
  {
    var c := Curve25519();
    Curve25519Related();
    var y := 55487632915927625549282413919184614932259505768049324239291840100650878933168;
    WitnessCong(y * y, 2 * c.d, c.p, (y * y - 2 * c.d) / c.p);
    HalfOfSquare(c, y);
  }

  lemma Curve25519Related()
    requires IsPrime(P25519)
    ensures Related(Curve25519()) && Coded(Curve25519())
    ensures !Divides(P25519, Curve25519().d)
  {
    var c := Curve25519();
    WitnessCong(c.i * c.i, -1, c.p, (c.i * c.i + 1) / c.p);
    WitnessCong(c.s * c.s, -(c.a + 2), c.p, (c.s * c.s + c.a + 2) / c.p);
    WitnessCong(c.d * (c.a + 2), -(c.a - 2), c.p, (c.d * (c.a + 2) + c.a - 2) / c.p);
    ExponentIsHalf();
  }
}
