/**
 * Proofs of retrievability (por/por.go): the owner's file tag and authenticators, the
 * server's proof for a random query, and the verifier's pairing check. Scalars are
 * numbers below the order of the curve; the hash to the curve and the tag's signature
 * are arbitrary.
 */
module Por {

  import opened Algebra
  import opened Arithmetic
  import opened Bytes

  /** The number of blocks of a file, and the digits it is written with in the tag. */
  const BLOCKS: nat := 1000
  const DIGITS: seq<Byte> := [49, 48, 48, 48]

  ghost predicate Scalars(a: nat, b: nat, d: nat) { true }

  datatype Scheme<!A(!new), !B(!new), !T(==,!new)> = Scheme(
    p: Pairing<A, B, T>, base1: A, base2: B, order: nat,
    mulAdd: (nat, nat, nat) -> nat,
    hash: seq<Byte> -> A,
    enc: nat -> seq<Byte>, dec: seq<Byte> -> nat,
    sign: seq<Byte> -> seq<Byte>, checks: (seq<Byte>, seq<Byte>) -> bool)
  {
    ghost predicate Laws() {
      && p.Laws() && 0 < order
      && (forall q {:trigger Use(q)} :: p.g1.Times(order, q) == p.g1.zero)
      && (forall a: nat, b: nat, d: nat {:trigger Scalars(a, b, d)} :: mulAdd(a, b, d) == (a * b + d) % order)
      && EncodingLaws()
    }

    /** Pairing with the second base point loses nothing: the groups have the same prime order. */
    ghost predicate Faithful() {
      forall a, b {:trigger Use2(a, b)} :: p.e(a, base2) == p.e(b, base2) ==> a == b
    }

    ghost predicate EncodingLaws() {
      && (forall u: nat {:trigger enc(u)} :: |enc(u)| == 32)
      && (forall u: nat {:trigger enc(u)} :: u < order ==> dec(enc(u)) == u)
      && (forall b {:trigger sign(b)} :: |sign(b)| == 64 && checks(b, sign(b)))
    }

    /** A reduced multiply-add acts on points like the unreduced one. */
    lemma MulAddActs(a: nat, b: nat, d: nat, q: A)
      requires Laws()
      ensures p.g1.Times(mulAdd(a, b, d), q) == p.g1.add(p.g1.Times(a, p.g1.Times(b, q)), p.g1.Times(d, q))
    {
      assert Scalars(a, b, d) && Use(q);
      ReducedTimes(a * b + d, q);
      p.g1.TimesAdd(a * b, d, q);
      p.g1.TimesMul(a, b, q);
    }

    lemma ReducedTimes(k: nat, q: A)
      requires p.g1.Laws() && 0 < order && p.g1.Times(order, q) == p.g1.zero
      ensures p.g1.Times(k % order, q) == p.g1.Times(k, q)
    {
      var d, m := k / order, k % order;
      assert k == d * order + m;
      p.g1.TimesAdd(d * order, m, q);
      p.g1.TimesMul(d, order, q);
      p.g1.TimesZero(d);
      p.g1.Unit(p.g1.Times(m, q));
    }
  }

  /** A file: for every block its sectors. Positions outside count as zero. */
  type File = seq<seq<nat>>

  function Sector(m: File, i: nat, j: nat): nat {
    if i < |m| && j < |m[i]| then m[i][j] else 0
  }

  ghost predicate Shaped(m: File, sectors: nat) {
    |m| == BLOCKS && forall i :: 0 <= i < BLOCKS ==> |m[i]| == sectors
  }

  /** Block positions with a coefficient each. */
  datatype Query = Query(index: seq<nat>, coef: seq<nat>)
  {
    ghost predicate Valid() {
      |index| == |coef| && forall i :: 0 <= i < |index| ==> index[i] < BLOCKS
    }

    function Index(i: nat): nat {
      if i < |index| then index[i] else 0
    }

    function Coef(i: nat): nat {
      if i < |coef| then coef[i] else 0
    }
  }

  // ------------------------------------------------------------------------ the owner

  /** A number's bytes, most significant first, without leading zeros. */
  function NameBytes(x: nat): seq<Byte> {
    if x == 0 then [] else NameBytes(x / 256) + [x % 256]
  }

  lemma {:induction false} NameLength(x: nat, k: nat)
    ensures |NameBytes(x)| <= k <==> x < Limit(k)
  {
    if x == 0 {
      LimitGrows(0, k);
    } else if k == 0 {
    } else {
      NameLength(x / 256, k - 1);
      assert x == 256 * (x / 256) + x % 256;
    }
  }

  ghost function BigEndian(b: seq<Byte>): nat {
    if b == [] then 0 else 256 * BigEndian(b[..|b| - 1]) + b[|b| - 1]
  }

  /** The name can be read back from its bytes, of which the first is not zero. */
  lemma {:induction false} NameReadBack(x: nat)
    ensures BigEndian(NameBytes(x)) == x
    ensures x != 0 ==> NameBytes(x) != [] && NameBytes(x)[0] != 0
  {
    if x == 0 {
    } else {
      NameReadBack(x / 256);
      assert NameBytes(x)[..|NameBytes(x)| - 1] == NameBytes(x / 256);
      assert x == 256 * (x / 256) + x % 256;
    }
  }

  function Encoded<A(!new), B(!new), T(==,!new)>(s: Scheme<A, B, T>, u: seq<nat>): seq<Byte> {
    if u == [] then [] else Encoded(s, u[..|u| - 1]) + s.enc(u[|u| - 1])
  }

  function Signed<A(!new), B(!new), T(==,!new)>(s: Scheme<A, B, T>, name: seq<Byte>, u: seq<nat>): seq<Byte> {
    name + DIGITS + Encoded(s, u)
  }

  /** What the owner hashes for block `i`: the index is cut to a byte. */
  function BlockHash<A(!new), B(!new), T(==,!new)>(s: Scheme<A, B, T>, name: seq<Byte>, i: nat): A {
    s.hash(name + [i % 256])
  }

  function Generator<A(!new), B(!new), T(==,!new)>(s: Scheme<A, B, T>, u: seq<nat>, j: nat): A {
    s.p.g1.Times(if j < |u| then u[j] else 0, s.base1)
  }

  /** The sum of the sectors of block `i`, each times its generator. */
  ghost function BlockPoint<A(!new), B(!new), T(!new)>(s: Scheme<A, B, T>, u: seq<nat>, m: File, i: nat): A {
    s.p.g1.Sum((j: nat) => s.p.g1.Times(Sector(m, i, j), Generator(s, u, j)), |u|)
  }

  ghost function Authenticator<A(!new), B(!new), T(!new)>(
    s: Scheme<A, B, T>, name: seq<Byte>, u: seq<nat>, alpha: nat, m: File, i: nat): A
  {
    s.p.g1.Times(alpha, s.p.g1.add(BlockPoint(s, u, m, i), BlockHash(s, name, i)))
  }

  /** The authenticator of a block, written out: its sectors on its generators, and the hash of name and index. */
  lemma AuthenticatorExactly<A(!new), B(!new), T(!new)>(
    s: Scheme<A, B, T>, name: nat, u: seq<nat>, alpha: nat, m: File, i: nat)
    requires Shaped(m, |u|) && i < BLOCKS
    ensures var g := s.p.g1;
            var points := g.Sum((j: nat) => if j < |u| then g.Times(m[i][j], g.Times(u[j], s.base1)) else g.zero, |u|);
            Authenticator(s, NameBytes(name), u, alpha, m, i)
              == g.Times(alpha, g.add(points, s.hash(NameBytes(name) + [i % 256])))
  {
    var g := s.p.g1;
    g.SumAgree((j: nat) => g.Times(Sector(m, i, j), Generator(s, u, j)),
               (j: nat) => if j < |u| then g.Times(m[i][j], g.Times(u[j], s.base1)) else g.zero, |u|);
  }

  ghost function Authenticators<A(!new), B(!new), T(!new)>(
    s: Scheme<A, B, T>, name: seq<Byte>, u: seq<nat>, alpha: nat, m: File): (auth: nat -> A)
    ensures forall i: nat :: auth(i) == Authenticator(s, name, u, alpha, m, i)
  {
    (i: nat) => Authenticator(s, name, u, alpha, m, i)
  }

  method RandomizedFileStoring<A(!new), B(!new), T(==,!new)>(
    s: Scheme<A, B, T>, name: nat, u: seq<nat>, alpha: nat, m: File) returns (tau: seq<Byte>, sigma: seq<A>)
    requires Shaped(m, |u|)
    ensures var tau0 := Signed(s, NameBytes(name), u); tau == tau0 + s.sign(tau0)
    ensures |sigma| == BLOCKS
    ensures forall i: nat :: i < BLOCKS ==> sigma[i] == Authenticator(s, NameBytes(name), u, alpha, m, i)
  {
    var st1, generators := MakeGenerators(s, u);
    var tau0 := NameBytes(name) + DIGITS + st1;
    tau := tau0 + s.sign(tau0);
    sigma := Authenticate(s, name, u, alpha, m, generators);
  }

  /** The sectors' generators and their encodings. */
  method MakeGenerators<A(!new), B(!new), T(==,!new)>(s: Scheme<A, B, T>, u: seq<nat>)
    returns (st1: seq<Byte>, generators: seq<A>)
    ensures st1 == Encoded(s, u)
    ensures |generators| == |u| && forall k: nat :: k < |u| ==> generators[k] == Generator(s, u, k)
  {
    st1, generators := [], [];
    var j := 0;
    while j < |u|
      invariant 0 <= j <= |u| && st1 == Encoded(s, u[..j]) && |generators| == j
      invariant forall k: nat :: k < j ==> generators[k] == Generator(s, u, k)
    {
      assert u[..j + 1][..j] == u[..j];
      st1 := st1 + s.enc(u[j]);
      generators := generators + [s.p.g1.Times(u[j], s.base1)];
      j := j + 1;
    }
    assert u[..j] == u;
  }

  /** The authenticators of all blocks. */
  method Authenticate<A(!new), B(!new), T(==,!new)>(
    s: Scheme<A, B, T>, name: nat, u: seq<nat>, alpha: nat, m: File, generators: seq<A>) returns (sigma: seq<A>)
    requires Shaped(m, |u|)
    requires |generators| == |u| && forall k: nat :: k < |u| ==> generators[k] == Generator(s, u, k)
    ensures |sigma| == BLOCKS
    ensures forall i: nat :: i < BLOCKS ==> sigma[i] == Authenticator(s, NameBytes(name), u, alpha, m, i)
  {
    sigma := [];
    var i := 0;
    while i < BLOCKS
      invariant 0 <= i <= BLOCKS && |sigma| == i
      invariant forall k: nat :: k < i ==> sigma[k] == Authenticator(s, NameBytes(name), u, alpha, m, k)
    {
      var p := CombineSectors(s, u, m, generators, i);
      var h := BlockHash(s, NameBytes(name), i);
      sigma := sigma + [s.p.g1.Times(alpha, s.p.g1.add(p, h))];
      i := i + 1;
    }
  }

  method CombineSectors<A(!new), B(!new), T(==,!new)>(
    s: Scheme<A, B, T>, u: seq<nat>, m: File, generators: seq<A>, i: nat) returns (p: A)
    requires i < |m| && |m[i]| == |u| == |generators|
    requires forall k: nat :: k < |u| ==> generators[k] == Generator(s, u, k)
    ensures p == BlockPoint(s, u, m, i)
  {
    p := s.p.g1.zero;
    ghost var f := (j: nat) => s.p.g1.Times(Sector(m, i, j), Generator(s, u, j));
    var j := 0;
    while j < |u|
      invariant 0 <= j <= |u| && p == s.p.g1.Sum(f, j)
    {
      p := s.p.g1.add(p, s.p.g1.Times(m[i][j], generators[j]));
      j := j + 1;
    }
  }

  // ----------------------------------------------------------------------- the server

  datatype Proof<A> = Proof(mu: seq<nat>, sigma: A)

  /** Mu_j over the first `k` queried blocks, as the loop accumulates it. */
  function MuAt<A(!new), B(!new), T(==,!new)>(s: Scheme<A, B, T>, q: Query, m: File, j: nat, k: nat): nat {
    if k == 0 then 0
    else s.mulAdd(q.Coef(k - 1), Sector(m, q.Index(k - 1), j), MuAt(s, q, m, j, k - 1))
  }

  /** Sector `j` of the first `k` queried blocks, each times its coefficient, added up. */
  ghost function DotProduct(q: Query, m: File, j: nat, k: nat): nat
    requires q.Valid() && |m| == BLOCKS && k <= |q.index|
    requires forall i :: 0 <= i < BLOCKS ==> j < |m[i]|
  {
    if k == 0 then 0 else DotProduct(q, m, j, k - 1) + q.coef[k - 1] * m[q.index[k - 1]][j]
  }

  /** The accumulated number is that sum modulo the order. */
  lemma {:induction false} MuExactly<A(!new), B(!new), T(!new)>(
    s: Scheme<A, B, T>, q: Query, m: File, j: nat, k: nat)
    requires s.Laws() && q.Valid() && |m| == BLOCKS && k <= |q.index|
    requires forall i :: 0 <= i < BLOCKS ==> j < |m[i]|
    ensures MuAt(s, q, m, j, k) == DotProduct(q, m, j, k) % s.order
  {
    if k == 0 {
      DivModUnique(0, s.order, 0, 0);
    } else {
      MuExactly(s, q, m, j, k - 1);
      var a, b, d := q.coef[k - 1], m[q.index[k - 1]][j], DotProduct(q, m, j, k - 1);
      assert Scalars(a, b, d % s.order);
      ReduceInside(a * b, d, s.order);
    }
  }

  lemma ReduceInside(x: nat, d: nat, order: nat)
    requires 0 < order
    ensures (x + d % order) % order == (d + x) % order
  {
    var y := x + d % order;
    DivModUnique(d + x, order, d / order + y / order, y % order);
  }

  ghost function SigmaSum<A(!new), B(!new), T(!new)>(s: Scheme<A, B, T>, q: Query, auth: nat -> A, k: nat): A {
    s.p.g1.Sum((i: nat) => s.p.g1.Times(q.Coef(i), auth(q.Index(i))), k)
  }

  method CreatePoR<A(!new), B(!new), T(==,!new)>(
    s: Scheme<A, B, T>, m: File, sigma: seq<A>, sectors: nat, q: Query, ghost auth: nat -> A)
    returns (proof: Proof<A>)
    requires Shaped(m, sectors) && |sigma| == BLOCKS && q.Valid()
    requires forall i: nat :: i < BLOCKS ==> sigma[i] == auth(i)
    ensures |proof.mu| == sectors
    ensures forall j: nat :: j < sectors ==> proof.mu[j] == MuAt(s, q, m, j, |q.index|)
    ensures proof.sigma == SigmaSum(s, q, auth, |q.index|)
  {
    var mu: seq<nat> := [];
    var j := 0;
    while j < sectors
      invariant 0 <= j <= sectors && |mu| == j
      invariant forall k: nat :: k < j ==> mu[k] == MuAt(s, q, m, k, |q.index|)
    {
      var tv: nat := 0;
      var i := 0;
      while i < |q.index|
        invariant 0 <= i <= |q.index| && tv == MuAt(s, q, m, j, i)
      {
        tv := s.mulAdd(q.coef[i], m[q.index[i]][j], tv);
        i := i + 1;
      }
      mu := mu + [tv];
      j := j + 1;
    }
    var p := CombineAuthenticators(s, sigma, q, auth);
    proof := Proof(mu, p);
  }

  method CombineAuthenticators<A(!new), B(!new), T(==,!new)>(
    s: Scheme<A, B, T>, sigma: seq<A>, q: Query, ghost auth: nat -> A) returns (p: A)
    requires |sigma| == BLOCKS && q.Valid()
    requires forall i: nat :: i < BLOCKS ==> sigma[i] == auth(i)
    ensures p == SigmaSum(s, q, auth, |q.index|)
  {
    p := s.p.g1.zero;
    ghost var f := (i: nat) => s.p.g1.Times(q.Coef(i), auth(q.Index(i)));
    var i := 0;
    while i < |q.index|
      invariant 0 <= i <= |q.index| && p == s.p.g1.Sum(f, i)
    {
      var t := q.index[i];
      assert sigma[t] == auth(q.Index(i));
      p := s.p.g1.add(p, s.p.g1.Times(q.coef[i], sigma[t]));
      i := i + 1;
    }
  }

  // --------------------------------------------------------------------- the verifier

  /** The parts of a tag at the fixed offsets the verifier uses. */
  function NamePart(tau: seq<Byte>): seq<Byte>
    requires 32 <= |tau|
  {
    tau[..32]
  }

  function ScalarPart(tau: seq<Byte>, j: nat): seq<Byte>
    requires 36 + 32 * (j + 1) <= |tau|
  {
    tau[36 + 32 * j..36 + 32 * (j + 1)]
  }

  function SignedPart(tau: seq<Byte>, sectors: nat): seq<Byte>
    requires 36 + 32 * sectors <= |tau|
  {
    tau[..36 + 32 * sectors]
  }

  function SignaturePart(tau: seq<Byte>, sectors: nat): seq<Byte>
    requires 36 + 32 * sectors <= |tau|
  {
    tau[36 + 32 * sectors..]
  }

  lemma {:induction false} EncodedParts<A(!new), B(!new), T(!new)>(s: Scheme<A, B, T>, u: seq<nat>, j: nat)
    requires s.EncodingLaws()
    ensures |Encoded(s, u)| == 32 * |u|
    ensures j < |u| ==> Encoded(s, u)[32 * j..32 * (j + 1)] == s.enc(u[j])
  {
    if u == [] {
    } else {
      var k := |u| - 1;
      EncodedParts(s, u[..k], j);
      if j == k {
        assert Encoded(s, u)[32 * k..] == s.enc(u[k]);
      }
    }
  }

  /** The owner's tag is read back exactly if the name occupies 32 bytes. */
  lemma TagReadBack<A(!new), B(!new), T(!new)>(s: Scheme<A, B, T>, name: nat, u: seq<nat>)
    requires s.EncodingLaws() && name < Limit(32)
    ensures var tau0 := Signed(s, NameBytes(name), u);
            var tau := tau0 + s.sign(tau0);
            && 36 + 32 * |u| <= |tau|
            && (Limit(31) <= name <==>
                && NamePart(tau) == NameBytes(name)
                && SignedPart(tau, |u|) == tau0 && SignaturePart(tau, |u|) == s.sign(tau0)
                && forall j: nat :: j < |u| ==> ScalarPart(tau, j) == s.enc(u[j]))
  {
    var tau0 := Signed(s, NameBytes(name), u);
    var tau := tau0 + s.sign(tau0);
    NameLength(name, 31);
    NameLength(name, 32);
    EncodedParts(s, u, 0);
    if Limit(31) <= name {
      LongNameReadBack(s, name, u, tau);
    }
  }

  /** With a name of 32 bytes every part is where the verifier looks. */
  lemma LongNameReadBack<A(!new), B(!new), T(!new)>(s: Scheme<A, B, T>, name: nat, u: seq<nat>, tau: seq<Byte>)
    requires s.EncodingLaws() && |NameBytes(name)| == 32 && |Encoded(s, u)| == 32 * |u|
    requires var tau0 := Signed(s, NameBytes(name), u); tau == tau0 + s.sign(tau0)
    ensures var tau0 := Signed(s, NameBytes(name), u);
            && 36 + 32 * |u| <= |tau| && NamePart(tau) == NameBytes(name)
            && SignedPart(tau, |u|) == tau0 && SignaturePart(tau, |u|) == s.sign(tau0)
            && forall j: nat :: j < |u| ==> ScalarPart(tau, j) == s.enc(u[j])
  {
    var tau0 := Signed(s, NameBytes(name), u);
    assert NamePart(tau) == NameBytes(name);
    assert SignedPart(tau, |u|) == tau0;
    forall j: nat | j < |u| ensures ScalarPart(tau, j) == s.enc(u[j]) {
      EncodedParts(s, u, j);
      assert tau[36..36 + 32 * |u|] == Encoded(s, u);
      assert ScalarPart(tau, j) == tau[36..36 + 32 * |u|][32 * j..32 * (j + 1)];
    }
  }

  ghost function RightTerm<A(!new), B(!new), T(!new)>(
    s: Scheme<A, B, T>, tau: seq<Byte>, mu: seq<nat>, sectors: nat): A
    requires 36 + 32 * sectors <= |tau|
  {
    s.p.g1.Sum((j: nat) => s.p.g1.Times(if j < |mu| then mu[j] else 0, ReadGenerator(s, tau, j)), sectors)
  }

  function ReadGenerator<A(!new), B(!new), T(==,!new)>(s: Scheme<A, B, T>, tau: seq<Byte>, j: nat): A {
    s.p.g1.Times(if 36 + 32 * (j + 1) <= |tau| then s.dec(ScalarPart(tau, j)) else 0, s.base1)
  }

  ghost function LeftTerm<A(!new), B(!new), T(!new)>(s: Scheme<A, B, T>, name: seq<Byte>, q: Query): A {
    s.p.g1.Sum((i: nat) => s.p.g1.Times(q.Coef(i), BlockHash(s, name, q.Index(i))), |q.index|)
  }

  /** The equation the verifier evaluates, from the tag as it was handed in. */
  ghost predicate PairingHolds<A(!new), B(!new), T(!new)>(
    s: Scheme<A, B, T>, v: B, tau: seq<Byte>, proof: Proof<A>, sectors: nat, q: Query)
    requires 36 + 32 * sectors <= |tau|
  {
    s.p.e(proof.sigma, s.base2)
      == s.p.e(s.p.g1.add(LeftTerm(s, NamePart(tau), q), RightTerm(s, tau, proof.mu, sectors)), v)
  }

  /** The hashes the verifier expects: of the tag's first 32 bytes and each queried index, cut to a byte. */
  ghost function HashesOf<A(!new), B(!new), T(!new)>(s: Scheme<A, B, T>, name: seq<Byte>, q: Query): A
    requires q.Valid()
  {
    var g := s.p.g1;
    g.Sum((i: nat) => if i < |q.index| then g.Times(q.coef[i], s.hash(name + [q.index[i] % 256])) else g.zero,
          |q.index|)
  }

  /** The proof's numbers on the generators that stand in the tag from byte 36 on, 32 bytes each. */
  ghost function PointsOf<A(!new), B(!new), T(!new)>(s: Scheme<A, B, T>, tau: seq<Byte>, mu: seq<nat>): A
    requires 36 + 32 * |mu| <= |tau|
  {
    var g := s.p.g1;
    g.Sum((j: nat) =>
      if j < |mu| then g.Times(mu[j], g.Times(s.dec(tau[36 + 32 * j..68 + 32 * j]), s.base1)) else g.zero, |mu|)
  }

  /** The only point that is accepted: alpha times both of them. */
  ghost function ExpectedSigma<A(!new), B(!new), T(!new)>(
    s: Scheme<A, B, T>, alpha: nat, tau: seq<Byte>, mu: seq<nat>, q: Query): A
    requires 36 + 32 * |mu| <= |tau| && q.Valid()
  {
    s.p.g1.Times(alpha, s.p.g1.add(HashesOf(s, tau[..32], q), PointsOf(s, tau, mu)))
  }

  lemma TermsExactly<A(!new), B(!new), T(!new)>(s: Scheme<A, B, T>, tau: seq<Byte>, mu: seq<nat>, q: Query)
    requires 36 + 32 * |mu| <= |tau| && q.Valid()
    ensures LeftTerm(s, NamePart(tau), q) == HashesOf(s, tau[..32], q)
    ensures RightTerm(s, tau, mu, |mu|) == PointsOf(s, tau, mu)
  {
    var g := s.p.g1;
    g.SumAgree((i: nat) => g.Times(q.Coef(i), BlockHash(s, NamePart(tau), q.Index(i))),
               (i: nat) => if i < |q.index| then g.Times(q.coef[i], s.hash(tau[..32] + [q.index[i] % 256])) else g.zero,
               |q.index|);
    g.SumAgree(
      (j: nat) => g.Times(if j < |mu| then mu[j] else 0, ReadGenerator(s, tau, j)),
      (j: nat) => if j < |mu| then g.Times(mu[j], g.Times(s.dec(tau[36 + 32 * j..68 + 32 * j]), s.base1)) else g.zero,
      |mu|);
  }

  /**
   * What acceptance means. Under the public point of the secret alpha a proof is accepted if
   * and only if its point is alpha times the expected hashes plus the proof's numbers on the
   * tag's generators; any other point is refused.
   */
  lemma AcceptedExactly<A(!new), B(!new), T(!new)>(
    s: Scheme<A, B, T>, alpha: nat, tau: seq<Byte>, proof: Proof<A>, q: Query)
    requires s.Laws() && s.Faithful() && 36 + 32 * |proof.mu| <= |tau| && q.Valid()
    ensures PairingHolds(s, s.p.g2.Times(alpha, s.base2), tau, proof, |proof.mu|, q)
       <==> proof.sigma == ExpectedSigma(s, alpha, tau, proof.mu, q)
  {
    var right := s.p.g1.add(HashesOf(s, tau[..32], q), PointsOf(s, tau, proof.mu));
    TermsExactly(s, tau, proof.mu, q);
    s.p.TimesLeft(alpha, right, s.base2);
    s.p.TimesRight(alpha, right, s.base2);
    assert Use2(proof.sigma, s.p.g1.Times(alpha, right));
  }

  /**
   * The verifier, returning whether the tag's signature and the pairing equation hold
   * (the source logs the latter and returns a constant). Appending the block index to
   * the first 32 bytes of the tag happens in place: the tag's next byte is overwritten.
   */
  method VerifyPoR<A(!new), B(!new), T(==,!new)>(
    s: Scheme<A, B, T>, v: B, tau: array<Byte>, proof: Proof<A>, sectors: nat, q: Query, ghost alpha: nat)
    returns (signatureOk: bool, pairingOk: bool)
    requires 36 + 32 * sectors <= tau.Length && |proof.mu| == sectors && q.Valid()
    modifies tau
    ensures signatureOk == s.checks(old(SignedPart(tau[..], sectors)), old(SignaturePart(tau[..], sectors)))
    ensures pairingOk <==> old(PairingHolds(s, v, tau[..], proof, sectors, q))
    ensures s.Laws() && s.Faithful() && v == s.p.g2.Times(alpha, s.base2) ==>
      (pairingOk <==> proof.sigma == ExpectedSigma(s, alpha, old(tau[..]), proof.mu, q))
    ensures tau[..] == if q.index == [] then old(tau[..])
                       else old(tau[..])[32 := q.index[|q.index| - 1] % 256]
  {
    ghost var was := tau[..];
    signatureOk := s.checks(SignedPart(tau[..], sectors), SignaturePart(tau[..], sectors));
    var rightTermPoint := CombineMu(s, tau[..], proof.mu, sectors);
    var leftTermPoint := CombineHashes(s, tau, q);
    var right := s.p.e(s.p.g1.add(leftTermPoint, rightTermPoint), v);
    var left := s.p.e(proof.sigma, s.base2);
    pairingOk := left == right;
    if s.Laws() && s.Faithful() && v == s.p.g2.Times(alpha, s.base2) {
      AcceptedExactly(s, alpha, was, proof, q);
    }
  }

  method CombineHashes<A(!new), B(!new), T(==,!new)>(s: Scheme<A, B, T>, tau: array<Byte>, q: Query)
    returns (p: A)
    requires 33 <= tau.Length && q.Valid()
    modifies tau
    ensures p == LeftTerm(s, old(NamePart(tau[..])), q)
    ensures tau[..] == if q.index == [] then old(tau[..])
                       else old(tau[..])[32 := q.index[|q.index| - 1] % 256]
  {
    p := s.p.g1.zero;
    ghost var was := tau[..];
    ghost var f := (i: nat) => s.p.g1.Times(q.Coef(i), BlockHash(s, NamePart(was), q.Index(i)));
    var i := 0;
    while i < |q.index|
      invariant 0 <= i <= |q.index|
      invariant tau[..] == if i == 0 then was else was[32 := q.index[i - 1] % 256]
      invariant p == s.p.g1.Sum(f, i)
    {
      var h := HashAt(s, tau, was, q.index[i]);
      p := s.p.g1.add(p, s.p.g1.Times(q.coef[i], h));
      i := i + 1;
    }
  }

  /** Appending the block index to the first 32 bytes writes it over the tag's next byte. */
  method HashAt<A(!new), B(!new), T(==,!new)>(s: Scheme<A, B, T>, tau: array<Byte>, ghost was: seq<Byte>, index: nat)
    returns (h: A)
    requires 33 <= tau.Length == |was| && tau[..32] == was[..32] && tau[33..] == was[33..]
    modifies tau
    ensures tau[..] == was[32 := index % 256]
    ensures h == s.hash(was[..32] + [index % 256])
  {
    assert tau[..] == tau[..32] + [tau[32]] + tau[33..];
    var b: Byte := index % 256;
    tau[32] := b;
    assert tau[..33] == was[..32] + [b];
    h := s.hash(tau[..33]);
  }

  method CombineMu<A(!new), B(!new), T(==,!new)>(
    s: Scheme<A, B, T>, tau: seq<Byte>, mu: seq<nat>, sectors: nat) returns (p: A)
    requires 36 + 32 * sectors <= |tau| && |mu| == sectors
    ensures p == RightTerm(s, tau, mu, sectors)
  {
    p := s.p.g1.zero;
    ghost var f := (j: nat) => s.p.g1.Times(if j < |mu| then mu[j] else 0, ReadGenerator(s, tau, j));
    var j := 0;
    while j < sectors
      invariant 0 <= j <= sectors && p == s.p.g1.Sum(f, j)
    {
      var u := s.dec(ScalarPart(tau, j));
      var point := s.p.g1.Times(u, s.base1);
      p := s.p.g1.add(p, s.p.g1.Times(mu[j], point));
      j := j + 1;
    }
  }

  // --------------------------------------------------------------------- completeness

  /** Mu_j acts on a point as the query's combination of the sectors. */
  lemma {:induction false} MuActs<A(!new), B(!new), T(!new)>(
    s: Scheme<A, B, T>, q: Query, m: File, j: nat, point: A, k: nat)
    requires s.Laws()
    ensures s.p.g1.Times(MuAt(s, q, m, j, k), point)
         == s.p.g1.Sum((i: nat) => s.p.g1.Times(q.Coef(i), s.p.g1.Times(Sector(m, q.Index(i), j), point)), k)
  {
    var g := s.p.g1;
    if k == 0 {
    } else {
      MuActs(s, q, m, j, point, k - 1);
      var a, b, d := q.Coef(k - 1), Sector(m, q.Index(k - 1), j), MuAt(s, q, m, j, k - 1);
      s.MulAddActs(a, b, d, point);
      g.Comm(g.Times(a, g.Times(b, point)), g.Times(d, point));
    }
  }

  lemma TimesCommute<G(!new)>(g: Group<G>, a: nat, b: nat, x: G)
    requires g.Laws()
    ensures g.Times(a, g.Times(b, x)) == g.Times(b, g.Times(a, x))
  {
    g.TimesMul(a, b, x);
    g.TimesMul(b, a, x);
    assert a * b == b * a;
  }

  /** One sector of one queried block, times its generator and coefficient. */
  function Cell<A(!new), B(!new), T(==,!new)>(
    s: Scheme<A, B, T>, q: Query, u: seq<nat>, m: File, i: nat, j: nat): A
  {
    s.p.g1.Times(q.Coef(i), s.p.g1.Times(Sector(m, q.Index(i), j), Generator(s, u, j)))
  }

  /** The right term the verifier computes is the queried blocks' points, summed by blocks. */
  lemma RightTermByBlocks<A(!new), B(!new), T(!new)>(
    s: Scheme<A, B, T>, q: Query, u: seq<nat>, m: File, mu: seq<nat>, k: nat)
    requires s.Laws() && |mu| == |u| && forall j: nat :: j < |u| ==> mu[j] == MuAt(s, q, m, j, k)
    ensures s.p.g1.Sum((j: nat) => s.p.g1.Times(if j < |mu| then mu[j] else 0, Generator(s, u, j)), |u|)
         == s.p.g1.Sum((i: nat) => s.p.g1.Times(q.Coef(i), BlockPoint(s, u, m, q.Index(i))), k)
  {
    var g := s.p.g1;
    var cell := (i: nat, j: nat) => Cell(s, q, u, m, i, j);
    g.SumExchange(cell, k, |u|);
    forall j: nat | j < |u|
      ensures g.Times(mu[j], Generator(s, u, j)) == g.Sum((i: nat) => cell(i, j), k)
    {
      MuActs(s, q, m, j, Generator(s, u, j), k);
      g.SumAgree((i: nat) => g.Times(q.Coef(i), g.Times(Sector(m, q.Index(i), j), Generator(s, u, j))),
                 (i: nat) => cell(i, j), k);
    }
    g.SumAgree((j: nat) => g.Times(if j < |mu| then mu[j] else 0, Generator(s, u, j)),
               (j: nat) => g.Sum((i: nat) => cell(i, j), k), |u|);
    forall i: nat | i < k
      ensures g.Times(q.Coef(i), BlockPoint(s, u, m, q.Index(i))) == g.Sum((j: nat) => cell(i, j), |u|)
    {
      var row := (j: nat) => g.Times(Sector(m, q.Index(i), j), Generator(s, u, j));
      g.TimesOfSum(q.Coef(i), row, |u|);
      g.SumAgree((j: nat) => g.Times(q.Coef(i), row(j)), (j: nat) => cell(i, j), |u|);
    }
    g.SumAgree((i: nat) => g.Times(q.Coef(i), BlockPoint(s, u, m, q.Index(i))),
               (i: nat) => g.Sum((j: nat) => cell(i, j), |u|), k);
  }

  /** The queried authenticators add up to alpha times the two terms the verifier computes. */
  lemma AuthenticatorsAddUp<A(!new), B(!new), T(!new)>(
    s: Scheme<A, B, T>, q: Query, name: seq<Byte>, u: seq<nat>, alpha: nat, m: File, k: nat)
    requires s.Laws()
    ensures var g := s.p.g1;
            SigmaSum(s, q, Authenticators(s, name, u, alpha, m), k)
              == g.Times(alpha, g.add(
                   g.Sum((i: nat) => g.Times(q.Coef(i), BlockPoint(s, u, m, q.Index(i))), k),
                   g.Sum((i: nat) => g.Times(q.Coef(i), BlockHash(s, name, q.Index(i))), k)))
  {
    var g := s.p.g1;
    var f := (i: nat) => g.Times(q.Coef(i), BlockPoint(s, u, m, q.Index(i)));
    var h := (i: nat) => g.Times(q.Coef(i), BlockHash(s, name, q.Index(i)));
    var both := (i: nat) => g.add(f(i), h(i));
    g.SumOfSums(f, h, k);
    g.TimesOfSum(alpha, both, k);
    forall i: nat | i < k
      ensures g.Times(q.Coef(i), Authenticator(s, name, u, alpha, m, q.Index(i))) == g.Times(alpha, both(i))
    {
      var x, y := BlockPoint(s, u, m, q.Index(i)), BlockHash(s, name, q.Index(i));
      TimesCommute(g, q.Coef(i), alpha, g.add(x, y));
      g.TimesSum(q.Coef(i), x, y);
    }
    var auth := Authenticators(s, name, u, alpha, m);
    g.SumAgree((i: nat) => g.Times(q.Coef(i), auth(q.Index(i))), (i: nat) => g.Times(alpha, both(i)), k);
    g.SumAgree(both, (i: nat) => g.add(f(i), h(i)), k);
  }

  /** The generators read from the owner's tag are the owner's. */
  lemma GeneratorsReadBack<A(!new), B(!new), T(!new)>(
    s: Scheme<A, B, T>, name: nat, u: seq<nat>, tau: seq<Byte>, j: nat)
    requires s.EncodingLaws() && Limit(31) <= name < Limit(32) && j < |u| && u[j] < s.order
    requires var tau0 := Signed(s, NameBytes(name), u); tau == tau0 + s.sign(tau0)
    ensures 36 + 32 * |u| <= |tau| && ReadGenerator(s, tau, j) == Generator(s, u, j)
  {
    TagReadBack(s, name, u);
    assert ScalarPart(tau, j) == s.enc(u[j]);
  }

  /**
   * Completeness: for every file, secret, generators and query, and a name that
   * occupies 32 bytes, the server's proof over the owner's authenticators makes the
   * signature check and the pairing equation hold.
   */
  lemma HonestProofVerifies<A(!new), B(!new), T(!new)>(
    s: Scheme<A, B, T>, name: nat, u: seq<nat>, alpha: nat, m: File, q: Query, tau: seq<Byte>, proof: Proof<A>)
    requires s.Laws() && Limit(31) <= name < Limit(32) && q.Valid()
    requires forall j: nat :: j < |u| ==> u[j] < s.order
    requires var tau0 := Signed(s, NameBytes(name), u); tau == tau0 + s.sign(tau0)
    requires |proof.mu| == |u| && forall j: nat :: j < |u| ==> proof.mu[j] == MuAt(s, q, m, j, |q.index|)
    requires proof.sigma
          == SigmaSum(s, q, Authenticators(s, NameBytes(name), u, alpha, m), |q.index|)
    ensures 36 + 32 * |u| <= |tau|
    ensures s.checks(SignedPart(tau, |u|), SignaturePart(tau, |u|))
    ensures PairingHolds(s, s.p.g2.Times(alpha, s.base2), tau, proof, |u|, q)
  {
    var g, k := s.p.g1, |q.index|;
    TagReadBack(s, name, u);
    AuthenticatorsAddUp(s, q, NameBytes(name), u, alpha, m, k);
    RightTermByBlocks(s, q, u, m, proof.mu, k);
    forall j: nat | j < |u| ensures ReadGenerator(s, tau, j) == Generator(s, u, j) {
      GeneratorsReadBack(s, name, u, tau, j);
    }
    var mu := proof.mu;
    g.SumAgree((j: nat) => g.Times(if j < |mu| then mu[j] else 0, ReadGenerator(s, tau, j)),
               (j: nat) => g.Times(if j < |mu| then mu[j] else 0, Generator(s, u, j)), |u|);
    var right := g.Sum((i: nat) => g.Times(q.Coef(i), BlockPoint(s, u, m, q.Index(i))), k);
    var left := LeftTerm(s, NameBytes(name), q);
    g.Comm(right, left);
    s.p.TimesLeft(alpha, g.add(left, right), s.base2);
    s.p.TimesRight(alpha, g.add(left, right), s.base2);
  }

  // ------------------------------------------------------------- answers for other blocks

  /**
   * Answering for other blocks than the queried ones, with everything else honest: the proof
   * is accepted if and only if alpha times the hashes of the two queries agree.
   */
  lemma OtherBlocksExactly<A(!new), B(!new), T(!new)>(
    s: Scheme<A, B, T>, name: nat, u: seq<nat>, alpha: nat, m: File, asked: Query, answered: Query,
    tau: seq<Byte>, proof: Proof<A>)
    requires s.Laws() && s.Faithful() && Limit(31) <= name < Limit(32) && asked.Valid() && answered.Valid()
    requires forall j: nat :: j < |u| ==> u[j] < s.order
    requires var tau0 := Signed(s, NameBytes(name), u); tau == tau0 + s.sign(tau0)
    requires |proof.mu| == |u|
    requires forall j: nat :: j < |u| ==> proof.mu[j] == MuAt(s, answered, m, j, |answered.index|)
    requires proof.sigma
          == SigmaSum(s, answered, Authenticators(s, NameBytes(name), u, alpha, m), |answered.index|)
    ensures 36 + 32 * |u| <= |tau|
    ensures PairingHolds(s, s.p.g2.Times(alpha, s.base2), tau, proof, |u|, asked)
       <==> s.p.g1.Times(alpha, HashesOf(s, NameBytes(name), asked))
              == s.p.g1.Times(alpha, HashesOf(s, NameBytes(name), answered))
  {
    var g := s.p.g1;
    HonestProofVerifies(s, name, u, alpha, m, answered, tau, proof);
    TagReadBack(s, name, u);
    AcceptedExactly(s, alpha, tau, proof, asked);
    AcceptedExactly(s, alpha, tau, proof, answered);
    var points := PointsOf(s, tau, proof.mu);
    var a, b := HashesOf(s, NameBytes(name), asked), HashesOf(s, NameBytes(name), answered);
    g.TimesSum(alpha, a, points);
    g.TimesSum(alpha, b, points);
    AddCancels(g, g.Times(alpha, a), g.Times(alpha, b), g.Times(alpha, points));
  }

  lemma AddCancels<G(!new)>(g: Group<G>, a: G, b: G, d: G)
    requires g.Laws()
    ensures g.add(a, d) == g.add(b, d) <==> a == b
  {
    g.AddSub(a, d);
    g.AddSub(b, d);
  }

  /** The hashes know an index by its last byte only: blocks 256 apart cannot be told apart. */
  lemma SameByteSameHashes<A(!new), B(!new), T(!new)>(
    s: Scheme<A, B, T>, name: seq<Byte>, asked: Query, answered: Query)
    requires asked.Valid() && answered.Valid() && answered.coef == asked.coef
    requires forall i :: 0 <= i < |asked.index| ==> answered.index[i] % 256 == asked.index[i] % 256
    ensures HashesOf(s, name, answered) == HashesOf(s, name, asked)
  {
    var g := s.p.g1;
    g.SumAgree(
      (i: nat) =>
        if i < |answered.index| then g.Times(answered.coef[i], s.hash(name + [answered.index[i] % 256])) else g.zero,
      (i: nat) => if i < |asked.index| then g.Times(asked.coef[i], s.hash(name + [asked.index[i] % 256])) else g.zero,
      |asked.index|);
  }

  /**
   * Owner, server and verifier in a row, on one tag that stays in memory: the first
   * verification succeeds, and leaves a tag whose byte 32 is the last queried block's.
   */
  method StoreProveVerify<A(!new), B(!new), T(==,!new)>(
    s: Scheme<A, B, T>, name: nat, u: seq<nat>, alpha: nat, m: File, q: Query)
    returns (signatureOk: bool, pairingOk: bool, after: seq<Byte>, ghost before: seq<Byte>)
    requires s.Laws() && Limit(31) <= name < Limit(32) && q.Valid() && Shaped(m, |u|)
    requires forall j: nat :: j < |u| ==> u[j] < s.order
    ensures signatureOk && pairingOk
    ensures var tau0 := Signed(s, NameBytes(name), u); before == tau0 + s.sign(tau0)
    ensures q.index != [] ==> 32 < |before| && after == before[32 := q.index[|q.index| - 1] % 256]
  {
    var tag, sigma := RandomizedFileStoring(s, name, u, alpha, m);
    ghost var auth := Authenticators(s, NameBytes(name), u, alpha, m);
    var proof := CreatePoR(s, m, sigma, |u|, q, auth);
    before := tag;
    HonestProofVerifies(s, name, u, alpha, m, q, tag, proof);
    var tau := new Byte[|tag|](i requires 0 <= i < |tag| => tag[i]);
    assert tau[..] == tag;
    signatureOk, pairingOk := VerifyPoR(s, s.p.g2.Times(alpha, s.base2), tau, proof, |u|, q, alpha);
    after := tau[..];
  }

  /**
   * The overwritten byte is the first digit of the block count, which the tag's
   * signature covers: the signed part survives only if the last queried block's index
   * happens to be that digit's code.
   */
  lemma TagSurvives<A(!new), B(!new), T(!new)>(s: Scheme<A, B, T>, name: nat, u: seq<nat>, b: Byte)
    requires s.EncodingLaws() && Limit(31) <= name < Limit(32)
    ensures var tau0 := Signed(s, NameBytes(name), u);
            32 < |tau0| && (tau0[32 := b] == tau0 <==> b == DIGITS[0])
  {
    NameLength(name, 31);
    NameLength(name, 32);
    var tau0 := Signed(s, NameBytes(name), u);
    assert tau0[32] == DIGITS[0];
    assert tau0[32 := b][32] == b;
  }
}
