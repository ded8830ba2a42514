/**
 * The verifiable random function (vrf/vrfGo.go): key generation, proving, the proof's
 * encoding and verification, per sections 5.1, 5.3, 5.4.3 and 5.4.4 of
 * draft-irtf-cfrg-vrf-03. The curve is a group whose order is eight times a prime
 * order; the hash function, the nonce and the map to the curve are arbitrary.
 */
module Vrf {

  import opened Algebra
  import opened Arithmetic
  import opened Bytes
  import opened Wrappers

  const SUITE: Byte := 4

  ghost predicate Scalar(v: nat) { true }

  ghost predicate Scalars(a: nat, b: nat, d: nat) { true }

  datatype Curve<!G(==,!new)> = Curve(
    g: Group<G>, base: G, order: nat,
    enc: G -> seq<Byte>, dec: seq<Byte> -> Option<G>,
    hash: seq<Byte> -> seq<Byte>,
    mapToCurve: seq<Byte> -> G,
    clamp: seq<Byte> -> nat,
    reduce: nat -> nat,
    mulAdd: (nat, nat, nat) -> nat)
  {
    ghost predicate Laws() {
      && g.Laws()
      && 0 < order && Limit(16) <= order <= Limit(32)
      && g.Times(order, base) == g.zero
      && (forall q {:trigger Use(q)} :: g.Times(order * 8, q) == g.zero)
      && (forall q {:trigger Use(q)} :: |enc(q)| == 32 && dec(enc(q)) == Some(q))
      && (forall b {:trigger Use(b)} :: |hash(b)| == 64)
      && (forall b {:trigger Use(b)} :: clamp(b) < order)
      && (forall v: nat {:trigger Scalar(v)} :: reduce(v) == v % order)
      && (forall a: nat, b: nat, d: nat {:trigger Scalars(a, b, d)} :: mulAdd(a, b, d) == (a * b + d) % order)
    }

    /** Multiples of a point killed by the order depend on the scalar modulo the order only. */
    lemma TimesMod(k: nat, q: G)
      requires g.Laws() && 0 < order && g.Times(order, q) == g.zero
      ensures g.Times(k % order, q) == g.Times(k, q)
    {
      var d, m := k / order, k % order;
      assert k == d * order + m;
      g.TimesAdd(d * order, m, q);
      g.TimesMul(d, order, q);
      g.TimesZero(d);
      g.Unit(g.Times(m, q));
    }

    // ------------------------------------------------------------------ hashing

    /** Clears the sign bit of the last byte of the first half. */
    function ClearSign(b: seq<Byte>): seq<Byte>
      requires |b| == 64
    {
      b[31 := b[31] % 128]
    }

    /** Hash to the curve, the cofactor cleared at the end. */
    function HashToCurve(y: G, alpha: seq<Byte>): G
      requires |hash([SUITE, 1] + enc(y) + alpha)| == 64
    {
      g.Times(8, mapToCurve(ClearSign(hash([SUITE, 1] + enc(y) + alpha))[..32]))
    }

    /** The challenge: the first 16 bytes of the hash of four points. */
    function HashPoints(p1: G, p2: G, p3: G, p4: G): nat
      requires |hash([SUITE, 2] + enc(p1) + enc(p2) + enc(p3) + enc(p4))| == 64
    {
      FromBytes(hash([SUITE, 2] + enc(p1) + enc(p2) + enc(p3) + enc(p4))[..16])
    }

    function Nonce(truncated: seq<Byte>, h: G): nat
    {
      reduce(FromBytes(hash(truncated + enc(h))))
    }
  }

  // ------------------------------------------------------------------------ keys

  datatype KeyPair = KeyPair(pk: seq<Byte>, sk: seq<Byte>)

  function KeyGen<G(!new)>(c: Curve<G>, seed: seq<Byte>): (k: KeyPair)
    requires c.Laws() && |seed| == 32
  {
    assert Use(seed);
    var a := c.g.Times(c.clamp(c.hash(seed)[..32]), c.base);
    KeyPair(c.enc(a), seed + c.enc(a))
  }

  /** Public point, secret scalar and the secret half of the hashed seed. */
  datatype Expanded<G> = Expanded(y: Option<G>, x: nat, truncated: seq<Byte>)

  function Expand<G(!new)>(c: Curve<G>, sk: seq<Byte>): Expanded<G>
    requires c.Laws() && 32 <= |sk|
  {
    assert Use(sk[..32]);
    var h := c.hash(sk[..32]);
    Expanded(c.dec(sk[32..]), c.clamp(h[..32]), h[32..])
  }

  // --------------------------------------------------------------------- the proof

  function EncodeProof<G(!new)>(c: Curve<G>, gamma: G, challenge: nat, s: nat): seq<Byte> {
    c.enc(gamma) + ToBytes(challenge, 32)[..16] + ToBytes(s, 32)
  }

  function Prove<G(!new)>(c: Curve<G>, y: G, x: nat, truncated: seq<Byte>, alpha: seq<Byte>): seq<Byte>
    requires c.Laws()
  {
    HashIsLong(c);
    var h := c.HashToCurve(y, alpha);
    var gamma := c.g.Times(x, h);
    var k := c.Nonce(truncated, h);
    var challenge := c.HashPoints(h, gamma, c.g.Times(k, c.base), c.g.Times(k, h));
    EncodeProof(c, gamma, challenge, c.mulAdd(challenge, x, k))
  }

  lemma HashIsLong<G(!new)>(c: Curve<G>)
    requires c.Laws()
    ensures forall b :: |c.hash(b)| == 64
    ensures 0 < c.order
  {
    forall b ensures |c.hash(b)| == 64 {
      assert Use(b);
    }
    LimitGrows(0, 16);
  }

  /**
   * Gamma, and the challenge and the scalar in buffers of 32 bytes. Whether gamma
   * decodes is not looked at here.
   */
  datatype Decoded<G> = Decoded(gamma: Option<G>, challenge: seq<Byte>, s: seq<Byte>) | WrongLength

  function DecodeProof<G(!new)>(c: Curve<G>, pi: seq<Byte>): Decoded<G> {
    if |pi| != 80 then WrongLength
    else Decoded(c.dec(pi[..32]), pi[32..48] + Zeros(16), pi[48..80])
  }

  /** A proof survives encoding: 16 bytes are enough for the challenge, 32 for the scalar. */
  lemma ProofRoundTrip<G(!new)>(c: Curve<G>, gamma: G, challenge: nat, s: nat)
    requires c.Laws() && challenge < Limit(16) && s < Limit(32)
    ensures var d := DecodeProof(c, EncodeProof(c, gamma, challenge, s));
            && d.Decoded? && d.gamma == Some(gamma)
            && d.challenge == ToBytes(challenge, 32) && FromBytes(d.challenge) == challenge
            && FromBytes(d.s) == s
  {
    assert Use(gamma);
    ThreeParts(c.enc(gamma), ToBytes(challenge, 32)[..16], ToBytes(s, 32));
    ShortInLong(challenge, 16, 32);
    RoundTrip(s, 32);
  }

  lemma ThreeParts(a: seq<Byte>, b: seq<Byte>, d: seq<Byte>)
    requires |a| == 32 && |b| == 16 && |d| == 32
    ensures var pi := a + b + d; |pi| == 80 && pi[..32] == a && pi[32..48] == b && pi[48..80] == d
  {
  }

  /** Cutting the buffer of a short number and padding it again loses nothing. */
  lemma ShortInLong(v: nat, m: nat, n: nat)
    requires m <= n && v < Limit(m)
    ensures ToBytes(v, n)[..m] + Zeros(n - m) == ToBytes(v, n)
    ensures FromBytes(ToBytes(v, n)) == v
  {
    Padding(v, m, n);
    LimitGrows(m, n);
    RoundTrip(v, n);
  }

  // ------------------------------------------------------------------- verification

  datatype Verdict =
    | Accepted(output: seq<Byte>)
    | BadKey
    | SmallOrderKey
    | BadProof
    | Refused
    | Panics

  /** Using a point that was never decoded panics in the curve library. */
  function Verify<G(==,!new)>(c: Curve<G>, y: G, pi: seq<Byte>, alpha: seq<Byte>): Verdict
    requires c.Laws()
  {
    HashIsLong(c);
    match DecodeProof(c, pi)
    case WrongLength => BadProof
    case Decoded(None, _, _) => Panics
    case Decoded(Some(gamma), challengeBytes, sBytes) =>
      var h := c.HashToCurve(y, alpha);
      var challenge, s := c.reduce(FromBytes(challengeBytes)), c.reduce(FromBytes(sBytes));
      if challengeBytes == ToBytes(Recompute(c, y, h, gamma, challenge, s), 32)
      then Accepted(ProofToHash(c, gamma))
      else Refused
  }

  /** The challenge of U = s B - c Y and V = s H - c Gamma. */
  function Recompute<G(!new)>(c: Curve<G>, y: G, h: G, gamma: G, challenge: nat, s: nat): nat
    requires c.Laws()
  {
    HashIsLong(c);
    var u := c.g.Sub(c.g.Times(s, c.base), c.g.Times(challenge, y));
    var v := c.g.Sub(c.g.Times(s, h), c.g.Times(challenge, gamma));
    c.HashPoints(h, gamma, u, v)
  }

  function ProofToHash<G(!new)>(c: Curve<G>, gamma: G): seq<Byte> {
    c.hash([SUITE, 3] + c.enc(c.g.Times(8, gamma)))
  }

  function VerifyAndHash<G(==,!new)>(c: Curve<G>, pk: seq<Byte>, pi: seq<Byte>, alpha: seq<Byte>): Verdict
    requires c.Laws()
  {
    match c.dec(pk)
    case None => BadKey
    case Some(y) =>
      if c.g.Times(8, y) == c.g.zero then SmallOrderKey else Verify(c, y, pi, alpha)
  }

  // ------------------------------------------------- what is computed, written out

  /** Four points as they are hashed for a challenge. */
  ghost function FourPoints<G(!new)>(c: Curve<G>, p1: G, p2: G, p3: G, p4: G): seq<Byte> {
    [4, 2] + c.enc(p1) + c.enc(p2) + c.enc(p3) + c.enc(p4)
  }

  /** What the verifier hashes: the hashed message, gamma, U = s B - c Y and V = s H - c gamma. */
  ghost function ChallengeInput<G(!new)>(c: Curve<G>, y: G, h: G, gamma: G, challenge: nat, s: nat): seq<Byte> {
    FourPoints(c, h, gamma, c.g.Sub(c.g.Times(s, c.base), c.g.Times(challenge, y)),
               c.g.Sub(c.g.Times(s, h), c.g.Times(challenge, gamma)))
  }

  /** The message as a point: 32 bytes of its hash with the top bit cleared, mapped and times eight. */
  ghost predicate IsHashedMessage<G(!new)>(c: Curve<G>, y: G, alpha: seq<Byte>, h: G) {
    var digest := c.hash([4, 1] + c.enc(y) + alpha);
    |digest| == 64 && h == c.g.Times(8, c.mapToCurve(digest[..31] + [digest[31] % 128]))
  }

  lemma HashedMessage<G(!new)>(c: Curve<G>, y: G, alpha: seq<Byte>)
    requires c.Laws()
    ensures |c.hash([SUITE, 1] + c.enc(y) + alpha)| == 64
    ensures IsHashedMessage(c, y, alpha, c.HashToCurve(y, alpha))
  {
    HashIsLong(c);
    var digest := c.hash([SUITE, 1] + c.enc(y) + alpha);
    assert c.ClearSign(digest)[..32] == digest[..31] + [digest[31] % 128];
  }

  /** 16 bytes read from a proof are compared in buffers of 32, and as they are: the rest is zeros. */
  lemma ShortComparison(given: seq<Byte>, digest: seq<Byte>)
    requires |given| == 16 && |digest| == 16
    ensures given + Zeros(16) == ToBytes(FromBytes(digest), 32) <==> given == digest
    ensures FromBytes(given + Zeros(16)) == FromBytes(given) < Limit(16)
  {
    DigestWritten(digest);
    TrailingZeros(given, 16);
    FromBytesBound(given);
    SameBeginning(given, digest, Zeros(16));
  }

  /** 16 bytes of a hash, read as a number and written again. */
  lemma DigestWritten(digest: seq<Byte>)
    requires |digest| == 16
    ensures FromBytes(digest) < Limit(16)
    ensures ToBytes(FromBytes(digest), 32) == digest + Zeros(16) && ToBytes(FromBytes(digest), 32)[..16] == digest
  {
    BackToBytes(digest);
    FromBytesBound(digest);
    Padding(FromBytes(digest), 16, 32);
  }

  lemma SameBeginning(a: seq<Byte>, b: seq<Byte>, rest: seq<Byte>)
    requires |a| == |b|
    ensures a + rest == b + rest <==> a == b
  {
    assert (a + rest)[..|a|] == a && (b + rest)[..|b|] == b;
  }

  /** The verdict on a proof of the right length whose first part decodes. */
  lemma DecodedVerdict<G(!new)>(c: Curve<G>, y: G, pi: seq<Byte>, alpha: seq<Byte>, h: G, gamma: G)
    requires c.Laws() && |pi| == 80 && c.dec(pi[..32]) == Some(gamma) && IsHashedMessage(c, y, alpha, h)
    ensures forall b :: |c.hash(b)| == 64
    ensures var challenge, s := FromBytes(pi[32..48]), FromBytes(pi[48..80]) % c.order;
            Verify(c, y, pi, alpha)
              == if c.hash(ChallengeInput(c, y, h, gamma, challenge, s))[..16] == pi[32..48]
                 then Accepted(c.hash([4, 3] + c.enc(c.g.Times(8, gamma))))
                 else Refused
  {
    HashIsLong(c);
    HashedMessage(c, y, alpha);
    var challenge, s := FromBytes(pi[32..48]), FromBytes(pi[48..80]) % c.order;
    assert Scalar(FromBytes(pi[48..80]));
    var digest := c.hash(ChallengeInput(c, y, h, gamma, challenge, s))[..16];
    ShortComparison(pi[32..48], digest);
    ReduceSmall(c, challenge);
  }

  /**
   * Every verdict, exactly. The key has to decode and must not be of small order; the proof
   * has to have 80 bytes, and its first 32 have to be a point; then it is accepted, with the
   * output computed from that point, if and only if the challenge in it is the beginning
   * of the hash of the points recomputed from it.
   */
  lemma VerdictExactly<G(!new)>(c: Curve<G>, pk: seq<Byte>, pi: seq<Byte>, alpha: seq<Byte>)
    requires c.Laws()
    ensures forall b :: |c.hash(b)| == 64
    ensures var r := VerifyAndHash(c, pk, pi, alpha);
            match c.dec(pk)
            case None => r == BadKey
            case Some(y) =>
              if c.g.Times(8, y) == c.g.zero then r == SmallOrderKey
              else if |pi| != 80 then r == BadProof
              else
                match c.dec(pi[..32])
                case None => r == Panics
                case Some(gamma) =>
                  var challenge, s := FromBytes(pi[32..48]), FromBytes(pi[48..80]) % c.order;
                  exists h :: IsHashedMessage(c, y, alpha, h) &&
                    r == if c.hash(ChallengeInput(c, y, h, gamma, challenge, s))[..16] == pi[32..48]
                         then Accepted(c.hash([4, 3] + c.enc(c.g.Times(8, gamma))))
                         else Refused
  {
    HashIsLong(c);
    if c.dec(pk).Some? && |pi| == 80 && c.dec(pi[..32]).Some? {
      var y := c.dec(pk).value;
      HashedMessage(c, y, alpha);
      DecodedVerdict(c, y, pi, alpha, c.HashToCurve(y, alpha), c.dec(pi[..32]).value);
    }
  }

  /**
   * Changing an accepted proof behind its point: with another challenge but the same
   * recomputed points it is refused; with the same challenge and another scalar it is
   * refused unless the recomputed points are the same ones or the hash of other points
   * begins with the same 16 bytes.
   */
  lemma ChangedProofRefused<G(!new)>(
    c: Curve<G>, y: G, pi: seq<Byte>, changed: seq<Byte>, alpha: seq<Byte>, h: G, gamma: G)
    requires c.Laws() && IsHashedMessage(c, y, alpha, h)
    requires |pi| == |changed| == 80 && changed[..32] == pi[..32] && c.dec(pi[..32]) == Some(gamma)
    requires Verify(c, y, pi, alpha).Accepted?
    ensures forall b :: |c.hash(b)| == 64
    ensures var was := ChallengeInput(c, y, h, gamma, FromBytes(pi[32..48]), FromBytes(pi[48..80]) % c.order);
            var now :=
              ChallengeInput(c, y, h, gamma, FromBytes(changed[32..48]), FromBytes(changed[48..80]) % c.order);
            && (now == was && changed[32..48] != pi[32..48] ==> Verify(c, y, changed, alpha) == Refused)
            && (changed[32..48] == pi[32..48] ==>
                (Verify(c, y, changed, alpha).Accepted? <==> c.hash(now)[..16] == c.hash(was)[..16]))
  {
    DecodedVerdict(c, y, pi, alpha, h, gamma);
    DecodedVerdict(c, y, changed, alpha, h, gamma);
  }

  /** Points that differ are hashed from strings that differ: the only way to be accepted is a collision. */
  lemma OtherPointsOtherInput<G(!new)>(c: Curve<G>, y: G, h: G, gamma: G, challenge: nat, s: nat, other: nat)
    requires c.Laws()
    ensures ChallengeInput(c, y, h, gamma, challenge, s) == ChallengeInput(c, y, h, gamma, challenge, other)
       <==> c.g.Times(s, c.base) == c.g.Times(other, c.base) && c.g.Times(s, h) == c.g.Times(other, h)
  {
    var cy, cg := c.g.Times(challenge, y), c.g.Times(challenge, gamma);
    var u1, u2 := c.g.Sub(c.g.Times(s, c.base), cy), c.g.Sub(c.g.Times(other, c.base), cy);
    var v1, v2 := c.g.Sub(c.g.Times(s, h), cg), c.g.Sub(c.g.Times(other, h), cg);
    assert Use(h) && Use(gamma) && Use(u1) && Use(u2) && Use(v1) && Use(v2);
    SubCancel(c.g, c.g.Times(s, c.base), c.g.Times(other, c.base), cy);
    SubCancel(c.g, c.g.Times(s, h), c.g.Times(other, h), cg);
    var prefix := [4, 2] + c.enc(h) + c.enc(gamma);
    SameParts(prefix, c.enc(u1), c.enc(v1), c.enc(u2), c.enc(v2));
  }

  lemma SameParts(prefix: seq<Byte>, a: seq<Byte>, b: seq<Byte>, x: seq<Byte>, y: seq<Byte>)
    requires |a| == |b| == |x| == |y| == 32
    ensures prefix + a + b == prefix + x + y <==> a == x && b == y
  {
    var k := |prefix|;
    assert (prefix + a + b)[k..k + 32] == a && (prefix + x + y)[k..k + 32] == x;
    assert (prefix + a + b)[k + 32..] == b && (prefix + x + y)[k + 32..] == y;
  }

  lemma SubCancel<G(!new)>(g: Group<G>, a: G, b: G, d: G)
    requires g.Laws()
    ensures g.Sub(a, d) == g.Sub(b, d) <==> a == b
  {
    SubAdd(g, a, d);
    SubAdd(g, b, d);
  }

  lemma SubAdd<G(!new)>(g: Group<G>, a: G, d: G)
    requires g.Laws()
    ensures g.add(g.Sub(a, d), d) == a
  {
    g.Assoc(a, g.neg(d), d);
    g.Comm(g.neg(d), d);
    assert Use(d) && Use(a);
  }

  lemma PointsHashed<G(!new)>(c: Curve<G>, p1: G, p2: G, p3: G, p4: G)
    requires c.Laws()
    ensures |c.hash([SUITE, 2] + c.enc(p1) + c.enc(p2) + c.enc(p3) + c.enc(p4))| == 64
    ensures |c.hash(FourPoints(c, p1, p2, p3, p4))| == 64
    ensures c.HashPoints(p1, p2, p3, p4) == FromBytes(c.hash(FourPoints(c, p1, p2, p3, p4))[..16])
  {
    HashIsLong(c);
  }

  /** The nonce is a hash of the secret half and H, modulo the order. */
  lemma NonceExactly<G(!new)>(c: Curve<G>, truncated: seq<Byte>, h: G)
    requires c.Laws()
    ensures forall b :: |c.hash(b)| == 64
    ensures 0 < c.order && c.Nonce(truncated, h) == FromBytes(c.hash(truncated + c.enc(h))) % c.order
  {
    HashIsLong(c);
    assert Scalar(FromBytes(c.hash(truncated + c.enc(h))));
  }

  /** What a proof consists of: x H, the first half of the challenge's hash, and challenge times x plus the nonce. */
  lemma ProofWithNonce<G(!new)>(
    c: Curve<G>, y: G, x: nat, truncated: seq<Byte>, alpha: seq<Byte>, h: G, k: nat)
    requires c.Laws() && IsHashedMessage(c, y, alpha, h) && k == c.Nonce(truncated, h)
    ensures 0 < c.order && forall b :: |c.hash(b)| == 64
    ensures var digest := c.hash(FourPoints(c, h, c.g.Times(x, h), c.g.Times(k, c.base), c.g.Times(k, h)));
            Prove(c, y, x, truncated, alpha)
              == c.enc(c.g.Times(x, h)) + digest[..16] + ToBytes((FromBytes(digest[..16]) * x + k) % c.order, 32)
  {
    HashIsLong(c);
    HashedMessage(c, y, alpha);
    var gamma := c.g.Times(x, h);
    var digest := c.hash(FourPoints(c, h, gamma, c.g.Times(k, c.base), c.g.Times(k, h)))[..16];
    EncodedExactly(c, gamma, digest, x, k);
    PointsHashed(c, h, gamma, c.g.Times(k, c.base), c.g.Times(k, h));
  }

  lemma EncodedExactly<G(!new)>(c: Curve<G>, gamma: G, digest: seq<Byte>, x: nat, k: nat)
    requires c.Laws() && 0 < c.order && |digest| == 16
    ensures var challenge := FromBytes(digest);
            EncodeProof(c, gamma, challenge, c.mulAdd(challenge, x, k))
              == c.enc(gamma) + digest + ToBytes((challenge * x + k) % c.order, 32)
  {
    DigestWritten(digest);
    assert Scalars(FromBytes(digest), x, k);
  }

  /** The keys of a seed, and what is read back from the secret one. */
  lemma KeysExactly<G(!new)>(c: Curve<G>, seed: seq<Byte>)
    requires c.Laws() && |seed| == 32
    ensures |c.hash(seed)| == 64
    ensures var keys, x := KeyGen(c, seed), c.clamp(c.hash(seed)[..32]);
            && keys.pk == c.enc(c.g.Times(x, c.base)) && keys.sk == seed + keys.pk
            && Expand(c, keys.sk) == Expanded(Some(c.g.Times(x, c.base)), x, c.hash(seed)[32..])
  {
    assert Use(seed);
    var keys, y := KeyGen(c, seed), c.g.Times(c.clamp(c.hash(seed)[..32]), c.base);
    assert Use(y);
    assert keys.sk[..32] == seed && keys.sk[32..] == c.enc(y);
  }

  // ----------------------------------------------------------------- completeness

  /** (challenge x + k) q - challenge (x q) is k q. */
  lemma ResponseOpens<G(!new)>(g: Group<G>, challenge: nat, x: nat, k: nat, q: G)
    requires g.Laws()
    ensures g.Sub(g.Times(challenge * x + k, q), g.Times(challenge, g.Times(x, q))) == g.Times(k, q)
  {
    var m := challenge * x;
    g.TimesMul(challenge, x, q);
    g.TimesAdd(m, k, q);
    g.Comm(g.Times(m, q), g.Times(k, q));
    g.AddSub(g.Times(k, q), g.Times(m, q));
  }

  lemma HashedPointHasOrder<G(!new)>(c: Curve<G>, y: G, alpha: seq<Byte>)
    requires c.Laws() && |c.hash([SUITE, 1] + c.enc(y) + alpha)| == 64
    ensures c.g.Times(c.order, c.HashToCurve(y, alpha)) == c.g.zero
  {
    var q := c.mapToCurve(c.ClearSign(c.hash([SUITE, 1] + c.enc(y) + alpha))[..32]);
    assert Use(q);
    c.g.TimesMul(c.order, 8, q);
  }

  /** The challenge of an honest proof, before it is cut to 16 bytes. */
  function Challenge<G(!new)>(c: Curve<G>, h: G, x: nat, k: nat): nat
    requires c.Laws()
  {
    HashIsLong(c);
    c.HashPoints(h, c.g.Times(x, h), c.g.Times(k, c.base), c.g.Times(k, h))
  }

  lemma ChallengeIsShort<G(!new)>(c: Curve<G>, h: G, x: nat, k: nat)
    requires c.Laws()
    ensures Challenge(c, h, x, k) < Limit(16)
  {
    HashIsLong(c);
    var kB, kH := c.g.Times(k, c.base), c.g.Times(k, h);
    FromBytesBound(c.hash([SUITE, 2] + c.enc(h) + c.enc(c.g.Times(x, h)) + c.enc(kB) + c.enc(kH))[..16]);
  }

  /** The verifier's U and V are the prover's kB and kH, so both get the same challenge. */
  lemma SameChallenge<G(!new)>(c: Curve<G>, h: G, x: nat, k: nat, challenge: nat, s: nat)
    requires c.Laws()
    requires c.g.Times(s, c.base) == c.g.Times(challenge * x + k, c.base)
    requires c.g.Times(s, h) == c.g.Times(challenge * x + k, h)
    ensures Recompute(c, c.g.Times(x, c.base), h, c.g.Times(x, h), challenge, s) == Challenge(c, h, x, k)
  {
    ResponseOpens(c.g, challenge, x, k, c.base);
    ResponseOpens(c.g, challenge, x, k, h);
  }

  /** An encoded proof whose challenge is recomputed is accepted. */
  lemma RecomputedIsAccepted<G(!new)>(
    c: Curve<G>, y: G, gamma: G, challenge: nat, s: nat, alpha: seq<Byte>)
    requires c.Laws() && HashLongEnough(c, y, alpha) && challenge < Limit(16) && s < c.order
    requires Recompute(c, y, c.HashToCurve(y, alpha), gamma, challenge, s) == challenge
    ensures Verify(c, y, EncodeProof(c, gamma, challenge, s), alpha) == Accepted(ProofToHash(c, gamma))
  {
    ProofRoundTrip(c, gamma, challenge, s);
    ReduceSmall(c, challenge);
    ReduceSmall(c, s);
  }

  /** The reduced response acts like the unreduced one on the base point and on the hashed point. */
  lemma ReducedResponse<G(!new)>(c: Curve<G>, challenge: nat, x: nat, k: nat, h: G)
    requires c.Laws() && 0 < c.order && c.g.Times(c.order, h) == c.g.zero
    ensures var s := c.mulAdd(challenge, x, k);
            && s < c.order
            && c.g.Times(s, c.base) == c.g.Times(challenge * x + k, c.base)
            && c.g.Times(s, h) == c.g.Times(challenge * x + k, h)
  {
    assert Scalars(challenge, x, k);
    c.TimesMod(challenge * x + k, c.base);
    c.TimesMod(challenge * x + k, h);
  }

  lemma MessageHashIsLong<G(!new)>(c: Curve<G>, y: G, alpha: seq<Byte>)
    requires c.Laws()
    ensures HashLongEnough(c, y, alpha)
  {
    assert Use([SUITE, 1] + c.enc(y) + alpha);
  }

  /** A proof made with the secret scalar of a public point is accepted. */
  lemma ProofVerifies<G(!new)>(c: Curve<G>, x: nat, truncated: seq<Byte>, alpha: seq<Byte>)
    requires c.Laws()
    ensures var y := c.g.Times(x, c.base);
            HashLongEnough(c, y, alpha) &&
            Verify(c, y, Prove(c, y, x, truncated, alpha), alpha)
              == Accepted(ProofToHash(c, c.g.Times(x, c.HashToCurve(y, alpha))))
  {
    HashIsLong(c);
    var y := c.g.Times(x, c.base);
    MessageHashIsLong(c, y, alpha);
    var h := c.HashToCurve(y, alpha);
    var gamma := c.g.Times(x, h);
    var k := c.Nonce(truncated, h);
    var ch := Challenge(c, h, x, k);
    HashedPointHasOrder(c, y, alpha);
    ChallengeIsShort(c, h, x, k);
    ReducedResponse(c, ch, x, k, h);
    var s := c.mulAdd(ch, x, k);
    SameChallenge(c, h, x, k, ch, s);
    RecomputedIsAccepted(c, y, gamma, ch, s, alpha);
    assert Prove(c, y, x, truncated, alpha) == EncodeProof(c, gamma, ch, s);
  }

  lemma ReduceSmall<G(!new)>(c: Curve<G>, v: nat)
    requires c.Laws() && v < c.order
    ensures c.reduce(v) == v
  {
    assert Scalar(v);
    DivModUnique(v, c.order, 0, v);
  }

  ghost predicate HashLongEnough<G(!new)>(c: Curve<G>, y: G, alpha: seq<Byte>) {
    |c.hash([SUITE, 1] + c.enc(y) + alpha)| == 64
  }

  /**
   * End to end: for every seed and message, the proof made with the generated secret
   * key is accepted under the generated public key, with the output computed from the
   * proof, exactly if the public point is not of small order.
   */
  lemma Completeness<G(!new)>(c: Curve<G>, seed: seq<Byte>, alpha: seq<Byte>)
    requires c.Laws() && |seed| == 32
    ensures var keys := KeyGen(c, seed);
            var e := Expand(c, keys.sk);
            && e.y.Some? && keys.pk == c.enc(e.y.value) && e.y.value == c.g.Times(e.x, c.base)
            && var y := e.y.value;
               var verdict := VerifyAndHash(c, keys.pk, Prove(c, y, e.x, e.truncated, alpha), alpha);
            && HashLongEnough(c, y, alpha)
            && (verdict.Accepted? <==> c.g.Times(8, y) != c.g.zero)
            && (verdict.Accepted? ==>
                verdict.output == ProofToHash(c, c.g.Times(e.x, c.HashToCurve(y, alpha))))
  {
    var keys := KeyGen(c, seed);
    assert Use(seed);
    assert keys.sk[..32] == seed;
    var e := Expand(c, keys.sk);
    var y := c.g.Times(e.x, c.base);
    assert keys.sk[32..] == c.enc(y);
    assert Use(y);
    ProofVerifies(c, e.x, e.truncated, alpha);
  }
}
