/** Byte strings and little-endian numbers. */
module Bytes {

  import opened Arithmetic

  type Byte = b: nat | b < 256

  function ToBytes(v: nat, n: nat): (b: seq<Byte>)
    ensures |b| == n
  {
    if n == 0 then [] else [v % 256] + ToBytes(v / 256, n - 1)
  }

  function FromBytes(b: seq<Byte>): nat {
    if b == [] then 0 else b[0] + 256 * FromBytes(b[1..])
  }

  /** 256 to the n. */
  function Limit(n: nat): nat {
    if n == 0 then 1 else 256 * Limit(n - 1)
  }

  lemma {:induction false} RoundTrip(v: nat, n: nat)
    requires v < Limit(n)
    ensures FromBytes(ToBytes(v, n)) == v
  {
    if n == 0 {
    } else {
      assert v == 256 * (v / 256) + v % 256;
      RoundTrip(v / 256, n - 1);
    }
  }

  /** Writing undoes reading: a byte string is the only one of its length for its number. */
  lemma {:induction false} BackToBytes(b: seq<Byte>)
    ensures ToBytes(FromBytes(b), |b|) == b
  {
    if b == [] {
    } else {
      BackToBytes(b[1..]);
      DivModUnique(FromBytes(b), 256, FromBytes(b[1..]), b[0]);
      assert b == [b[0]] + b[1..];
    }
  }

  /** Zeros at the end, where the high digits are, leave the number as it is. */
  lemma {:induction false} TrailingZeros(b: seq<Byte>, n: nat)
    ensures FromBytes(b + Zeros(n)) == FromBytes(b)
    decreases |b|, n
  {
    if b == [] {
      assert b + Zeros(n) == Zeros(n);
      if n > 0 {
        TrailingZeros([], n - 1);
        assert [] + Zeros(n - 1) == Zeros(n - 1);
        assert Zeros(n)[1..] == Zeros(n - 1);
      }
    } else {
      TrailingZeros(b[1..], n);
      assert (b + Zeros(n))[1..] == b[1..] + Zeros(n);
    }
  }

  lemma {:induction false} FromBytesBound(b: seq<Byte>)
    ensures FromBytes(b) < Limit(|b|)
  {
    if b == [] {
    } else {
      FromBytesBound(b[1..]);
    }
  }

  /** A small number written long is the number written short, padded with zeros. */
  lemma {:induction false} Padding(v: nat, m: nat, n: nat)
    requires m <= n && v < Limit(m)
    ensures ToBytes(v, n) == ToBytes(v, m) + Zeros(n - m)
  {
    if n == 0 {
    } else if m == 0 {
      DivModUnique(0, 256, 0, 0);
      Padding(0, 0, n - 1);
    } else {
      Padding(v / 256, m - 1, n - 1);
      PaddingStep([v % 256], ToBytes(v / 256, m - 1), Zeros(n - m), ToBytes(v / 256, n - 1));
    }
  }

  lemma PaddingStep(low: seq<Byte>, short: seq<Byte>, zeros: seq<Byte>, long: seq<Byte>)
    requires long == short + zeros
    ensures low + long == low + short + zeros
  {
  }

  function Zeros(n: nat): (z: seq<Byte>)
    ensures |z| == n
  {
    if n == 0 then [] else [0] + Zeros(n - 1)
  }

  lemma LimitGrows(a: nat, b: nat)
    requires a <= b
    ensures Limit(a) <= Limit(b)
    decreases b
  {
    if a < b {
      LimitGrows(a, b - 1);
    }
  }
}
