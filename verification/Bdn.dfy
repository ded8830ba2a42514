/**
 * The signature scheme as the protocol uses it: a signer's signature is its secret
 * times the hashed message, its key is its secret times the base point, and
 * aggregates weight position `i` by its coefficient plus one, the coefficients
 * being derived from the whole roster's keys (extra_required_parts_from_blscosi.go
 * and struct_bdn.go in MainAndSideChain/BLSCoSi). Hashing is not part of this model.
 */
module Bdn {

  import opened Algebra
  import opened Masks
  import opened Wrappers

  datatype Scheme<!A(!new), !B(!new), !T(==,!new)> = Scheme(
    p: Pairing<A, B, T>, hash: A, base: B, n: nat, secret: nat -> nat, coef: nat -> nat)
  {
    function Sign(i: nat): A {
      p.g1.Times(secret(i), hash)
    }

    function Public(i: nat): B {
      p.g2.Times(secret(i), base)
    }

    function Share(i: nat): A {
      p.g1.Times(coef(i) + 1, Sign(i))
    }

    function KeyShare(i: nat): B {
      p.g2.Times(coef(i) + 1, Public(i))
    }

    /** A signature checks against a key when the two pairings agree. */
    predicate Verifies(key: B, sig: A) {
      p.e(hash, key) == p.e(sig, base)
    }

    /** Pairing with the base point loses nothing: the groups have the same prime order. */
    ghost predicate Faithful() {
      forall a, b {:trigger Use2(a, b)} :: p.e(a, base) == p.e(b, base) ==> a == b
    }

    /** The flat aggregate over a mask: what one signer collecting everything would compute. */
    ghost function Flat(mask: Mask): A {
      FlatUpTo(mask, n)
    }

    ghost function FlatUpTo(mask: Mask, k: nat): A {
      FlatSum(p.g1, (i: nat) => Share(i), mask, k)
    }

    function FlatKey(mask: Mask): B {
      FlatKeyUpTo(mask, n)
    }

    function FlatKeyUpTo(mask: Mask, k: nat): B {
      FlatSum(p.g2, (i: nat) => KeyShare(i), mask, k)
    }

    lemma OwnSignatureVerifies(i: nat)
      requires p.Laws()
      ensures Verifies(Public(i), Sign(i))
    {
      p.TimesLeft(secret(i), hash, base);
      p.TimesRight(secret(i), hash, base);
    }

    /** Only the holder's signature verifies under its key. */
    lemma VerifiedIsOwn(i: nat, sig: A)
      requires p.Laws() && Faithful() && Verifies(Public(i), sig)
      ensures sig == Sign(i)
    {
      OwnSignatureVerifies(i);
      assert Use2(sig, Sign(i));
    }

    /** Written out: every position in the mask adds its coefficient plus one times its secret times the hash. */
    lemma {:induction false} FlatWeights(mask: Mask, k: nat)
      requires p.Laws()
      ensures FlatUpTo(mask, k)
           == p.g1.Sum((i: nat) => if i in mask then p.g1.Times((coef(i) + 1) * secret(i), hash) else p.g1.zero, k)
    {
      if k == 0 {
      } else {
        FlatWeights(mask, k - 1);
        p.g1.TimesMul(coef(k - 1) + 1, secret(k - 1), hash);
        p.g1.Unit(FlatUpTo(mask, k - 1));
      }
    }

    /** The flat aggregate over any mask verifies under that mask's aggregate key. */
    lemma FlatVerifies(mask: Mask)
      requires p.Laws()
      ensures Verifies(FlatKey(mask), Flat(mask))
    {
      FlatVerifiesUpTo(mask, n);
    }

    lemma {:induction false} FlatVerifiesUpTo(mask: Mask, k: nat)
      requires p.Laws()
      ensures Verifies(FlatKeyUpTo(mask, k), FlatUpTo(mask, k))
    {
      if k == 0 {
        p.ZeroLeft(base);
        p.ZeroRight(hash);
      } else {
        FlatVerifiesUpTo(mask, k - 1);
        if k - 1 in mask {
          var i := k - 1;
          p.AddRight(hash, FlatKeyUpTo(mask, i), KeyShare(i));
          p.AddLeft(FlatUpTo(mask, i), Share(i), base);
          OwnSignatureVerifies(i);
          p.TimesRight(coef(i) + 1, hash, Public(i));
          p.TimesLeft(coef(i) + 1, Sign(i), base);
        }
      }
    }
  }

  /** Signatures listed in the order of the positions enabled in a mask. */
  ghost predicate Listed<A(!new), B(!new), T(!new)>(s: Scheme<A, B, T>, mask: Mask, sigs: seq<A>) {
    var at := Enabled(mask, s.n);
    |sigs| == |at| && forall k :: 0 <= k < |at| ==> sigs[k] == s.Sign(at[k])
  }

  /**
   * The weighted sum of a list of signatures: the k-th signature gets the
   * coefficient of the k-th enabled position. None when the lengths differ.
   */
  method Aggregate<A(!new), B(!new), T(==,!new)>(s: Scheme<A, B, T>, mask: Mask, sigs: seq<A>)
    returns (r: Option<A>)
    ensures r.None? <==> |sigs| != CountEnabled(mask, s.n)
    ensures Listed(s, mask, sigs) ==> r.Some? && r.value == s.Flat(mask)
  {
    if |sigs| != CountEnabled(mask, s.n) {
      return None;
    }
    var agg := s.p.g1.zero;
    var k := 0;
    while k < |sigs|
      invariant 0 <= k <= |sigs|
      invariant Listed(s, mask, sigs) ==> agg == ListSum(s, Enabled(mask, s.n)[..k])
    {
      var peerIndex: nat := IndexOfNthEnabled(mask, s.n, k);
      var weighted := s.p.g1.Times(s.coef(peerIndex), sigs[k]);
      weighted := s.p.g1.add(weighted, sigs[k]);
      agg := s.p.g1.add(agg, weighted);
      assert Enabled(mask, s.n)[..k + 1][..k] == Enabled(mask, s.n)[..k];
      k := k + 1;
    }
    assert Enabled(mask, s.n)[..k] == Enabled(mask, s.n);
    ListSumIsFlat(s, mask, s.n);
    r := Some(agg);
  }

  ghost function ListSum<A(!new), B(!new), T(!new)>(s: Scheme<A, B, T>, at: seq<nat>): A {
    if at == [] then s.p.g1.zero
    else s.p.g1.add(ListSum(s, at[..|at| - 1]), s.Share(at[|at| - 1]))
  }

  lemma {:induction false} ListSumIsFlat<A(!new), B(!new), T(!new)>(s: Scheme<A, B, T>, mask: Mask, n: nat)
    ensures ListSum(s, Enabled(mask, n)) == s.FlatUpTo(mask, n)
  {
    if n == 0 {
    } else {
      ListSumIsFlat(s, mask, n - 1);
      var at := Enabled(mask, n);
      if n - 1 in mask {
        assert at[..|at| - 1] == Enabled(mask, n - 1);
      } else {
        assert at == Enabled(mask, n - 1);
      }
    }
  }
}
