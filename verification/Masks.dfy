/**
 * Participation masks. A mask over a roster of `n` keys is the set of positions
 * whose bit is set; counting, ranking and merging are the operations the signing
 * protocol uses. Sums over a mask are taken in roster order.
 */
module Masks {

  import opened Algebra
  import opened Sequences

  type Mask = set<nat>

  /** The enabled positions below `n`, in roster order. */
  function Enabled(mask: Mask, n: nat): seq<nat> {
    if n == 0 then []
    else Enabled(mask, n - 1) + if n - 1 in mask then [n - 1] else []
  }

  function CountEnabled(mask: Mask, n: nat): nat {
    |Enabled(mask, n)|
  }

  /** How many enabled positions come before `index`, or -1 if it is not enabled. */
  function NthEnabledAtIndex(mask: Mask, n: nat, index: nat): int {
    if index < n && index in mask then CountEnabled(mask, index) else -1
  }

  function IndexOfNthEnabled(mask: Mask, n: nat, nth: nat): int {
    if nth < CountEnabled(mask, n) then Enabled(mask, n)[nth] else -1
  }

  lemma {:induction false} EnabledFacts(mask: Mask, n: nat)
    ensures forall i :: i in Enabled(mask, n) <==> i in mask && i < n
    ensures Ascending(Enabled(mask, n))
  {
    if n == 0 {
    } else {
      EnabledFacts(mask, n - 1);
      var s := Enabled(mask, n - 1);
      if n - 1 in mask {
        assert Enabled(mask, n) == s + [n - 1];
        assert s != [] ==> s[|s| - 1] in s;
        ExtendAscending(s, n - 1);
      } else {
        assert Enabled(mask, n) == s;
      }
    }
  }

  lemma {:induction false} EnabledAgree(a: Mask, b: Mask, n: nat)
    requires forall i :: 0 <= i < n ==> (i in a <==> i in b)
    ensures Enabled(a, n) == Enabled(b, n)
  {
    if n == 0 {
    } else {
      EnabledAgree(a, b, n - 1);
    }
  }

  lemma {:induction false} EnabledNone(n: nat)
    ensures Enabled({}, n) == []
  {
    if n == 0 {
    } else {
      EnabledNone(n - 1);
    }
  }

  /** Enabling one more position puts it at its rank, all others keeping their order. */
  lemma {:induction false} EnabledInsert(mask: Mask, n: nat, index: nat)
    requires index < n && index !in mask
    ensures var r := NthEnabledAtIndex(mask + {index}, n, index);
            && 0 <= r <= CountEnabled(mask, n)
            && Enabled(mask + {index}, n) == Enabled(mask, n)[..r] + [index] + Enabled(mask, n)[r..]
  {
    EnabledAgree(mask, mask + {index}, index);
    if n == index + 1 {
    } else {
      EnabledInsert(mask, n - 1, index);
    }
  }

  lemma {:induction false} CountUnion(a: Mask, b: Mask, n: nat)
    requires a !! b
    ensures CountEnabled(a + b, n) == CountEnabled(a, n) + CountEnabled(b, n)
  {
    if n == 0 {
    } else {
      CountUnion(a, b, n - 1);
    }
  }

  lemma {:induction false} CountSingle(i: nat, n: nat)
    ensures CountEnabled({i}, n) == if i < n then 1 else 0
  {
    if n == 0 {
    } else {
      CountSingle(i, n - 1);
    }
  }

  /** For a mask over the roster, the count is the size of the set. */
  lemma {:induction false} CountIsSize(mask: Mask, n: nat)
    requires forall i :: i in mask ==> i < n
    ensures CountEnabled(mask, n) == |mask|
  {
    if n == 0 {
      assert mask == {};
    } else if n - 1 in mask {
      var rest := mask - {n - 1};
      CountIsSize(rest, n - 1);
      EnabledAgree(rest, mask, n - 1);
      assert mask == rest + {n - 1};
    } else {
      CountIsSize(mask, n - 1);
    }
  }

  // ---------------------------------------------------------- sums over a mask

  function FlatSum<G(!new)>(g: Group<G>, share: nat -> G, mask: Mask, n: nat): G {
    if n == 0 then g.zero
    else if n - 1 in mask then g.add(FlatSum(g, share, mask, n - 1), share(n - 1))
    else FlatSum(g, share, mask, n - 1)
  }

  lemma {:induction false} FlatSumEmpty<G(!new)>(g: Group<G>, share: nat -> G, n: nat)
    ensures FlatSum(g, share, {}, n) == g.zero
  {
    if n == 0 {
    } else {
      FlatSumEmpty(g, share, n - 1);
    }
  }

  /** Sums over masks that share no position add up to the sum over their union. */
  lemma {:induction false} FlatSumUnion<G(!new)>(g: Group<G>, share: nat -> G, a: Mask, b: Mask, n: nat)
    requires g.Laws() && a !! b
    ensures FlatSum(g, share, a + b, n) == g.add(FlatSum(g, share, a, n), FlatSum(g, share, b, n))
  {
    if n == 0 {
      g.Unit(g.zero);
    } else {
      FlatSumUnion(g, share, a, b, n - 1);
      var x, y, s := FlatSum(g, share, a, n - 1), FlatSum(g, share, b, n - 1), share(n - 1);
      if n - 1 in a {
        g.Assoc(x, y, s);
        g.Comm(y, s);
        g.Assoc(x, s, y);
      } else if n - 1 in b {
        g.Assoc(x, y, s);
      }
    }
  }
}
