/** The greedy block-packing loops, as arithmetic on lists of sizes. */
module Packing {

  function Sum(xs: seq<nat>): nat {
    if xs == [] then 0 else xs[0] + Sum(xs[1..])
  }

  /** How many leading transactions a packing loop takes when `acc` bytes are already
      used: it stops at the first one that no longer fits. */
  function FitCount(sizes: seq<nat>, acc: int, budget: int): (n: nat)
    ensures n <= |sizes|
  {
    if sizes == [] || acc + sizes[0] > budget then 0
    else 1 + FitCount(sizes[1..], acc + sizes[0], budget)
  }

  /** Every nonempty prefix of the queue fits exactly when it is within the taken one. */
  lemma {:induction false} LongestFittingPrefix(sizes: seq<nat>, acc: int, budget: int, k: nat)
    requires 1 <= k <= |sizes|
    ensures acc + Sum(sizes[..k]) <= budget <==> k <= FitCount(sizes, acc, budget)
  {
    assert sizes[..k][1..] == sizes[1..][..k - 1];
    if acc + sizes[0] <= budget && k > 1 {
      LongestFittingPrefix(sizes[1..], acc + sizes[0], budget, k - 1);
    } else {
      assert sizes[..1][1..] == [];
    }
  }

  lemma {:induction false} SumAppend(a: seq<nat>, b: seq<nat>)
    ensures Sum(a + b) == Sum(a) + Sum(b)
  {
    if a == [] {
      assert a + b == b;
    } else {
      assert (a + b)[1..] == a[1..] + b;
      SumAppend(a[1..], b);
    }
  }

  lemma SumPrefixStep(xs: seq<nat>, k: nat)
    requires k < |xs|
    ensures Sum(xs[..k + 1]) == Sum(xs[..k]) + xs[k]
  {
    assert xs[..k + 1] == xs[..k] + [xs[k]];
    SumAppend(xs[..k], [xs[k]]);
  }

  /** A loop that is at position `k` with everything before taken continues exactly
      when the next transaction fits. */
  lemma FitCountAt(sizes: seq<nat>, acc: int, budget: int, k: nat)
    requires k < |sizes| && k <= FitCount(sizes, acc, budget)
    ensures k < FitCount(sizes, acc, budget) <==> acc + Sum(sizes[..k]) + sizes[k] <= budget
  {
    SumPrefixStep(sizes, k);
    LongestFittingPrefix(sizes, acc, budget, k + 1);
  }
}
