/**
 * Choosing the next roster entry for a tree node (the inner loop of
 * GenerateBigNaryTree, onet/tree.go): going around the roster from a start position
 * for an entry on another host than the parent, preferring unused entries if every
 * entry has to be used.
 */
module HostSearch {

  import opened Arithmetic

  /** The position `d` steps after `start` on a roster of `n`. */
  function At(start: nat, d: nat, n: nat): nat
    requires 0 < n
  {
    (start + d) % n
  }

  /** Whether entry `i` may be taken at all. */
  predicate Available(used: seq<bool>, useAll: bool, i: nat)
    requires i < |used|
  {
    !(useAll && used[i])
  }

  /**
   * The entry to take: the first available one on another host, or, if every
   * available entry is on the parent's host, the first available one.
   */
  ghost predicate Picked<H>(hosts: seq<H>, used: seq<bool>, useAll: bool, start: nat, parentHost: H, r: nat) {
    && 0 < |hosts| == |used| && r < |hosts| && Available(used, useAll, r)
    && (exists d :: 0 <= d < |hosts| && PickedAt(hosts, used, useAll, start, parentHost, r, d))
  }

  ghost predicate PickedAt<H>(
    hosts: seq<H>, used: seq<bool>, useAll: bool, start: nat, parentHost: H, r: nat, d: nat)
    requires 0 < |hosts| == |used| && r < |hosts|
  {
    && At(start, d, |hosts|) == r
    && if hosts[r] != parentHost
       then SkippedHosts(hosts, used, useAll, start, parentHost, d)
       else SkippedHosts(hosts, used, useAll, start, parentHost, |hosts|) && SkippedUsed(used, useAll, start, d)
  }

  /** Every available entry among the first `d` is on the parent's host. */
  ghost predicate SkippedHosts<H>(
    hosts: seq<H>, used: seq<bool>, useAll: bool, start: nat, parentHost: H, d: nat)
    requires 0 < |hosts| == |used|
  {
    forall e: nat :: e < d ==>
      var i := At(start, e, |hosts|); Available(used, useAll, i) ==> hosts[i] == parentHost
  }

  /** None of the first `d` entries is available. */
  ghost predicate SkippedUsed(used: seq<bool>, useAll: bool, start: nat, d: nat)
    requires 0 < |used|
  {
    forall e: nat :: e < d ==> !Available(used, useAll, At(start, e, |used|))
  }

  lemma Around(start: nat, n: nat, i: nat) returns (d: nat)
    requires start < n && i < n
    ensures d < n && At(start, d, n) == i
  {
    d := if start <= i then i - start else i + n - start;
    Wrap(start + d, n);
  }

  lemma Again(start: nat, d: nat, n: nat)
    requires 0 < n && n <= d
    ensures At(start, d, n) == At(start, d - n, n)
  {
    AddMultiple(start + d - n, n, 1);
  }

  lemma BackAtStart(start: nat, d: nat, n: nat)
    requires start < n && d <= n
    ensures At(start, d, n) == start <==> d == 0 || d == n
  {
    Wrap(start + d, n);
  }

  /**
   * A child ends up on its parent's host only if every entry that could still be
   * taken is on that host.
   */
  lemma SameHostOnlyIfForced<H>(
    hosts: seq<H>, used: seq<bool>, useAll: bool, start: nat, parentHost: H, r: nat)
    requires Picked(hosts, used, useAll, start, parentHost, r) && start < |hosts|
    ensures hosts[r] == parentHost <==>
      forall i: nat :: i < |hosts| && Available(used, useAll, i) ==> hosts[i] == parentHost
  {
    if hosts[r] == parentHost {
      forall i: nat | i < |hosts| && Available(used, useAll, i) ensures hosts[i] == parentHost {
        var d := Around(start, |hosts|, i);
      }
    }
  }

  method FindEntry<H(==)>(hosts: seq<H>, used: seq<bool>, useAll: bool, start: nat, parentHost: H)
    returns (roIndex: nat)
    requires start < |hosts| == |used|
    requires useAll ==> exists i: nat :: i < |used| && !used[i]
    ensures Picked(hosts, used, useAll, start, parentHost, roIndex)
  {
    var n := |hosts|;
    roIndex := start;
    var childHost := hosts[roIndex];
    var roIndexFirst := roIndex;
    var notSameHost := true;
    ghost var d: nat := 0;
    ghost var unused: nat := 0;
    if useAll {
      var i: nat :| i < |used| && !used[i];
      unused := Around(start, n, i);
    }
    while (notSameHost && childHost == parentHost && n > 1) || (useAll && used[roIndex])
      invariant roIndex == At(start, d, n)
      invariant notSameHost ==> d < n && SkippedHosts(hosts, used, useAll, start, parentHost, d)
      invariant notSameHost && Available(used, useAll, roIndex) ==> childHost == hosts[roIndex]
      invariant !notSameHost ==>
        && useAll && n <= d <= n + unused
        && SkippedHosts(hosts, used, useAll, start, parentHost, n)
        && SkippedUsed(used, useAll, start, d - n)
      decreases 2 * n - d
    {
      StepAround(start + d, n);
      if d >= n {
        Again(start, d, n);
      } else {
        BackAtStart(start, d + 1, n);
      }
      roIndex := (roIndex + 1) % n;
      d := d + 1;
      if useAll && used[roIndex] {
        if roIndex == roIndexFirst {
          notSameHost := false;
        }
        continue;
      }
      if roIndex == roIndexFirst {
        break;
      }
      childHost := hosts[roIndex];
    }
    if d >= n {
      Again(start, d, n);
    }
    assert PickedAt(hosts, used, useAll, start, parentHost, roIndex, if d < n then d else d - n);
  }
}
