/** GenerateBigNaryTree (onet/tree.go): a tree of a given size over any roster. */
module BigTree {

  import opened Arithmetic
  import opened HostSearch
  import opened Sequences
  import opened TreeArena
  import opened Wrappers

  function UsedBy(index: seq<nat>, n: nat): seq<bool> {
    seq(n, i requires 0 <= i < n => i in index)
  }

  /** Node `k` got the entry the search prefers, given everything taken before it. */
  ghost predicate ChosenAt<H>(hosts: seq<H>, useAll: bool, index: seq<nat>, parent: seq<int>, k: nat) {
    && 1 <= k < |index| == |parent| && 0 <= parent[k] < k
    && 0 < |hosts| && index[parent[k]] < |hosts|
    && Picked(hosts, UsedBy(index[..k], |hosts|), useAll, (index[k - 1] + 1) % |hosts|,
              hosts[index[parent[k]]], index[k])
  }

  ghost predicate InRoster(index: seq<nat>, n: nat) {
    forall k :: 0 <= k < |index| ==> index[k] < n
  }

  /** What holds of the tree after every added node. */
  ghost predicate Grown<H>(hosts: seq<H>, useAll: bool, t: Tree) {
    && t.Linked() && InRoster(t.index, |hosts|) && t.index[0] == 0
    && (forall k :: 1 <= k < t.Size() ==> ChosenAt(hosts, useAll, t.index, t.parent, k))
    && (useAll ==> Distinct(t.index))
  }

  /** No node has more than `arity` children, and those from `first` on have none yet. */
  ghost predicate Narrow(t: Tree, arity: nat, first: nat) {
    forall p :: 0 <= p < |t.children| ==> |t.children[p]| <= if p < first then arity else 0
  }

  /** Nodes are created parent by parent: level after level, from left to right. */
  ghost predicate BreadthFirst(t: Tree) {
    forall j, k :: 1 <= j < k < |t.parent| ==> t.parent[j] <= t.parent[k]
  }

  /** The tree so far with what the loops carry along: the used entries and the next position. */
  ghost predicate Ready<H>(hosts: seq<H>, useAll: bool, t: Tree, used: seq<bool>, roIndex: nat) {
    && 0 < |hosts| && Grown(hosts, useAll, t)
    && used == UsedBy(t.index, |hosts|) && roIndex == (t.index[t.Size() - 1] + 1) % |hosts|
  }

  lemma GrowOne<H>(hosts: seq<H>, useAll: bool, t: Tree, p: nat, r: nat)
    requires Grown(hosts, useAll, t) && p < t.Size() && 0 < |hosts|
    requires Picked(hosts, UsedBy(t.index, |hosts|), useAll, (t.index[t.Size() - 1] + 1) % |hosts|,
                    hosts[t.index[p]], r)
    ensures Grown(hosts, useAll, AddChild(t, p, r))
  {
    var u := AddChild(t, p, r);
    var m := t.Size();
    assert u.index[..m] == t.index;
    assert ChosenAt(hosts, useAll, u.index, u.parent, m);
    forall k | 1 <= k < m ensures ChosenAt(hosts, useAll, u.index, u.parent, k) {
      assert ChosenAt(hosts, useAll, t.index, t.parent, k);
      assert u.index[..k] == t.index[..k];
    }
    if useAll {
      assert !UsedBy(t.index, |hosts|)[r];
    }
  }

  /** One child: search an entry, take it, move on. */
  method AddOne<H(==)>(hosts: seq<H>, useAll: bool, t: Tree, used: array<bool>, roIndex: nat, p: nat)
    returns (u: Tree, next: nat)
    requires Ready(hosts, useAll, t, used[..], roIndex) && p < t.Size()
    requires useAll ==> t.Size() < |hosts|
    modifies used
    ensures Ready(hosts, useAll, u, used[..], next)
    ensures u.Size() == t.Size() + 1 && u == AddChild(t, p, u.index[t.Size()])
  {
    if useAll {
      Pigeonhole(t.index, |hosts|);
      var i: nat :| i < |hosts| && i !in t.index;
      assert !used[..][i];
    }
    var r := FindEntry(hosts, used[..], useAll, roIndex, hosts[t.index[p]]);
    GrowOne(hosts, useAll, t, p, r);
    u := AddChild(t, p, r);
    used[r] := true;
    next := (r + 1) % |hosts|;
    assert forall i: nat :: i < |hosts| ==> used[..][i] == UsedBy(u.index, |hosts|)[i];
  }

  /** The number of children of parent `i` of `len` when `left` nodes are still to be made. */
  function Share(left: nat, i: nat, len: nat, arity: nat): (children: nat)
    requires i < len
    ensures children <= left && children <= arity
    ensures i == len - 1 ==> children == if left < arity then left else arity
  {
    var children := left * (i + 1) / len;
    ShareBound(left, i + 1, len);
    if children > arity then arity else children
  }

  lemma ShareBound(left: nat, i: nat, len: nat)
    requires 0 < i <= len
    ensures 0 <= left * i / len <= left
    ensures i == len ==> left * i / len == left
  {
    MulMonotone(i, len, left);
    var x := left * i;
    assert x == len * (x / len) + x % len;
    if x / len > left {
      MulMonotone(left + 1, x / len, len);
    }
    if i == len {
      DivModUnique(x, len, left, 0);
    }
  }

  /** Gives the next parent of a level its children. */
  method AddChildren<H(==)>(
    hosts: seq<H>, useAll: bool, t: Tree, used: array<bool>, roIndex: nat, p: nat, children: nat)
    returns (u: Tree, next: nat)
    requires Ready(hosts, useAll, t, used[..], roIndex) && p < t.Size()
    requires useAll ==> t.Size() + children <= |hosts|
    requires t.children[p] == []
    requires BreadthFirst(t) && forall k :: 1 <= k < |t.parent| ==> t.parent[k] <= p
    modifies used
    ensures Ready(hosts, useAll, u, used[..], next) && u.Size() == t.Size() + children
    ensures |u.children[p]| == children && t.parent <= u.parent
    ensures forall k :: t.Size() <= k < u.Size() ==> u.parent[k] == p
    ensures forall q :: 0 <= q < t.Size() && q != p ==> u.children[q] == t.children[q]
    ensures forall q :: t.Size() <= q < u.Size() ==> u.children[q] == []
    ensures BreadthFirst(u) && forall k :: 1 <= k < |u.parent| ==> u.parent[k] <= p
  {
    u, next := t, roIndex;
    var n := 0;
    while n < children
      invariant 0 <= n <= children
      invariant Ready(hosts, useAll, u, used[..], next) && u.Size() == t.Size() + n
      invariant |u.children[p]| == n && t.parent <= u.parent
      invariant forall k :: t.Size() <= k < u.Size() ==> u.parent[k] == p
      invariant forall q :: 0 <= q < t.Size() && q != p ==> u.children[q] == t.children[q]
      invariant forall q :: t.Size() <= q < u.Size() ==> u.children[q] == []
      invariant BreadthFirst(u) && forall k :: 1 <= k < |u.parent| ==> u.parent[k] <= p
    {
      u, next := AddOne(hosts, useAll, u, used, next, p);
      n := n + 1;
    }
  }

  function Least(a: int, b: int): int {
    if a < b then a else b
  }

  /**
   * While parent `i` of a level of `len` is up, either all so far got `arity`
   * children and more nodes are left than the level can hold, or the parents still
   * to come can hold what is left.
   */
  ghost predicate Filling(nodes: nat, from: nat, len: nat, arity: nat, i: nat, size: nat) {
    && i <= len && from <= size <= nodes
    && if nodes - from > len * arity then size == from + i * arity else nodes - size <= (len - i) * arity
  }

  lemma FillStep(nodes: nat, from: nat, len: nat, arity: nat, i: nat, size: nat)
    requires Filling(nodes, from, len, arity, i, size) && i < len
    ensures Filling(nodes, from, len, arity, i + 1, size + Share(nodes - size, i, len, arity))
  {
    var left := nodes - size;
    var c := left * (i + 1) / len;
    ShareBound(left, i + 1, len);
    assert left * (i + 1) == len * c + left * (i + 1) % len;
    assert (len - i) * arity == (len - i - 1) * arity + arity;
    assert (i + 1) * arity == i * arity + arity;
    assert len * arity == i * arity + (len - i) * arity;
    SharesSuffice(left, len, arity, i, c);
  }

  lemma SharesSuffice(left: nat, len: nat, arity: nat, i: nat, c: nat)
    requires i < len && len * c <= left * (i + 1) < len * (c + 1)
    ensures left > (len - i) * arity ==> c >= arity
    ensures left <= (len - i) * arity ==> left - c <= (len - i - 1) * arity
  {
    if left > (len - i) * arity {
      PlentyLeft(left, len, len - i, i + 1, arity, c);
    } else {
      EnoughRoom(left, len, len - i - 1, i + 1, arity, c);
    }
  }

  /** With more left than the remaining parents can hold, the share is at least the arity. */
  lemma PlentyLeft(left: nat, len: nat, a: nat, b: nat, arity: nat, c: nat)
    requires a + b == len + 1 && 1 <= a && 1 <= b
    requires a * arity < left && left * b < len * (c + 1)
    ensures arity <= c
  {
    assert a * b >= len by {
      Distribute(a - 1, 1, b);
      MulMonotone(1, b, a - 1);
      Distribute(a, -1, 1);
    }
    MulMonotone(a * arity, left, b);
    Regroup(a, arity, b);
    MulMonotone(len, a * b, arity);
    CancelLess(len, arity, c + 1);
  }

  /** Otherwise what the share does not take fits the parents after this one. */
  lemma EnoughRoom(left: nat, len: nat, m: nat, b: nat, arity: nat, c: nat)
    requires m + b == len && 1 <= b && left <= (m + 1) * arity && left * b < len * (c + 1)
    ensures left - c <= m * arity
  {
    MulMonotone(m + 1, len, arity);
    MulMonotone(left, len * arity, m);
    Regroup(len, arity, m);
    Distribute(m, b, left);
    Distribute(left - c - 1, c + 1, len);
    assert len * (left - c - 1) < left * m <= len * (arity * m);
    CancelLess(len, left - c - 1, arity * m);
  }

  lemma FillEnd(nodes: nat, from: nat, len: nat, arity: nat, size: nat)
    requires Filling(nodes, from, len, arity, len, size)
    ensures size == Least(nodes, from + len * arity)
  {
  }

  /** The number of nodes made before the children of node `p`: the root and all earlier children. */
  function Made(children: seq<seq<nat>>, p: nat): nat
    requires p <= |children|
  {
    if p == 0 then 1 else Made(children, p - 1) + |children[p - 1]|
  }

  lemma {:induction false} MadeAgrees(a: seq<seq<nat>>, b: seq<seq<nat>>, p: nat)
    requires p <= |a| && p <= |b| && forall q :: 0 <= q < p ==> |a[q]| == |b[q]|
    ensures Made(a, p) == Made(b, p)
  {
    if p == 0 {
    } else {
      MadeAgrees(a, b, p - 1);
    }
  }

  /** Node `lo + i` of a level of `len` got its share of what was left when its turn came. */
  ghost predicate SharedOut(children: seq<seq<nat>>, nodes: nat, arity: nat, lo: nat, len: nat, i: nat) {
    && i < len && lo + i < |children| && Made(children, lo + i) <= nodes
    && |children[lo + i]| == Least(arity, (nodes - Made(children, lo + i)) * (i + 1) / len)
  }

  lemma SharedOutKept(a: seq<seq<nat>>, b: seq<seq<nat>>, nodes: nat, arity: nat, lo: nat, len: nat, i: nat)
    requires SharedOut(a, nodes, arity, lo, len, i) && lo + i < |b|
    requires forall q :: 0 <= q <= lo + i ==> |a[q]| == |b[q]|
    ensures SharedOut(b, nodes, arity, lo, len, i)
  {
    MadeAgrees(a, b, lo + i);
  }

  /** After parent `lo + i` got its share, it and the parents before it are accounted for. */
  lemma ShareTaken(a: seq<seq<nat>>, b: seq<seq<nat>>, nodes: nat, arity: nat, lo: nat, len: nat, i: nat)
    requires i < len && lo + i < |a| <= |b| && Made(a, lo + i) <= nodes
    requires forall q :: 0 <= q < |a| && q != lo + i ==> b[q] == a[q]
    requires |b[lo + i]| == Share(nodes - Made(a, lo + i), i, len, arity)
    requires LevelShared(a, nodes, arity, lo, len, i)
    ensures LevelShared(b, nodes, arity, lo, len, i + 1)
    ensures Made(b, lo + i + 1) == Made(a, lo + i) + |b[lo + i]|
  {
    MadeAgrees(a, b, lo + i);
    forall k: nat | k < i + 1 ensures SharedOut(b, nodes, arity, lo, len, k) {
      if k < i {
        assert SharedOut(a, nodes, arity, lo, len, k);
        SharedOutKept(a, b, nodes, arity, lo, len, k);
      }
    }
  }

  /** The first `k` nodes of a level got their shares. */
  ghost predicate LevelShared(children: seq<seq<nat>>, nodes: nat, arity: nat, lo: nat, len: nat, k: nat) {
    forall i: nat :: i < k ==> SharedOut(children, nodes, arity, lo, len, i)
  }

  /** All nodes of the levels above `level` did. */
  ghost predicate Spread(t: Tree, nodes: nat, arity: nat, level: nat) {
    forall d: nat :: d < level ==>
      LevelShared(t.children, nodes, arity, Complete(arity, d - 1), LevelLength(arity, d), LevelLength(arity, d))
  }

  function LevelLength(arity: nat, d: nat): nat {
    CompleteStep(arity, d);
    Complete(arity, d) - Complete(arity, d - 1)
  }

  lemma {:induction false} CompleteStep(arity: nat, d: nat)
    ensures Complete(arity, d - 1) <= Complete(arity, d)
  {
    if d == 0 {
    } else {
      CompleteStep(arity, d - 1);
      MulMonotone(Complete(arity, d - 2), Complete(arity, d - 1), arity);
    }
  }

  lemma SpreadKept(t: Tree, u: Tree, nodes: nat, arity: nat, level: nat)
    requires 1 <= arity && Spread(t, nodes, arity, level)
    requires t.Size() == |t.children| <= |u.children| && Complete(arity, level - 1) <= |t.children|
    requires forall q :: 0 <= q < Complete(arity, level - 1) ==> u.children[q] == t.children[q]
    requires var len := LevelLength(arity, level);
             LevelShared(u.children, nodes, arity, Complete(arity, level - 1), len, len)
    ensures Spread(u, nodes, arity, level + 1)
  {
    forall d: nat | d < level
      ensures var len := LevelLength(arity, d);
              LevelShared(u.children, nodes, arity, Complete(arity, d - 1), len, len)
    {
      var lo, len := Complete(arity, d - 1), LevelLength(arity, d);
      if d < level - 1 {
        CompleteGrows(arity, d, level - 1);
      }
      forall i: nat | i < len ensures SharedOut(u.children, nodes, arity, lo, len, i) {
        assert LevelShared(t.children, nodes, arity, lo, len, len);
        SharedOutKept(t.children, u.children, nodes, arity, lo, len, i);
      }
    }
  }

  function Numbers(from: nat, n: nat): (s: seq<nat>)
    ensures |s| == n && forall i :: 0 <= i < n ==> s[i] == from + i
  {
    seq(n, i requires 0 <= i < n => from + i)
  }

  lemma NumbersAppend(from: nat, a: nat, b: nat)
    ensures Numbers(from, a) + Numbers(from + a, b) == Numbers(from, a + b)
  {
  }

  /** The state within a level that starts from tree `t`: the first `i` parents have their children. */
  ghost predicate InLevel(t: Tree, u: Tree, arity: nat, nodes: nat, lo: nat, i: nat) {
    && t.Linked() && u.Linked() && lo + i <= t.Size() <= u.Size() <= nodes
    && Narrow(u, arity, lo + i) && BreadthFirst(u)
    && (forall k :: 1 <= k < |u.parent| ==> u.parent[k] < lo + i)
    && t.parent <= u.parent && (forall k :: t.Size() <= k < u.Size() ==> lo <= u.parent[k])
    && Filling(nodes, t.Size(), t.Size() - lo, arity, i, u.Size())
    && Made(u.children, lo + i) == u.Size()
    && LevelShared(u.children, nodes, arity, lo, t.Size() - lo, i)
    && (forall q :: 0 <= q < lo ==> u.children[q] == t.children[q])
  }

  lemma ParentServed(t: Tree, u: Tree, w: Tree, arity: nat, nodes: nat, lo: nat, i: nat)
    requires InLevel(t, u, arity, nodes, lo, i) && lo + i < t.Size() && w.Linked() && u.Size() <= w.Size()
    requires |w.children[lo + i]| == Share(nodes - u.Size(), i, t.Size() - lo, arity)
    requires u.parent <= w.parent && w.Size() == u.Size() + |w.children[lo + i]|
    requires forall k :: u.Size() <= k < w.Size() ==> w.parent[k] == lo + i
    requires forall q :: 0 <= q < u.Size() && q != lo + i ==> w.children[q] == u.children[q]
    requires forall q :: u.Size() <= q < w.Size() ==> w.children[q] == []
    requires BreadthFirst(w)
    ensures InLevel(t, w, arity, nodes, lo, i + 1)
  {
    FillStep(nodes, t.Size(), t.Size() - lo, arity, i, u.Size());
    ShareTaken(u.children, w.children, nodes, arity, lo, t.Size() - lo, i);
  }

  lemma StartLevel(t: Tree, arity: nat, nodes: nat, lo: nat)
    requires t.Linked() && lo < t.Size() < nodes && Made(t.children, lo) == t.Size()
    requires Narrow(t, arity, lo) && BreadthFirst(t) && forall k :: 1 <= k < |t.parent| ==> t.parent[k] < lo
    ensures InLevel(t, t, arity, nodes, lo, 0)
  {
  }

  lemma LevelDone(t: Tree, u: Tree, arity: nat, nodes: nat, lo: nat)
    requires lo <= t.Size() && InLevel(t, u, arity, nodes, lo, t.Size() - lo)
    ensures u.Size() == Least(nodes, t.Size() + (t.Size() - lo) * arity)
  {
    FillEnd(nodes, t.Size(), t.Size() - lo, arity, u.Size());
  }

  /** The turn of parent `lo + i`: its share of children, which are noted for the next level. */
  method ServeParent<H(==)>(
    hosts: seq<H>, useAll: bool, ghost t: Tree, u: Tree, used: array<bool>, roIndex: nat, arity: nat, nodes: nat,
    p: nat, i: nat, len: nat, newLevelNodes: seq<nat>, ghost lo: nat)
    returns (w: Tree, next: nat, noted: seq<nat>)
    requires Ready(hosts, useAll, u, used[..], roIndex) && InLevel(t, u, arity, nodes, lo, i)
    requires lo + i == p < t.Size() && len == t.Size() - lo && (useAll ==> nodes == |hosts|)
    requires newLevelNodes == Numbers(t.Size(), u.Size() - t.Size())
    modifies used
    ensures Ready(hosts, useAll, w, used[..], next) && InLevel(t, w, arity, nodes, lo, i + 1)
    ensures noted == Numbers(t.Size(), w.Size() - t.Size())
  {
    var children := Share(nodes - u.Size(), i, len, arity);
    w, next := AddChildren(hosts, useAll, u, used, roIndex, p, children);
    ParentServed(t, u, w, arity, nodes, lo, i);
    NumbersAppend(t.Size(), u.Size() - t.Size(), children);
    noted := newLevelNodes + Numbers(u.Size(), children);
  }

  /** The loop over the parents of a level. */
  method ServeAll<H(==)>(
    hosts: seq<H>, useAll: bool, t: Tree, used: array<bool>, roIndex: nat, arity: nat, nodes: nat,
    levelNodes: seq<nat>, ghost lo: nat)
    returns (u: Tree, next: nat, newLevelNodes: seq<nat>)
    requires Ready(hosts, useAll, t, used[..], roIndex) && InLevel(t, t, arity, nodes, lo, 0)
    requires lo < t.Size() && levelNodes == Numbers(lo, t.Size() - lo) && (useAll ==> nodes == |hosts|)
    modifies used
    ensures Ready(hosts, useAll, u, used[..], next)
    ensures InLevel(t, u, arity, nodes, lo, t.Size() - lo)
    ensures newLevelNodes == Numbers(t.Size(), u.Size() - t.Size())
  {
    u, next, newLevelNodes := t, roIndex, [];
    var i := 0;
    while i < |levelNodes|
      invariant 0 <= i <= |levelNodes|
      invariant Ready(hosts, useAll, u, used[..], next)
      invariant InLevel(t, u, arity, nodes, lo, i)
      invariant newLevelNodes == Numbers(t.Size(), u.Size() - t.Size())
    {
      u, next, newLevelNodes :=
        ServeParent(hosts, useAll, t, u, used, next, arity, nodes, levelNodes[i], i, |levelNodes|, newLevelNodes, lo);
      i := i + 1;
    }
  }

  /** One level: the nodes `lo .. hi` are parents, their children are appended. */
  method AddLevel<H(==)>(
    hosts: seq<H>, useAll: bool, t: Tree, used: array<bool>, roIndex: nat, arity: nat, nodes: nat,
    levelNodes: seq<nat>, ghost lo: nat)
    returns (u: Tree, next: nat, newLevelNodes: seq<nat>)
    requires Ready(hosts, useAll, t, used[..], roIndex) && 1 <= arity && t.Size() < nodes
    requires useAll ==> nodes == |hosts|
    requires lo < t.Size() && levelNodes == Numbers(lo, t.Size() - lo)
    requires Narrow(t, arity, lo) && BreadthFirst(t) && forall k :: 1 <= k < |t.parent| ==> t.parent[k] < lo
    requires Made(t.children, lo) == t.Size()
    modifies used
    ensures Ready(hosts, useAll, u, used[..], next)
    ensures u.Size() == Least(nodes, t.Size() + |levelNodes| * arity)
    ensures InLevel(t, u, arity, nodes, lo, t.Size() - lo)
    ensures newLevelNodes == Numbers(t.Size(), u.Size() - t.Size())
  {
    StartLevel(t, arity, nodes, lo);
    u, next, newLevelNodes := ServeAll(hosts, useAll, t, used, roIndex, arity, nodes, levelNodes, lo);
    LevelDone(t, u, arity, nodes, lo);
  }

  /** The state between two levels: all levels above `level` are complete and have their children. */
  ghost predicate Leveled(t: Tree, nodes: nat, arity: nat, lo: nat, level: nat) {
    && t.Linked() && Shallow(t.parent, arity)
    && lo == Complete(arity, level - 1) < t.Size() == Least(nodes, Complete(arity, level))
    && Made(t.children, lo) == t.Size()
    && Spread(t, nodes, arity, level)
  }

  lemma NextLevel(t: Tree, u: Tree, nodes: nat, arity: nat, lo: nat, level: nat)
    requires 1 <= arity && Leveled(t, nodes, arity, lo, level) && t.Size() < nodes && u.Linked()
    requires u.Size() == Least(nodes, t.Size() + (t.Size() - lo) * arity)
    requires InLevel(t, u, arity, nodes, lo, t.Size() - lo)
    ensures Leveled(u, nodes, arity, t.Size(), level + 1)
  {
    LevelSize(arity, level);
    CompleteGrows(arity, level, level + 1);
    SpreadKept(t, u, nodes, arity, level);
    NextLevelShallow(t.parent, u.parent, arity, level);
  }

  lemma LevelSize(arity: nat, level: nat)
    ensures Complete(arity, level) + (Complete(arity, level) - Complete(arity, level - 1)) * arity
         == Complete(arity, level + 1)
  {
    var before: int := Complete(arity, level - 1);
    Distribute(Complete(arity, level), 0 - before, arity);
  }

  /**
   * The tree has exactly `nodes` nodes, at most `arity` children each, made level by
   * level with no node deeper than in the complete tree; every entry is the one the
   * search prefers; and when `nodes` is the length of the roster every entry is used
   * exactly once. None is the panic on an empty roster. An arity of zero is left out:
   * the source does not terminate on it.
   */
  method GenerateBigNaryTree<H(==)>(hosts: seq<H>, arity: nat, nodes: int) returns (r: Option<Tree>)
    requires 1 <= arity
    ensures r.None? <==> hosts == []
    ensures r.Some? ==>
      && Grown(hosts, |hosts| == nodes, r.value)
      && r.value.Size() == (if nodes < 1 then 1 else nodes)
      && BreadthFirst(r.value) && Narrow(r.value, arity, r.value.Size()) && Shallow(r.value.parent, arity)
    // nodes are dealt out level by level in proportion, and the last level has no children
    ensures r.Some? && 1 <= nodes ==>
      exists level: nat :: Spread(r.value, nodes, arity, level)
        && forall q :: Complete(arity, level - 1) <= q < r.value.Size() ==> r.value.children[q] == []
    ensures r.Some? && |hosts| == nodes ==>
      Distinct(r.value.index) && forall i: nat :: i < |hosts| ==> i in r.value.index
  {
    if |hosts| == 0 {
      return None;
    }
    var t;
    ghost var lo, level;
    t, lo, level := MakeLevels(hosts, arity, nodes);
    if |hosts| == nodes {
      Pigeonhole(t.index, |hosts|);
    }
    r := Some(t);
  }

  /** What holds between two levels; the nodes from `lo` on are the last level made. */
  ghost predicate Between(t: Tree, nodes: int, arity: nat, levelNodes: seq<nat>, lo: nat, level: nat) {
    && Leveled(t, if nodes < 1 then 1 else nodes, arity, lo, level)
    && lo < t.Size() && levelNodes == Numbers(lo, t.Size() - lo)
    && Narrow(t, arity, lo) && BreadthFirst(t) && forall k :: 1 <= k < |t.parent| ==> t.parent[k] < lo
  }

  /** The root alone. */
  method Start<H(==)>(hosts: seq<H>, useAll: bool, ghost arity: nat, ghost nodes: int)
    returns (t: Tree, used: array<bool>, roIndex: nat, levelNodes: seq<nat>)
    requires 1 <= arity && 0 < |hosts| && (useAll <==> |hosts| == nodes)
    ensures fresh(used) && Ready(hosts, useAll, t, used[..], roIndex)
    ensures t.Size() == 1 && Between(t, nodes, arity, levelNodes, 0, 0)
  {
    var ilLen := |hosts|;
    used := new bool[ilLen](i => false);
    t := Single(0);
    used[0] := true;
    levelNodes := [0];
    roIndex := 1 % ilLen;
    assert forall i :: 0 <= i < ilLen ==> used[..][i] == UsedBy(t.index, ilLen)[i];
  }

  method MakeLevels<H(==)>(hosts: seq<H>, arity: nat, nodes: int)
    returns (t: Tree, ghost lo: nat, ghost level: nat)
    requires 1 <= arity && 0 < |hosts|
    ensures Grown(hosts, |hosts| == nodes, t)
    ensures BreadthFirst(t) && Narrow(t, arity, t.Size())
    ensures t.Size() == if nodes < 1 then 1 else nodes
    ensures Leveled(t, if nodes < 1 then 1 else nodes, arity, lo, level)
    ensures forall q :: lo <= q < t.Size() ==> t.children[q] == []
  {
    var used, roIndex, levelNodes;
    var useAll := |hosts| == nodes;
    t, used, roIndex, levelNodes := Start(hosts, useAll, arity, nodes);
    lo, level := 0, 0;
    while t.Size() < nodes
      invariant Ready(hosts, useAll, t, used[..], roIndex)
      invariant t.Size() <= (if nodes < 1 then 1 else nodes)
      invariant Between(t, nodes, arity, levelNodes, lo, level)
      decreases nodes - t.Size()
    {
      ghost var before := t;
      t, roIndex, levelNodes := AddLevel(hosts, useAll, t, used, roIndex, arity, nodes, levelNodes, lo);
      NextLevel(before, t, nodes, arity, lo, level);
      lo, level := before.Size(), level + 1;
    }
    assert forall q :: lo <= q < t.Size() ==> |t.children[q]| == 0;
  }

  /**
   * In the finished tree a child shares its parent's host only if every entry that
   * was still available at that point was on that host.
   */
  lemma SharesHostOnlyIfForced<H>(hosts: seq<H>, nodes: int, t: Tree, k: nat)
    requires Grown(hosts, |hosts| == nodes, t) && 0 < |hosts| && 1 <= k < t.Size()
    ensures hosts[t.index[k]] == hosts[t.index[t.parent[k]]] <==>
      forall i: nat :: i < |hosts| && !(|hosts| == nodes && i in t.index[..k]) ==>
        hosts[i] == hosts[t.index[t.parent[k]]]
  {
    var useAll, used := |hosts| == nodes, UsedBy(t.index[..k], |hosts|);
    assert ChosenAt(hosts, useAll, t.index, t.parent, k);
    SameHostOnlyIfForced(hosts, used, useAll, (t.index[k - 1] + 1) % |hosts|,
                         hosts[t.index[t.parent[k]]], t.index[k]);
    assert forall i: nat :: i < |hosts| ==>
      (Available(used, useAll, i) <==> !(|hosts| == nodes && i in t.index[..k]));
  }
}
