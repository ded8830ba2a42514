/** GenerateNaryTreeWithRoot (onet/tree.go): the complete N-ary tree over a roster. */
module NaryTree {

  import opened Arithmetic
  import opened Sequences
  import opened TreeArena
  import opened Wrappers

  /** NoSuchRoot is the nil the source returns; Panics is an index out of range. */
  datatype Outcome = Built(tree: Tree) | NoSuchRoot | Panics

  /** The first position of `id`, or -1. */
  method Search<Id(==)>(roster: seq<Id>, id: Id) returns (i: int)
    ensures i == -1 <==> id !in roster
    ensures i != -1 ==> 0 <= i < |roster| && roster[i] == id && id !in roster[..i]
  {
    i := 0;
    while i < |roster|
      invariant 0 <= i <= |roster| && id !in roster[..i]
    {
      if roster[i] == id {
        return;
      }
      i := i + 1;
    }
    assert roster[..i] == roster;
    i := -1;
  }

  /** Entry `i` of the roster counted from the root around. */
  ghost predicate EntriesInOrder(index: seq<nat>, rootIndex: nat, n: nat) {
    0 < n && forall i :: 0 <= i < |index| ==> index[i] == (i + rootIndex) % n
  }

  /** So every entry is used exactly once. */
  lemma EveryEntryOnce(index: seq<nat>, rootIndex: nat, n: nat)
    requires EntriesInOrder(index, rootIndex, n) && |index| == n && rootIndex < n
    ensures Distinct(index) && forall i: nat :: i < n ==> i in index
  {
    forall i | 0 <= i < n
      ensures index[i] == if i + rootIndex < n then i + rootIndex else i + rootIndex - n
    {
      Wrap(i + rootIndex, n);
    }
    Pigeonhole(index, n);
  }

  /** The heap shape: node `i` hangs below node (i - 1) / N. */
  ghost predicate HeapShaped(parent: seq<int>, arity: int) {
    arity >= 1 ==> forall i :: 1 <= i < |parent| ==> parent[i] == (i - 1) / arity
  }

  /** With a negative arity no parent ever counts as full. */
  ghost predicate StarShaped(parent: seq<int>, arity: int) {
    arity < 0 ==> forall i :: 1 <= i < |parent| ==> parent[i] == 0
  }

  /**
   * The loop's lists: parents followed by children are the nodes from `p` on, all of
   * them but the first parent still without children.
   */
  ghost predicate Waiting(t: Tree, parents: seq<nat>, children: seq<nat>, p: nat) {
    && t.Linked() && p < t.Size() && parents != []
    && |parents| + |children| == t.Size() - p
    && (forall k :: 0 <= k < |parents| ==> parents[k] == p + k)
    && (forall k :: 0 <= k < |children| ==> children[k] == p + |parents| + k)
    && (forall q :: p < q < t.Size() ==> t.children[q] == [])
  }

  /** When the first parent is tested, the count of all its descendants is that of its children. */
  lemma TestedCountIsChildren(t: Tree, parents: seq<nat>, children: seq<nat>, p: nat)
    requires Waiting(t, parents, children, p)
    ensures SubtreeCount(t, p) == |t.children[p]|
  {
    assert t.ChildrenOf(p);
    CountIsChildren(t, p, 0);
  }

  /** How far the loop is: all parents before `p` are full. */
  ghost predicate Filled(t: Tree, p: nat, arity: int)
    requires t.Linked() && p < t.Size()
  {
    && (arity >= 0 ==> |t.children[p]| <= arity && t.Size() - 1 == p * arity + |t.children[p]|)
    && (arity < 0 ==> p == 0)
    && (forall q :: 0 <= q < p ==> |t.children[q]| == arity)
  }

  /** Drops a full parent and moves on to the children if none is left; `q` is the parent to use. */
  method NextToFill(t: Tree, parents: seq<nat>, children: seq<nat>, arity: int, ghost p: nat)
    returns (parents': seq<nat>, children': seq<nat>, ghost q: nat, panics: bool)
    requires Waiting(t, parents, children, p) && Filled(t, p, arity)
    requires arity == 0 ==> t.Size() == 1
    ensures panics <==> arity == 0
    ensures !panics ==> Waiting(t, parents', children', q) && Filled(t, q, arity)
    ensures !panics && arity > 0 ==> |t.children[q]| < arity
  {
    TestedCountIsChildren(t, parents, children, p);
    parents', children', q, panics := parents, children, p, false;
    if SubtreeCount(t, parents'[0]) == arity {
      parents' := parents'[1..];
      q := p + 1;
      NextParent(t.Size(), p, arity);
    }
    if |parents'| == 0 {
      parents', children' := children', [];
    }
    if |parents'| == 0 {
      panics := true;
    }
  }

  /** One iteration: the next parent with room gets one more child. */
  method Attach(t: Tree, parents: seq<nat>, children: seq<nat>, index: nat, arity: int, ghost p: nat)
    returns (u: Tree, parents': seq<nat>, children': seq<nat>, ghost q: nat, panics: bool)
    requires Waiting(t, parents, children, p) && Filled(t, p, arity)
    requires HeapShaped(t.parent, arity) && StarShaped(t.parent, arity)
    requires arity == 0 ==> t.Size() == 1
    ensures panics <==> arity == 0
    ensures !panics ==>
      && Waiting(u, parents', children', q) && Filled(u, q, arity)
      && HeapShaped(u.parent, arity) && StarShaped(u.parent, arity)
      && u.index == t.index + [index]
  {
    u := t;
    parents', children', q, panics := NextToFill(t, parents, children, arity, p);
    if panics {
      return;
    }
    children' := children' + [t.Size()];
    u := AddChild(t, parents'[0], index);
    HeapStep(t, q, arity);
  }

  /** The number of the parent with room is the one the heap shape asks for. */
  lemma HeapStep(t: Tree, q: nat, arity: int)
    requires t.Linked() && q < t.Size() && Filled(t, q, arity) && (arity > 0 ==> |t.children[q]| < arity)
    ensures arity > 0 ==> (t.Size() - 1) / arity == q
  {
    if arity > 0 {
      DivModUnique(t.Size() - 1, arity, q, |t.children[q]|);
    }
  }

  /** A full parent that is not the last node has a successor, unless nothing can be attached at all. */
  lemma NextParent(size: nat, p: nat, arity: nat)
    requires size - 1 == p * arity + arity && p < size && (arity == 0 ==> size == 1)
    ensures p + 1 < size <==> arity > 0
    ensures (p + 1) * arity == size - 1
  {
    if arity > 0 {
      MulMonotone(1, arity, p + 1);
    }
  }

  method GenerateNaryTreeWithRoot<Id(==)>(roster: seq<Id>, arity: int, root: Option<Id>) returns (r: Outcome)
    ensures root.Some? && root.value !in roster ==> r == NoSuchRoot
    ensures !(root.Some? && root.value !in roster) ==>
      (r.Panics? <==> roster == [] || (arity == 0 && |roster| > 1))
    ensures r.NoSuchRoot? ==> root.Some? && root.value !in roster
    ensures r.Built? ==>
      && r.tree.Linked() && r.tree.Size() == |roster|
      && EntriesInOrder(r.tree.index, r.tree.index[0], |roster|)
      && HeapShaped(r.tree.parent, arity) && StarShaped(r.tree.parent, arity)
      && (arity >= 0 ==> forall q :: 0 <= q < |roster| ==> |r.tree.children[q]| <= arity)
      && r.tree.index[0] < |roster|
      && (if root.Some? then root.value !in roster[..r.tree.index[0]] && root.value == roster[r.tree.index[0]]
          else r.tree.index[0] == 0)
  {
    var rootIndex := 0;
    if root.Some? {
      rootIndex := Search(roster, root.value);
      if rootIndex < 0 {
        return NoSuchRoot;
      }
    } else if roster == [] {
      return Panics;
    }
    var n := |roster|;
    var t := Single(rootIndex);
    var parents: seq<nat>, children: seq<nat> := [0], [];
    ghost var p: nat := 0;
    var i := 1;
    Wrap(rootIndex, n);
    while i < n
      invariant 1 <= i <= n && t.Size() == i
      invariant Waiting(t, parents, children, p) && Filled(t, p, arity)
      invariant EntriesInOrder(t.index, rootIndex, n)
      invariant HeapShaped(t.parent, arity) && StarShaped(t.parent, arity)
      invariant arity != 0 || i == 1
    {
      var index := (i + rootIndex) % n;
      var panics;
      t, parents, children, p, panics := Attach(t, parents, children, index, arity, p);
      if panics {
        return Panics;
      }
      i := i + 1;
    }
    assert forall q :: p < q < n ==> |t.children[q]| == 0;
    r := Built(t);
  }
}
