/**
 * Overlay trees (onet/tree.go). Nodes are numbered in the order they are created;
 * for each there is its roster position, its parent and its children. A node's
 * links are only ever extended, as by AddChild in the source.
 */
module TreeArena {

  import opened Arithmetic
  import opened Sequences

  datatype Tree = Tree(index: seq<nat>, parent: seq<int>, children: seq<seq<nat>>)
  {
    function Size(): nat {
      |index|
    }

    /** Parent and child links agree, and every node but the first has an earlier parent. */
    ghost predicate Linked() {
      && |index| == |parent| == |children| && 1 <= |index|
      && parent[0] == -1
      && (forall k :: 1 <= k < |parent| ==> 0 <= parent[k] < k)
      && (forall p :: 0 <= p < |children| ==> ChildrenOf(p))
    }

    ghost predicate ChildrenOf(p: int)
      requires |parent| == |children| && 0 <= p < |children|
    {
      && (forall c :: c in children[p] <==> 1 <= c < |parent| && parent[c] == p)
      && Ascending(children[p])
    }
  }

  function Single(rosterIndex: nat): (t: Tree)
    ensures t.Linked()
  {
    Tree([rosterIndex], [-1], [[]])
  }

  function AddChild(t: Tree, p: nat, rosterIndex: nat): (u: Tree)
    requires t.Linked() && p < t.Size()
    ensures u.Linked()
    ensures u.Size() == t.Size() + 1 && u.children[p] == t.children[p] + [t.Size()]
  {
    var u := Tree(t.index + [rosterIndex], t.parent + [p],
                  t.children[p := t.children[p] + [t.Size()]] + [[]]);
    AddChildLinks(t, p, u);
    u
  }

  lemma AddChildLinks(t: Tree, p: nat, u: Tree)
    requires t.Linked() && p < t.Size()
    requires u.parent == t.parent + [p] && |u.index| == |t.index| + 1
    requires u.children == t.children[p := t.children[p] + [t.Size()]] + [[]]
    ensures u.Linked()
  {
    var k := t.Size();
    forall q | 0 <= q < |u.children| ensures u.ChildrenOf(q) {
      if q < k {
        assert t.ChildrenOf(q);
        assert forall c :: c in t.children[q] ==> c < k;
        if q == p {
          var list := t.children[p];
          assert list != [] ==> list[|list| - 1] in list;
          ExtendAscending(list, k);
        }
      } else {
        assert forall c :: 1 <= c < |t.parent| ==> t.parent[c] != k;
      }
    }
  }

  // ----------------------------------------------------------------- depth first

  /** How many calls visiting node `p` and everything below it makes. */
  function Visits(t: Tree, p: nat): nat
    requires t.Linked() && p < t.Size()
    decreases t.Size() - p, 1, 0
  {
    1 + VisitsFrom(t, p, 0)
  }

  /** The same for the children of `p` from the j-th on. */
  function VisitsFrom(t: Tree, p: nat, j: nat): nat
    requires t.Linked() && p < t.Size() && j <= |t.children[p]|
    decreases t.Size() - p, 0, |t.children[p]| - j
  {
    if j == |t.children[p]| then 0
    else
      assert t.ChildrenOf(p);
      var c := t.children[p][j];
      assert c in t.children[p];
      Visits(t, c) + VisitsFrom(t, p, j + 1)
  }

  /** All descendants, although the source calls it the number of children attached. */
  function SubtreeCount(t: Tree, p: nat): nat
    requires t.Linked() && p < t.Size()
  {
    Visits(t, p) - 1
  }

  /** While none of its children has children of its own, the two are the same. */
  lemma {:induction false} CountIsChildren(t: Tree, p: nat, j: nat)
    requires t.Linked() && p < t.Size() && j <= |t.children[p]|
    requires forall c :: c in t.children[p] ==> c < t.Size() && t.children[c] == []
    ensures VisitsFrom(t, p, j) == |t.children[p]| - j
    decreases |t.children[p]| - j
  {
    if j == |t.children[p]| {
    } else {
      var c := t.children[p][j];
      assert c in t.children[p];
      CountIsChildren(t, p, j + 1);
      assert VisitsFrom(t, c, 0) == 0;
    }
  }

  // ----------------------------------------------------------------------- depth

  ghost predicate Rooted(parent: seq<int>) {
    forall k :: 1 <= k < |parent| ==> 0 <= parent[k] < k
  }

  ghost function Depth(parent: seq<int>, k: nat): nat
    requires Rooted(parent) && k < |parent|
  {
    if k == 0 then 0 else Depth(parent, parent[k]) + 1
  }

  lemma {:induction false} DepthKept(short: seq<int>, long: seq<int>, k: nat)
    requires Rooted(long) && short <= long && k < |short|
    ensures Rooted(short) && Depth(short, k) == Depth(long, k)
  {
    if k == 0 {
    } else {
      DepthKept(short, long, long[k]);
    }
  }

  /** The size of the complete tree with levels 0 to `d`. */
  function Complete(arity: nat, d: int): nat {
    if d < 0 then 0 else 1 + arity * Complete(arity, d - 1)
  }

  lemma {:induction false} CompleteGrows(arity: nat, c: int, d: int)
    requires 1 <= arity && c < d && 0 <= d
    ensures Complete(arity, c) < Complete(arity, d)
  {
    if c < 0 {
    } else {
      CompleteGrows(arity, c - 1, d - 1);
      var less, more := Complete(arity, c - 1), Complete(arity, d - 1);
      ScaleLess(arity, less, more);
      assert Complete(arity, c) == 1 + arity * less && Complete(arity, d) == 1 + arity * more;
    }
  }

  /** Every node is as deep as in the complete tree: no tree of this arity and size is less high. */
  ghost predicate Shallow(parent: seq<int>, arity: nat) {
    Rooted(parent) && forall k: nat :: k < |parent| ==> AtDepth(arity, k, Depth(parent, k))
  }

  ghost predicate AtDepth(arity: nat, k: nat, d: nat) {
    Complete(arity, d - 1) <= k < Complete(arity, d)
  }

  lemma DepthUnique(arity: nat, k: nat, d: nat, e: nat)
    requires 1 <= arity && AtDepth(arity, k, d) && AtDepth(arity, k, e)
    ensures d == e
  {
    if d < e - 1 {
      CompleteGrows(arity, d, e - 1);
    } else if e < d - 1 {
      CompleteGrows(arity, e, d - 1);
    }
  }

  /** Appending a level below a full one keeps the tree shallow. */
  lemma NextLevelShallow(parent: seq<int>, longer: seq<int>, arity: nat, level: nat)
    requires 1 <= arity && Shallow(parent, arity) && |parent| == Complete(arity, level)
    requires parent <= longer && Rooted(longer) && |longer| <= Complete(arity, level + 1)
    requires forall k :: |parent| <= k < |longer| ==> Complete(arity, level - 1) <= longer[k] < |parent|
    ensures Shallow(longer, arity)
  {
    forall k: nat | k < |longer| ensures AtDepth(arity, k, Depth(longer, k)) {
      var p: nat := if k < |parent| then k else longer[k];
      DepthKept(parent, longer, p);
      assert AtDepth(arity, p, Depth(parent, p));
      if k >= |parent| {
        assert AtDepth(arity, p, level);
        DepthUnique(arity, p, level, Depth(parent, p));
      }
    }
  }
}
