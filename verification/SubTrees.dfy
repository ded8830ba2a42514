/**
 * How the signing committee is cut into subtrees (BLSCoSi/gen_tree.go), and how a
 * subtree whose sub-leader does not answer is rebuilt around its next member
 * (collectSignatures in BLSCoSi/SideChainProtocol(blscosi).go). Tree nodes are
 * positions in the committee's roster of `n` entries.
 */
module SubTrees {

  import opened Arithmetic
  import opened Sequences
  import opened Wrappers

  datatype Error =
    | NoNodes
    | NoSubtrees
    | TooFewNodes
    | MoreNodesThanRoster
    | SubleaderIsLeader
    | DuplicateRootOrSubleader
    | EverySubleaderFailed

  /** A root with one child, the sub-leader, whose children are the leaves. */
  datatype Tree =
    | Single(root: nat)
    | SubTree(root: nat, subleader: nat, leaves: seq<nat>)
  {
    /** The sub-leader followed by the leaves: everyone but the root. */
    function Members(): seq<nat> {
      if Single? then [] else [subleader] + leaves
    }
  }

  /** A subtree over a roster of `n`: no position occurs twice in it. */
  ghost predicate Formed(n: nat, t: Tree) {
    t.SubTree? && |t.Members()| + 1 <= n && NoRepeats(n, [t.root] + t.Members())
  }

  ghost predicate NoRepeats(n: nat, s: seq<nat>) {
    Distinct(s) && forall i :: 0 <= i < |s| ==> s[i] < n
  }

  // ------------------------------------------------------------- one subtree

  method GenSubtree(n: nat, nodes: seq<nat>) returns (r: Result<Tree, Error>)
    requires forall k :: 0 <= k < |nodes| ==> nodes[k] < n
    ensures r.Ok? ==> 2 <= |nodes| && r.value == SubTree(nodes[0], nodes[1], nodes[2..])
    ensures r.Ok? <==>
      && 2 <= |nodes| <= n && nodes[0] != nodes[1]
      && forall k :: 2 <= k < |nodes| ==> nodes[k] != nodes[0] && nodes[k] != nodes[1]
    ensures |nodes| < 2 ==> r == Err(TooFewNodes)
    ensures 2 <= |nodes| && n < |nodes| ==> r == Err(MoreNodesThanRoster)
    ensures 2 <= |nodes| <= n && nodes[0] == nodes[1] ==> r == Err(SubleaderIsLeader)
  {
    if |nodes| < 2 {
      return Err(TooFewNodes);
    }
    if |nodes| > n {
      return Err(MoreNodesThanRoster);
    }
    if nodes[0] == nodes[1] {
      return Err(SubleaderIsLeader);
    }
    var k := 2;
    while k < |nodes|
      invariant 2 <= k <= |nodes|
      invariant forall l :: 2 <= l < k ==> nodes[l] != nodes[0] && nodes[l] != nodes[1]
    {
      if nodes[k] == nodes[0] || nodes[k] == nodes[1] {
        return Err(DuplicateRootOrSubleader);
      }
      k := k + 1;
    }
    var leaves: seq<nat> := [];
    var j := 2;
    while j < |nodes|
      invariant 2 <= j <= |nodes|
      invariant leaves == nodes[2..j]
    {
      leaves := leaves + [nodes[j]];
      j := j + 1;
    }
    r := Ok(SubTree(nodes[0], nodes[1], leaves));
  }

  // ------------------------------------------------------------ all subtrees

  /** Roster positions in the order they are dealt out, starting after the root. */
  function Ring(n: nat, root: nat): seq<nat>
    requires 0 < n
  {
    seq(n - 1, j requires 0 <= j < n - 1 => (root + 1 + j) % n)
  }

  /** Where subtree `i` starts in the ring: every subtree takes `q` positions, the first `s` one more. */
  function Offset(q: nat, s: nat, i: nat): (o: nat)
    ensures o == i * q + if i < s then i else s
  {
    if i == 0 then 0
    else
      OneMore(q, i);
      Offset(q, s, i - 1) + q + if i - 1 < s then 1 else 0
  }

  lemma OneMore(q: nat, i: nat)
    requires 0 < i
    ensures i * q == (i - 1) * q + q
  {
  }

  function NumTrees(n: nat, nSubtrees: nat): nat
    requires 0 < n
  {
    if n <= nSubtrees then n - 1 else nSubtrees
  }

  /** Subtree `i` holds exactly its share of the ring. */
  ghost predicate Dealt(n: nat, root: nat, k: nat, trees: seq<Tree>)
    requires 0 < k < n && root < n
  {
    DealtAll(n, root, (n - 1) / k, (n - 1) % k, trees)
  }

  ghost predicate DealtAll(n: nat, root: nat, q: nat, s: nat, trees: seq<Tree>)
    requires 0 < n
  {
    forall i :: 0 <= i < |trees| ==> DealtOne(n, root, q, s, i, trees[i])
  }

  ghost predicate DealtOne(n: nat, root: nat, q: nat, s: nat, i: nat, t: Tree)
    requires 0 < n
  {
    && t.SubTree? && t.root == root
    && Offset(q, s, i + 1) <= n - 1
    && t.Members() == Ring(n, root)[Offset(q, s, i)..Offset(q, s, i + 1)]
  }

  lemma OffsetEnd(n: nat, k: nat, i: nat)
    requires 0 < k < n && i <= k
    ensures Offset((n - 1) / k, (n - 1) % k, i) <= n - 1
    ensures Offset((n - 1) / k, (n - 1) % k, k) == n - 1
    ensures 1 <= (n - 1) / k
  {
    var q, s := (n - 1) / k, (n - 1) % k;
    assert n - 1 == k * q + s;
    MulMonotone(i, k, q);
    assert q == 0 ==> k * q == 0;
  }

  lemma RingFacts(n: nat, root: nat)
    requires root < n
    ensures forall j :: 0 <= j < n - 1 ==> Ring(n, root)[j] < n && Ring(n, root)[j] != root
    ensures Distinct(Ring(n, root))
    ensures forall j :: 0 <= j < n - 1 ==>
      Ring(n, root)[j] == if root + 1 + j < n then root + 1 + j else root + 1 + j - n
  {
    forall j | 0 <= j < n - 1
      ensures Ring(n, root)[j] == if root + 1 + j < n then root + 1 + j else root + 1 + j - n
    {
      Wrap(root + 1 + j, n);
    }
  }

  method GenTrees(n: nat, root: nat, nSubtrees: int) returns (r: Result<seq<Tree>, Error>)
    requires 0 < n ==> root < n
    ensures n < 1 ==> r == Err(NoNodes)
    ensures 1 <= n && nSubtrees < 1 ==> r == Err(NoSubtrees)
    ensures 1 <= n && 1 <= nSubtrees ==> r.Ok?
    ensures n == 1 && 1 <= nSubtrees ==> r.value == [Single(root)]
    ensures 2 <= n && 1 <= nSubtrees ==>
      && |r.value| == NumTrees(n, nSubtrees) == (if nSubtrees < n then nSubtrees else n - 1)
      && Dealt(n, root, NumTrees(n, nSubtrees), r.value)
  {
    if n < 1 {
      return Err(NoNodes);
    }
    if nSubtrees < 1 {
      return Err(NoSubtrees);
    }
    var k: nat := nSubtrees;
    if n <= k {
      k := n - 1;
    }
    if k == 0 {
      return Ok([Single(root)]);
    }
    OffsetEnd(n, k, k);
    var trees := DealAll(n, root, k, (n - 1) / k, (n - 1) % k);
    r := Ok(trees);
  }

  method DealAll(n: nat, root: nat, k: nat, nodesPerSubtree: nat, surplusNodes: nat) returns (trees: seq<Tree>)
    requires root < n && 1 <= nodesPerSubtree && Offset(nodesPerSubtree, surplusNodes, k) == n - 1
    ensures |trees| == k && DealtAll(n, root, nodesPerSubtree, surplusNodes, trees)
  {
    trees := [];
    var cursor := (root + 1) % n;
    var i := 0;
    while i < k
      invariant 0 <= i <= k && |trees| == i
      invariant cursor == (root + 1 + Offset(nodesPerSubtree, surplusNodes, i)) % n
      invariant DealtAll(n, root, nodesPerSubtree, surplusNodes, trees)
    {
      OffsetMonotone(nodesPerSubtree, surplusNodes, i + 1, k);
      var length := nodesPerSubtree + 1;
      if i < surplusNodes {
        length := length + 1;
      }
      var t;
      t, cursor := DealSubtree(n, root, length, nodesPerSubtree, surplusNodes, i, cursor);
      trees := trees + [t];
      i := i + 1;
    }
  }

  lemma ShareHasNoRepeats(n: nat, root: nat, o: nat, e: nat)
    requires root < n && o <= e <= n - 1
    ensures NoRepeats(n, [root] + Ring(n, root)[o..e])
  {
    RingFacts(n, root);
    var ring := Ring(n, root);
    var nodes := [root] + ring[o..e];
    assert forall j :: 1 <= j < |nodes| ==> nodes[j] == ring[o + j - 1];
  }

  /** One round of the outer loop. The node list is never refused, so neither is the roster's split. */
  method DealSubtree(n: nat, root: nat, length: nat, ghost q: nat, ghost s: nat, ghost i: nat, start: nat)
    returns (t: Tree, cursor: nat)
    requires root < n && 1 <= q && Offset(q, s, i + 1) <= n - 1
    requires Offset(q, s, i) + length - 1 == Offset(q, s, i + 1)
    requires start == (root + 1 + Offset(q, s, i)) % n
    ensures DealtOne(n, root, q, s, i, t)
    ensures cursor == (root + 1 + Offset(q, s, i + 1)) % n
  {
    var nodes := new nat[length];
    ghost var o := Offset(q, s, i);
    cursor := FillNodes(nodes, n, root, o, start);
    ShareHasNoRepeats(n, root, o, o + length - 1);
    t := AcceptedSubtree(n, nodes[..]);
    assert t.Members() == nodes[..][1..];
  }

  /** A node list without repeats is never refused. */
  method AcceptedSubtree(n: nat, nodes: seq<nat>) returns (t: Tree)
    requires 2 <= |nodes| <= n && NoRepeats(n, nodes)
    ensures t == SubTree(nodes[0], nodes[1], nodes[2..])
    ensures Formed(n, t)
  {
    var r := GenSubtree(n, nodes);
    t := r.value;
    assert [t.root] + t.Members() == nodes;
  }

  /** Fills one node list: the root, then the next positions from `cursor` on. */
  method FillNodes(nodes: array<nat>, n: nat, root: nat, ghost o: nat, start: nat) returns (cursor: nat)
    requires 0 < nodes.Length && root < n && o + nodes.Length - 1 <= n - 1
    requires start == (root + 1 + o) % n
    modifies nodes
    ensures nodes[..] == [root] + Ring(n, root)[o..o + nodes.Length - 1]
    ensures cursor == (root + 1 + o + nodes.Length - 1) % n
  {
    cursor := start;
    var j := 0;
    while j < nodes.Length
      invariant 0 <= j <= nodes.Length
      invariant j > 0 ==> nodes[0] == root
      invariant cursor == (root + 1 + o + if j == 0 then 0 else j - 1) % n
      invariant forall l :: 1 <= l < j ==> nodes[l] == Ring(n, root)[o + l - 1]
    {
      if j == 0 {
        nodes[j] := root;
      } else {
        nodes[j] := cursor;
        StepAround(root + 1 + o + j - 1, n);
        cursor := (cursor + 1) % n;
      }
      j := j + 1;
    }
  }

  /** Every member of the roster but the root sits in exactly one subtree, once. */
  lemma EachInExactlyOneSubtree(n: nat, root: nat, nSubtrees: nat, trees: seq<Tree>, v: nat) returns (i: nat)
    requires 2 <= n && root < n && 1 <= nSubtrees && v < n && v != root
    requires |trees| == NumTrees(n, nSubtrees) && Dealt(n, root, |trees|, trees)
    ensures i < |trees| && v in trees[i].Members()
    ensures forall j :: 0 <= j < |trees| && v in trees[j].Members() ==> j == i
  {
    OffsetEnd(n, |trees|, |trees|);
    i := HolderOf(n, root, (n - 1) / |trees|, (n - 1) % |trees|, trees, v);
  }

  lemma HolderOf(n: nat, root: nat, q: nat, s: nat, trees: seq<Tree>, v: nat) returns (i: nat)
    requires root < n && v < n && v != root
    requires DealtAll(n, root, q, s, trees) && Offset(q, s, |trees|) == n - 1
    ensures i < |trees| && v in trees[i].Members()
    ensures forall j :: 0 <= j < |trees| && v in trees[j].Members() ==> j == i
  {
    var p := RingPosition(n, root, v);
    i := Holder(q, s, |trees|, p);
    assert DealtOne(n, root, q, s, i, trees[i]);
    OwnsOnlyItsShare(n, root, q, s, i, trees[i], p);
    forall j | 0 <= j < |trees| && v in trees[j].Members() ensures j == i {
      assert DealtOne(n, root, q, s, j, trees[j]);
      OwnsOnlyItsShare(n, root, q, s, j, trees[j], p);
      SharesDiffer(q, s, i, j, p);
    }
  }

  lemma RingPosition(n: nat, root: nat, v: nat) returns (p: nat)
    requires root < n && v < n && v != root
    ensures p < n - 1 && Ring(n, root)[p] == v
  {
    RingFacts(n, root);
    p := if v > root then v - root - 1 else v + n - root - 1;
  }

  lemma SharesDiffer(q: nat, s: nat, i: nat, j: nat, p: nat)
    requires Offset(q, s, i) <= p < Offset(q, s, i + 1) && Offset(q, s, j) <= p < Offset(q, s, j + 1)
    ensures i == j
  {
    if j < i {
      OffsetMonotone(q, s, j + 1, i);
    } else if i < j {
      OffsetMonotone(q, s, i + 1, j);
    }
  }

  lemma OwnsOnlyItsShare(n: nat, root: nat, q: nat, s: nat, i: nat, t: Tree, p: nat)
    requires root < n && p < n - 1 && DealtOne(n, root, q, s, i, t)
    ensures Ring(n, root)[p] in t.Members() <==> Offset(q, s, i) <= p < Offset(q, s, i + 1)
  {
    RingFacts(n, root);
    var a, b := Offset(q, s, i), Offset(q, s, i + 1);
    if a <= p < b {
      assert t.Members()[p - a] == Ring(n, root)[p];
    }
  }

  lemma {:induction false} OffsetMonotone(q: nat, s: nat, i: nat, j: nat)
    requires i <= j
    ensures Offset(q, s, i) <= Offset(q, s, j)
  {
    if i < j {
      OffsetMonotone(q, s, i, j - 1);
    }
  }

  lemma {:induction false} Holder(q: nat, s: nat, k: nat, p: nat) returns (i: nat)
    requires p < Offset(q, s, k)
    ensures i < k && Offset(q, s, i) <= p < Offset(q, s, i + 1)
  {
    if Offset(q, s, k - 1) <= p {
      i := k - 1;
    } else {
      i := Holder(q, s, k - 1, p);
    }
  }

  /** Every subtree is well formed, and sizes differ by at most one. */
  lemma SubtreesAreFormedAndBalanced(n: nat, root: nat, nSubtrees: nat, trees: seq<Tree>)
    requires 2 <= n && root < n && 1 <= nSubtrees
    requires |trees| == NumTrees(n, nSubtrees) && Dealt(n, root, |trees|, trees)
    ensures forall i :: 0 <= i < |trees| ==> Formed(n, trees[i])
    ensures forall i, j :: 0 <= i < |trees| && 0 <= j < |trees| ==>
      |trees[i].Members()| <= |trees[j].Members()| + 1
  {
    RingFacts(n, root);
    var k := |trees|;
    var q, s := (n - 1) / k, (n - 1) % k;
    OffsetEnd(n, k, k);
    forall i | 0 <= i < k
      ensures Formed(n, trees[i]) && q <= |trees[i].Members()| <= q + 1
    {
      assert DealtOne(n, root, q, s, i, trees[i]);
      ShareHasNoRepeats(n, root, Offset(q, s, i), Offset(q, s, i + 1));
    }
  }

  // ---------------------------------------------------------------- rotation

  /** The members after `k` failed sub-leaders have been moved behind the leaves. */
  function Rotated(m: seq<nat>, k: nat): seq<nat>
    requires k <= |m|
  {
    m[k..] + m[..k]
  }

  /** When the sub-leader `m[k]` fails: nobody is left, or the next member has a smaller index. */
  predicate Stops(m: seq<nat>, k: nat)
    requires k < |m|
  {
    |m| == 1 || m[k] > if k + 1 < |m| then m[k + 1] else m[0]
  }

  /** The subtree rebuilt after its sub-leader failed, or the end of the attempts. */
  method Restart(n: nat, t: Tree) returns (r: Result<Tree, Error>)
    requires Formed(n, t)
    ensures Stops(t.Members(), 0) ==> r == Err(EverySubleaderFailed)
    ensures !Stops(t.Members(), 0) ==>
      && r.Ok? && Formed(n, r.value) && r.value.root == t.root
      && r.value.Members() == Rotated(t.Members(), 1)
  {
    var nodes := [t.root];
    var c := 0;
    while c < |t.leaves|
      invariant 0 <= c <= |t.leaves|
      invariant nodes == [t.root] + t.leaves[..c]
    {
      nodes := nodes + [t.leaves[c]];
      c := c + 1;
    }
    assert t.leaves[..c] == t.leaves;
    if |nodes| < 2 || t.subleader > nodes[1] {
      return Err(EverySubleaderFailed);
    }
    nodes := nodes + [t.subleader];
    RotationHasNoRepeats(n, t.root, t.subleader, t.leaves);
    assert nodes == [t.root] + t.leaves + [t.subleader];
    var next := AcceptedSubtree(n, nodes);
    RotatedMembers(t.root, t.subleader, t.leaves);
    r := Ok(next);
  }

  lemma RotatedMembers(root: nat, subleader: nat, leaves: seq<nat>)
    requires leaves != []
    ensures var nodes := [root] + leaves + [subleader];
            [nodes[1]] + nodes[2..] == Rotated([subleader] + leaves, 1)
  {
    assert ([subleader] + leaves)[1..] == leaves;
    assert ([root] + leaves + [subleader])[1..] == leaves + [subleader];
  }

  lemma RotationHasNoRepeats(n: nat, root: nat, subleader: nat, leaves: seq<nat>)
    requires NoRepeats(n, [root] + ([subleader] + leaves))
    ensures NoRepeats(n, [root] + leaves + [subleader])
  {
    var was, now := [root] + ([subleader] + leaves), [root] + leaves + [subleader];
    assert was[0] == now[0] && was[1] == now[|now| - 1];
    assert forall k :: 1 <= k < |now| - 1 ==> now[k] == was[k + 1];
  }

  /** Along ascending members an attempt stops at the last member or at the first descent. */
  lemma StopsAtDescent(m: seq<nat>, k: nat)
    requires k < |m| && Ascending(m[..k + 1])
    ensures Stops(m, k) <==> k + 1 == |m| || m[k] > m[k + 1]
  {
    if 0 < k {
      assert m[..k + 1][0] < m[..k + 1][k];
    }
  }

  lemma RotateOnce(m: seq<nat>, k: nat)
    requires k < |m|
    ensures Rotated(Rotated(m, k), 1) == Rotated(m, k + 1)
    ensures Rotated(m, k)[0] == m[k]
    ensures Stops(Rotated(m, k), 0) <==> Stops(m, k)
    ensures multiset(Rotated(m, k)) == multiset(m)
  {
    assert m == m[..k] + m[k..];
    assert Rotated(m, k)[..1] == [m[k]];
    assert Rotated(m, k)[1..] == m[k + 1..] + m[..k];
    assert m[..k + 1] == m[..k] + [m[k]];
  }

  datatype Outcome = Answered(tree: Tree) | GaveUp

  /** The subtree in use for attempt `k`, all attempts so far having met ascending sub-leaders. */
  ghost predicate Attempt(n: nat, t: Tree, k: nat, current: Tree) {
    var m := t.Members();
    && Formed(n, current) && current.root == t.root
    && k < |m| && current.Members() == Rotated(m, k) && Ascending(m[..k + 1])
  }

  lemma AttemptFacts(n: nat, t: Tree, k: nat, current: Tree)
    requires Attempt(n, t, k, current)
    ensures var m := t.Members();
            && current.subleader == m[k]
            && multiset(current.Members()) == multiset(m)
            && (Stops(current.Members(), 0) <==> k + 1 == |m| || m[k] > m[k + 1])
            && (Stops(current.Members(), 0) ==> (k + 1 == |m| <==> Ascending(m)))
  {
    var m := t.Members();
    RotateOnce(m, k);
    StopsAtDescent(m, k);
    if Stops(m, k) {
      AllTriedIffAscending(m, k + 1);
    }
  }

  lemma NextAttempt(n: nat, t: Tree, k: nat, current: Tree, next: Tree)
    requires Formed(n, t) && Attempt(n, t, k, current) && !Stops(current.Members(), 0)
    requires Formed(n, next) && next.root == t.root && next.Members() == Rotated(current.Members(), 1)
    ensures Attempt(n, t, k + 1, next)
    ensures t.Members()[..k + 2] == t.Members()[..k + 1] + [next.subleader]
  {
    var m := t.Members();
    AttemptFacts(n, t, k, current);
    NeighboursDiffer(n, t.root, m);
    RotateOnce(m, k);
    assert m[..k + 2] == m[..k + 1] + [m[k + 1]];
    ExtendAscending(m[..k + 1], m[k + 1]);
    RotateOnce(m, k + 1);
  }

  /**
   * One subtree's goroutine: it waits for the sub-leader, and rebuilds the subtree
   * as long as that fails. Whether the sub-leader of attempt `k` answers is not
   * under its control: `answers(k)` says so.
   */
  method RunSubProtocol(n: nat, t: Tree, answers: nat -> bool)
    returns (outcome: Outcome, tried: seq<nat>)
    requires Formed(n, t)
    ensures 1 <= |tried| <= |t.Members()| && tried == t.Members()[..|tried|]
    ensures forall k :: 0 <= k < |tried| - 1 ==> !answers(k)
    ensures outcome.Answered? <==> answers(|tried| - 1)
    ensures outcome.Answered? ==>
      && Formed(n, outcome.tree) && outcome.tree.root == t.root
      && outcome.tree.subleader == tried[|tried| - 1]
      && multiset(outcome.tree.Members()) == multiset(t.Members())
    // it gives up only after trying everyone, or at the first descent
    ensures Ascending(tried)
    ensures outcome.GaveUp? ==>
      |tried| == |t.Members()| || t.Members()[|tried| - 1] > t.Members()[|tried|]
    ensures outcome.GaveUp? ==> (|tried| == |t.Members()| <==> Ascending(t.Members()))
  {
    var current := t;
    ghost var m := t.Members();
    tried := [t.subleader];
    var k := 0;
    assert Rotated(m, 0) == m;
    while !answers(k)
      invariant 0 <= k < |m| && tried == m[..k + 1]
      invariant Attempt(n, t, k, current)
      invariant forall i :: 0 <= i < k ==> !answers(i)
      decreases |m| - k
    {
      AttemptFacts(n, t, k, current);
      var r := Restart(n, current);
      if r.Err? {
        return GaveUp, tried;
      }
      NextAttempt(n, t, k, current, r.value);
      current := r.value;
      tried := tried + [current.subleader];
      k := k + 1;
    }
    AttemptFacts(n, t, k, current);
    outcome := Answered(current);
  }

  lemma NeighboursDiffer(n: nat, root: nat, m: seq<nat>)
    requires NoRepeats(n, [root] + m)
    ensures forall k :: 0 <= k < |m| - 1 ==> m[k] != m[k + 1]
  {
    assert forall k :: 0 <= k < |m| ==> m[k] == ([root] + m)[k + 1];
  }

  lemma AllTriedIffAscending(m: seq<nat>, c: nat)
    requires 1 <= c <= |m| && Ascending(m[..c]) && (c == |m| || m[c - 1] > m[c])
    ensures c == |m| <==> Ascending(m)
  {
    if c == |m| {
      assert m[..c] == m;
    }
  }

  /**
   * A subtree cut from the roster is ascending, so that giving up means every
   * member has been tried, exactly when it does not hold both ends of the roster.
   */
  lemma AscendingUnlessItWraps(n: nat, root: nat, q: nat, s: nat, i: nat, t: Tree)
    requires root < n && DealtOne(n, root, q, s, i, t)
    ensures Ascending(t.Members()) <==> !(0 in t.Members() && n - 1 in t.Members())
  {
    RingFacts(n, root);
    var o := Offset(q, s, i);
    var m := t.Members();
    assert forall a :: 0 <= a < |m| ==> m[a] == Ring(n, root)[o + a];
    StretchAscends(n, root + 1 + o, m);
  }

  /** The same for any stretch of consecutive positions that wraps from `n - 1` to 0. */
  lemma StretchAscends(n: nat, first: nat, m: seq<nat>)
    requires 1 <= first && |m| < n && first + |m| < 2 * n
    requires forall a :: 0 <= a < |m| ==> m[a] == if first + a < n then first + a else first + a - n
    ensures Ascending(m) <==> !(0 in m && n - 1 in m)
  {
    if first < n <= first + |m| - 1 {
      var w := n - first;
      assert m[w] == 0 && m[w - 1] == n - 1;
    } else if first < n {
      assert 0 !in m;
    } else {
      assert n - 1 !in m;
    }
  }

  /** With the root at index 0, as the side chain sets it up, no subtree wraps. */
  lemma RootZeroNeverWraps(n: nat, q: nat, s: nat, i: nat, t: Tree)
    requires 0 < n && DealtOne(n, 0, q, s, i, t)
    ensures Ascending(t.Members())
  {
    RingFacts(n, 0);
    AscendingUnlessItWraps(n, 0, q, s, i, t);
    var o, m := Offset(q, s, i), t.Members();
    assert forall a :: 0 <= a < |m| ==> m[a] == Ring(n, 0)[o + a];
    assert 0 !in m;
  }

  /** With another root a subtree can wrap, and then members are never tried. */
  lemma OtherRootsCanWrap()
    ensures exists t: Tree :: DealtOne(4, 2, 3, 0, 0, t) && !Ascending(t.Members())
  {
    var t := SubTree(2, 3, [0, 1]);
    assert Offset(3, 0, 0) == 0 && Offset(3, 0, 1) == 3;
    assert Ring(4, 2) == [3, 0, 1];
    assert DealtOne(4, 2, 3, 0, 0, t);
    assert t.Members()[0] > t.Members()[1];
  }
}
