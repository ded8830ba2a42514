/**
 * Closing all hosts (MainAndSideChain/close_all.go): PrepareClose goes down the
 * tree, Close comes back up, each inner node waiting for as many Close messages as
 * it has children (aggregate and dispatchMsgToProtocol in onet/treenode.go).
 * Messages arrive in any order and may be lost. Node 0 is the root.
 */
module CloseAll {

  import opened Sequences
  import opened TreeArena

  datatype Message =
    | PrepareClose(from: nat, to: nat)
    | Close(from: nat, to: nat)

  /** One protocol instance: the Close messages kept back, and how often each handler ran. */
  datatype Node = Node(queue: seq<nat>, prepares: nat, closes: nat, done: bool)

  // ------------------------------------------------------------------ one instance

  function ToChildren(v: nat, children: seq<nat>): seq<Message> {
    seq(|children|, i requires 0 <= i < |children| => PrepareClose(v, children[i]))
  }

  function AfterClose(parent: int, v: nat, s: Node): (Node, seq<Message>)
    requires parent >= -1
  {
    if parent == -1 then (s.(closes := s.closes + 1, done := true), [])
    else (s.(closes := s.closes + 1), [Close(v, parent)])
  }

  function AfterPrepare(parent: int, children: seq<nat>, v: nat, s: Node): (Node, seq<Message>)
    requires parent >= -1
  {
    var t := s.(prepares := s.prepares + 1);
    if children != [] then (t, ToChildren(v, children)) else AfterClose(parent, v, t)
  }

  /**
   * Handling one message. Close is an aggregated type: unless it comes from the
   * parent, it is kept back until there are as many as there are children.
   */
  function Handle(parent: int, children: seq<nat>, v: nat, s: Node, m: Message): (Node, seq<Message>)
    requires parent >= -1
  {
    match m
    case PrepareClose(_, _) => AfterPrepare(parent, children, v, s)
    case Close(from, _) =>
      if parent == from then AfterClose(parent, v, s)
      else
        var q := s.queue + [from];
        if |q| == |children| then AfterClose(parent, v, s.(queue := []))
        else (s.(queue := q), [])
  }

  class Instance {
    const id: nat
    const parent: int
    const children: seq<nat>
    var queue: seq<nat>
    var prepares: nat
    var closes: nat
    var done: bool

    ghost predicate Valid() {
      parent >= -1
    }

    ghost function View(): Node
      reads this
    {
      Node(queue, prepares, closes, done)
    }

    constructor (id: nat, parent: int, children: seq<nat>)
      requires parent >= -1
      ensures Valid() && View() == Node([], 0, 0, false)
      ensures this.id == id && this.parent == parent && this.children == children
    {
      this.id, this.parent, this.children := id, parent, children;
      queue, prepares, closes, done := [], 0, 0, false;
    }

    method FuncClose() returns (sent: seq<Message>)
      requires Valid()
      modifies this
      ensures (View(), sent) == old(AfterClose(parent, id, View()))
      ensures closes == old(closes) + 1 && prepares == old(prepares) && queue == old(queue)
      ensures if parent == -1 then done && sent == [] else done == old(done) && sent == [Close(id, parent)]
    {
      sent := [];
      if parent != -1 {
        sent := [Close(id, parent)];
      }
      closes := closes + 1;
      if parent == -1 {
        done := true;
      }
    }

    method FuncPrepareClose() returns (sent: seq<Message>)
      requires Valid()
      modifies this
      ensures (View(), sent) == old(AfterPrepare(parent, children, id, View()))
      ensures prepares == old(prepares) + 1 && queue == old(queue)
      ensures children != [] ==> closes == old(closes) && done == old(done)
      ensures children != [] ==>
        |sent| == |children| && forall i :: 0 <= i < |children| ==> sent[i] == PrepareClose(id, children[i])
      ensures children == [] ==> closes == old(closes) + 1 && sent == if parent == -1 then [] else [Close(id, parent)]
    {
      prepares := prepares + 1;
      if |children| != 0 {
        sent := [];
        var i := 0;
        while i < |children|
          invariant 0 <= i <= |children| && sent == ToChildren(id, children[..i])
        {
          sent := sent + [PrepareClose(id, children[i])];
          i := i + 1;
        }
        assert children[..i] == children;
      } else {
        sent := FuncClose();
      }
    }

    /** Keeps a message back, or hands out all that were kept once they are complete. */
    method Aggregate(m: Message) returns (msgs: seq<nat>, complete: bool)
      requires Valid() && m.Close?
      modifies this`queue
      ensures complete <==> parent == m.from || |old(queue)| + 1 == |children|
      ensures parent == m.from ==> msgs == [m.from] && queue == old(queue)
      ensures parent != m.from && complete ==> msgs == old(queue) + [m.from] && queue == []
      ensures !complete ==> queue == old(queue) + [m.from]
    {
      if parent == m.from {
        return [m.from], true;
      }
      msgs := queue + [m.from];
      queue := msgs;
      complete := |msgs| == |children|;
      if complete {
        queue := [];
      }
    }

    method DispatchMsgToProtocol(m: Message) returns (sent: seq<Message>)
      requires Valid()
      modifies this
      ensures (View(), sent) == old(Handle(parent, children, id, View(), m))
    {
      if m.PrepareClose? {
        sent := FuncPrepareClose();
      } else {
        var msgs, complete := Aggregate(m);
        sent := [];
        if complete {
          sent := FuncClose();
        }
      }
    }
  }

  // --------------------------------------------------------------------- the network

  /** `bag` holds the messages under way, `lost` those that never arrive; no decision depends on the latter. */
  datatype State = State(nodes: seq<Node>, bag: multiset<Message>, started: bool, lost: multiset<Message>)

  ghost function Initial(t: Tree): State {
    State(seq(|t.index|, i => Node([], 0, 0, false)), multiset{}, false, multiset{})
  }

  datatype Step = Start | Deliver(m: Message) | Lose(m: Message)

  ghost predicate Shape(t: Tree, s: State) {
    t.Linked() && |s.nodes| == t.Size()
  }

  ghost predicate Enabled(t: Tree, s: State, step: Step) {
    match step
    case Start => !s.started
    case Deliver(m) => m in s.bag && m.to < |s.nodes|
    case Lose(m) => m in s.bag
  }

  ghost function Put(s: State, v: nat, result: (Node, seq<Message>)): State
    requires v < |s.nodes|
  {
    s.(nodes := s.nodes[v := result.0], bag := s.bag + multiset(result.1))
  }

  ghost function Next(t: Tree, s: State, step: Step): (u: State)
    requires Shape(t, s) && Enabled(t, s, step)
    ensures Shape(t, u)
  {
    match step
    case Start => Put(s.(started := true), 0, AfterPrepare(-1, t.children[0], 0, s.nodes[0]))
    case Lose(m) => s.(bag := s.bag - multiset{m}, lost := s.lost + multiset{m})
    case Deliver(m) =>
      ParentFrom(t, m.to);
      Put(s.(bag := s.bag - multiset{m}), m.to,
          Handle(t.parent[m.to], t.children[m.to], m.to, s.nodes[m.to], m))
  }

  lemma ParentFrom(t: Tree, v: nat)
    requires t.Linked() && v < t.Size()
    ensures t.parent[v] >= -1 && (t.parent[v] == -1 <==> v == 0)
  {
  }

  /** A run: `trace[i + 1]` is what step `i` makes of `trace[i]`. */
  ghost predicate Run(t: Tree, trace: seq<State>, steps: seq<Step>) {
    && t.Linked() && |trace| == |steps| + 1 && trace[0] == Initial(t)
    && forall i :: 0 <= i < |steps| ==>
      Shape(t, trace[i]) && Enabled(t, trace[i], steps[i]) && trace[i + 1] == Next(t, trace[i], steps[i])
  }

  // ------------------------------------------------------------------- the invariant

  ghost function Out(s: State, m: Message): nat {
    s.bag[m] + s.lost[m]
  }

  /** PrepareClose was sent to `c` each time its parent prepared: it is under way, lost, or `c` has prepared. */
  ghost predicate PreparesAdd(t: Tree, s: State, c: nat)
    requires Shape(t, s) && 1 <= c < t.Size()
  {
    var p := t.parent[c];
    Out(s, PrepareClose(p, c)) + s.nodes[c].prepares == s.nodes[p].prepares
  }

  /**
   * Close was sent by `c` each time it closed: it is under way, lost, kept back by the
   * parent, or was used up when the parent closed.
   */
  ghost predicate ClosesAdd(t: Tree, s: State, c: nat)
    requires Shape(t, s) && 1 <= c < t.Size()
  {
    var p := t.parent[c];
    Out(s, Close(c, p)) + multiset(s.nodes[p].queue)[c] + s.nodes[p].closes == s.nodes[c].closes
  }

  ghost predicate NodeOk(t: Tree, s: State, v: nat)
    requires Shape(t, s) && v < t.Size()
  {
    var n := s.nodes[v];
    && (forall c :: c in n.queue ==> c in t.children[v])
    && (if t.children[v] == [] then n.closes == n.prepares && n.queue == [] else |n.queue| < |t.children[v]|)
    && (n.done <==> v == 0 && n.closes > 0)
  }

  /** Messages only travel along edges of the tree. */
  ghost predicate Travels(t: Tree, m: Message)
    requires t.Linked()
  {
    match m
    case PrepareClose(from, to) => 1 <= to < t.Size() && t.parent[to] == from
    case Close(from, to) => 1 <= from < t.Size() && t.parent[from] == to
  }

  ghost predicate Inv(t: Tree, s: State) {
    && Shape(t, s)
    && (forall c :: 1 <= c < t.Size() ==> PreparesAdd(t, s, c))
    && (forall c :: 1 <= c < t.Size() ==> ClosesAdd(t, s, c))
    && (forall v :: 0 <= v < t.Size() ==> NodeOk(t, s, v))
    && (forall m :: m in s.bag + s.lost ==> Travels(t, m))
    && s.nodes[0].prepares == (if s.started then 1 else 0)
  }

  lemma {:induction false} PreparesOnce(t: Tree, s: State, v: nat)
    requires Inv(t, s) && v < t.Size()
    ensures s.nodes[v].prepares <= 1
  {
    if v == 0 {
    } else {
      assert PreparesAdd(t, s, v);
      PreparesOnce(t, s, t.parent[v]);
    }
  }

  /** A node closes no more often than it prepares: a leaf as often, an inner node as its first child at most. */
  lemma {:induction false} ClosesWithinPrepares(t: Tree, s: State, v: nat)
    requires Inv(t, s) && v < t.Size()
    ensures s.nodes[v].closes <= s.nodes[v].prepares
    decreases t.Size() - v
  {
    assert NodeOk(t, s, v);
    if t.children[v] == [] {
    } else {
      assert t.ChildrenOf(v);
      var c := t.children[v][0];
      assert c in t.children[v];
      assert PreparesAdd(t, s, c) && ClosesAdd(t, s, c);
      ClosesWithinPrepares(t, s, c);
    }
  }

  lemma ClosesOnce(t: Tree, s: State, v: nat)
    requires Inv(t, s) && v < t.Size()
    ensures s.nodes[v].closes <= 1
  {
    PreparesOnce(t, s, v);
    ClosesWithinPrepares(t, s, v);
  }

  /** As many messages as children, none twice: one from every child. */
  lemma FullQueue(t: Tree, s: State, v: nat, q: seq<nat>)
    requires Inv(t, s) && v < t.Size() && |q| == |t.children[v]|
    requires forall c :: c in q ==> c in t.children[v] && multiset(q)[c] <= 1
    ensures forall c :: c in t.children[v] ==> multiset(q)[c] == 1
  {
    assert t.ChildrenOf(v);
    OnceMeansDistinct(q);
    DistinctSize<nat>(q);
    DistinctSize<nat>(t.children[v]);
    SubsetSize(Elements<nat>(q), Elements<nat>(t.children[v]));
    forall c | c in t.children[v] ensures multiset(q)[c] == 1 {
      assert c in Elements<nat>(q);
      assert c in multiset(q);
    }
  }

  lemma OnceMeansDistinct(q: seq<nat>)
    requires forall c :: c in q ==> multiset(q)[c] <= 1
    ensures Distinct(q)
  {
    forall i, j | 0 <= i < j < |q| ensures q[i] != q[j] {
      var before, after := q[..j], q[j + 1..];
      assert q == before + [q[j]] + after;
      assert before[i] in multiset(before);
      assert q[j] in q;
    }
  }

  // ----------------------------------------------------------------- keeping it

  lemma PrepareSent(t: Tree, v: nat, m: Message)
    requires t.Linked() && v < t.Size()
    ensures multiset(ToChildren(v, t.children[v]))[m]
         == if m.PrepareClose? && m.from == v && m.to in t.children[v] then 1 else 0
  {
    assert t.ChildrenOf(v);
    PrepareCount(v, t.children[v], m);
  }

  lemma {:induction false} PrepareCount(v: nat, children: seq<nat>, m: Message)
    requires Ascending(children)
    ensures multiset(ToChildren(v, children))[m]
         == if m.PrepareClose? && m.from == v && m.to in children then 1 else 0
  {
    if children == [] {
    } else {
      var k := |children| - 1;
      PrepareCount(v, children[..k], m);
      assert children == children[..k] + [children[k]];
      assert ToChildren(v, children) == ToChildren(v, children[..k]) + [PrepareClose(v, children[k])];
    }
  }

  /** The message that makes a node prepare: none for the root, which is told to start. */
  ghost function PrepareFor(t: Tree, v: nat): multiset<Message>
    requires t.Linked() && v < t.Size()
  {
    if v == 0 then multiset{} else multiset{PrepareClose(t.parent[v], v)}
  }

  ghost function Prepared(t: Tree, s: State, v: nat): State
    requires Shape(t, s) && v < t.Size() && t.parent[v] >= -1
  {
    Put(s.(bag := s.bag - PrepareFor(t, v)), v, AfterPrepare(t.parent[v], t.children[v], v, s.nodes[v]))
  }

  /** Preparing at `v`, whose message is at hand: the counts on every edge still add up. */
  lemma PrepareEdges(t: Tree, s: State, v: nat, c: nat)
    requires Inv(t, s) && v < t.Size() && t.parent[v] >= -1 && (t.parent[v] == -1 <==> v == 0)
    requires PrepareFor(t, v) <= s.bag && 1 <= c < t.Size()
    ensures Shape(t, Prepared(t, s, v)) && PreparesAdd(t, Prepared(t, s, v), c) && ClosesAdd(t, Prepared(t, s, v), c)
  {
    var p := t.parent[c];
    assert PreparesAdd(t, s, c) && ClosesAdd(t, s, c);
    assert t.ChildrenOf(v) && t.ChildrenOf(p) && c in t.children[p];
    PrepareSent(t, v, PrepareClose(p, c));
    PrepareSent(t, v, Close(c, p));
  }

  lemma PrepareNodes(t: Tree, s: State, v: nat)
    requires Inv(t, s) && v < t.Size() && t.parent[v] >= -1 && (t.parent[v] == -1 <==> v == 0)
    requires PrepareFor(t, v) <= s.bag
    ensures Shape(t, Prepared(t, s, v))
    ensures forall w :: 0 <= w < t.Size() ==> NodeOk(t, Prepared(t, s, v), w)
  {
    forall w | 0 <= w < t.Size() ensures NodeOk(t, Prepared(t, s, v), w) {
      assert NodeOk(t, s, w);
    }
  }

  lemma PrepareTravels(t: Tree, s: State, v: nat, m: Message)
    requires Inv(t, s) && v < t.Size() && t.parent[v] >= -1 && (t.parent[v] == -1 <==> v == 0)
    requires m in Prepared(t, s, v).bag + s.lost
    ensures Travels(t, m)
  {
    var sent := AfterPrepare(t.parent[v], t.children[v], v, s.nodes[v]).1;
    assert t.ChildrenOf(v);
    PrepareSent(t, v, m);
    assert m in s.bag + s.lost || m in multiset(sent);
  }

  lemma PrepareKeeps(t: Tree, s: State, v: nat)
    requires Inv(t, s) && v < t.Size() && t.parent[v] >= -1 && (t.parent[v] == -1 <==> v == 0)
    requires PrepareFor(t, v) <= s.bag && (v == 0 ==> !s.started)
    ensures Inv(t, Prepared(t, s, v).(started := s.started || v == 0))
  {
    PrepareNodes(t, s, v);
    var u := Prepared(t, s, v);
    var r := u.(started := s.started || v == 0);
    forall c | 1 <= c < t.Size() ensures PreparesAdd(t, r, c) && ClosesAdd(t, r, c) {
      PrepareEdges(t, s, v, c);
    }
    forall w | 0 <= w < t.Size() ensures NodeOk(t, r, w) {
      assert NodeOk(t, u, w);
    }
    forall m | m in r.bag + r.lost ensures Travels(t, m) {
      PrepareTravels(t, s, v, m);
    }
  }

  /** A Close message that arrives while others are still missing. */
  lemma KeepBackKeeps(t: Tree, s: State, c: nat, v: nat)
    requires Inv(t, s) && Close(c, v) in s.bag && v < t.Size()
    requires |s.nodes[v].queue| + 1 != |t.children[v]|
    ensures var n := s.nodes[v].(queue := s.nodes[v].queue + [c]);
            Inv(t, s.(bag := s.bag - multiset{Close(c, v)}, nodes := s.nodes[v := n]))
  {
    var n := s.nodes[v].(queue := s.nodes[v].queue + [c]);
    var u := s.(bag := s.bag - multiset{Close(c, v)}, nodes := s.nodes[v := n]);
    assert Close(c, v) in s.bag + s.lost && Travels(t, Close(c, v));
    assert t.ChildrenOf(v) && c in t.children[v];
    forall d | 1 <= d < t.Size() ensures PreparesAdd(t, u, d) && ClosesAdd(t, u, d) {
      assert PreparesAdd(t, s, d) && ClosesAdd(t, s, d);
    }
    forall w | 0 <= w < t.Size() ensures NodeOk(t, u, w) {
      assert NodeOk(t, s, w);
    }
    assert forall m :: m in u.bag + u.lost ==> m in s.bag + s.lost;
  }

  /** The last Close message: there is one of every child. */
  lemma LastCloseCounts(t: Tree, s: State, c: nat, v: nat)
    requires Inv(t, s) && Close(c, v) in s.bag && v < t.Size()
    requires |s.nodes[v].queue| + 1 == |t.children[v]|
    ensures c in t.children[v] && 1 <= c < t.Size() && t.parent[c] == v
    ensures forall d :: d in t.children[v] ==> multiset(s.nodes[v].queue)[d] + (if d == c then 1 else 0) == 1
  {
    var q: seq<nat> := s.nodes[v].queue + [c];
    assert Close(c, v) in s.bag + s.lost && Travels(t, Close(c, v));
    assert t.ChildrenOf(v) && c in t.children[v] && NodeOk(t, s, v);
    forall d: nat | d in q ensures d in t.children[v] && multiset(q)[d] <= 1 {
      assert ClosesAdd(t, s, d);
      ClosesOnce(t, s, d);
    }
    FullQueue(t, s, v, q);
    forall d | d in t.children[v] ensures multiset(s.nodes[v].queue)[d] + (if d == c then 1 else 0) == 1 {
      assert multiset(q)[d] == 1;
    }
  }

  ghost function Closed(t: Tree, s: State, c: nat, v: nat): State
    requires Shape(t, s) && v < t.Size() && t.parent[v] >= -1
  {
    Put(s.(bag := s.bag - multiset{Close(c, v)}), v, AfterClose(t.parent[v], v, s.nodes[v].(queue := [])))
  }

  lemma LastCloseEdges(t: Tree, s: State, c: nat, v: nat, d: nat)
    requires Inv(t, s) && Close(c, v) in s.bag && v < t.Size() && t.parent[v] >= -1
    requires t.parent[v] == -1 <==> v == 0
    requires |s.nodes[v].queue| + 1 == |t.children[v]| && 1 <= d < t.Size()
    ensures Shape(t, Closed(t, s, c, v)) && PreparesAdd(t, Closed(t, s, c, v), d) && ClosesAdd(t, Closed(t, s, c, v), d)
  {
    LastCloseCounts(t, s, c, v);
    assert PreparesAdd(t, s, d) && ClosesAdd(t, s, d);
    assert t.ChildrenOf(t.parent[d]) && d in t.children[t.parent[d]];
  }

  lemma LastCloseKeeps(t: Tree, s: State, c: nat, v: nat)
    requires Inv(t, s) && Close(c, v) in s.bag && v < t.Size() && t.parent[v] >= -1
    requires t.parent[v] == -1 <==> v == 0
    requires |s.nodes[v].queue| + 1 == |t.children[v]|
    ensures Inv(t, Closed(t, s, c, v))
  {
    var u := Closed(t, s, c, v);
    forall d | 1 <= d < t.Size() ensures PreparesAdd(t, u, d) && ClosesAdd(t, u, d) {
      LastCloseEdges(t, s, c, v, d);
    }
    forall w | 0 <= w < t.Size() ensures NodeOk(t, u, w) {
      assert NodeOk(t, s, w);
    }
    assert forall m :: m in u.bag + u.lost ==> m in s.bag + s.lost || m == Close(v, t.parent[v]);
  }

  /** A lost message still counts as sent. */
  lemma LoseKeeps(t: Tree, s: State, m: Message)
    requires Inv(t, s) && m in s.bag
    ensures Inv(t, Next(t, s, Lose(m)))
  {
    var u := Next(t, s, Lose(m));
    assert forall x :: Out(u, x) == Out(s, x);
    forall c | 1 <= c < t.Size() ensures PreparesAdd(t, u, c) && ClosesAdd(t, u, c) {
      assert PreparesAdd(t, s, c) && ClosesAdd(t, s, c);
    }
    forall v | 0 <= v < t.Size() ensures NodeOk(t, u, v) {
      assert NodeOk(t, s, v);
    }
    assert u.bag + u.lost == s.bag + s.lost;
  }

  lemma DeliverKeeps(t: Tree, s: State, m: Message)
    requires Inv(t, s) && Enabled(t, s, Deliver(m))
    ensures Inv(t, Next(t, s, Deliver(m)))
  {
    ParentFrom(t, m.to);
    assert m in s.bag + s.lost && Travels(t, m);
    match m {
      case PrepareClose(p, v) =>
        PrepareKeeps(t, s, v);
      case Close(c, v) =>
        assert t.ChildrenOf(v);
        if |s.nodes[v].queue| + 1 == |t.children[v]| {
          LastCloseKeeps(t, s, c, v);
        } else {
          KeepBackKeeps(t, s, c, v);
          assert s.bag - multiset{m} + multiset([]) == s.bag - multiset{m};
        }
    }
  }

  lemma NextInv(t: Tree, s: State, step: Step)
    requires Inv(t, s) && Enabled(t, s, step)
    ensures Inv(t, Next(t, s, step))
  {
    match step {
      case Start =>
        ParentFrom(t, 0);
        PrepareKeeps(t, s, 0);
        assert s.bag - multiset{} == s.bag;
      case Lose(m) =>
        LoseKeeps(t, s, m);
      case Deliver(m) =>
        DeliverKeeps(t, s, m);
    }
  }

  lemma {:induction false} RunInv(t: Tree, trace: seq<State>, steps: seq<Step>, i: nat)
    requires Run(t, trace, steps) && i < |trace|
    ensures Inv(t, trace[i])
  {
    if i == 0 {
      var s := trace[0];
      assert forall v :: 0 <= v < t.Size() ==> t.ChildrenOf(v);
      assert forall v :: 0 <= v < t.Size() ==> s.nodes[v] == Node([], 0, 0, false);
    } else {
      RunInv(t, trace, steps, i - 1);
      NextInv(t, trace[i - 1], steps[i - 1]);
    }
  }

  // ----------------------------------------------------------------- main results

  /** `d` is `v` or somewhere below it. */
  ghost predicate IsUnder(t: Tree, v: nat, d: nat)
    requires t.Linked() && v < t.Size() && d < t.Size()
  {
    d == v || (d > v && IsUnder(t, v, t.parent[d]))
  }

  /**
   * In every run over every tree, whatever the order of arrival and the losses: a
   * node closes at most once, and only when its whole subtree has.
   */
  lemma ClosesOnceAfterSubtree(t: Tree, trace: seq<State>, steps: seq<Step>, i: nat, v: nat, d: nat)
    requires Run(t, trace, steps) && i < |trace| && v < t.Size() && d < t.Size() && IsUnder(t, v, d)
    ensures |trace[i].nodes| == t.Size()
    ensures trace[i].nodes[v].closes <= 1
    ensures trace[i].nodes[v].closes == 1 ==> trace[i].nodes[d].closes == 1
  {
    RunInv(t, trace, steps, i);
    ClosesOnce(t, trace[i], v);
    ClosesOnce(t, trace[i], d);
    SubtreeFirst(t, trace[i], v, d);
  }

  lemma {:induction false} SubtreeFirst(t: Tree, s: State, v: nat, d: nat)
    requires Inv(t, s) && v < t.Size() && d < t.Size() && IsUnder(t, v, d)
    ensures s.nodes[v].closes <= s.nodes[d].closes
  {
    if d == v {
    } else {
      assert ClosesAdd(t, s, d);
      SubtreeFirst(t, s, v, t.parent[d]);
    }
  }

  /** When the root reports that it is done, every node has closed. */
  lemma DoneMeansAllClosed(t: Tree, trace: seq<State>, steps: seq<Step>, i: nat, d: nat)
    requires Run(t, trace, steps) && i < |trace| && d < t.Size()
    requires |trace[i].nodes| == t.Size() && trace[i].nodes[0].done
    ensures trace[i].nodes[d].closes == 1
  {
    RunInv(t, trace, steps, i);
    assert NodeOk(t, trace[i], 0);
    EverythingBelowRoot(t, d);
    ClosesOnceAfterSubtree(t, trace, steps, i, 0, d);
  }

  lemma {:induction false} EverythingBelowRoot(t: Tree, d: nat)
    requires t.Linked() && d < t.Size()
    ensures IsUnder(t, 0, d)
  {
    if d == 0 {
    } else {
      EverythingBelowRoot(t, t.parent[d]);
    }
  }

  /** A lost message keeps the node above it from closing. */
  lemma LossBlocks(t: Tree, s: State, m: Message)
    requires Inv(t, s) && m in s.lost
    ensures exists v :: 0 <= v < t.Size() && s.nodes[v].closes == 0
  {
    assert m in s.bag + s.lost && Travels(t, m);
    match m {
      case PrepareClose(p, c) =>
        assert PreparesAdd(t, s, c);
        PreparesOnce(t, s, p);
        ClosesWithinPrepares(t, s, c);
        assert s.nodes[c].closes == 0;
      case Close(c, p) =>
        assert ClosesAdd(t, s, c);
        ClosesOnce(t, s, c);
        assert s.nodes[p].closes == 0;
    }
  }

  /** No message under way and none lost: everybody has prepared. */
  lemma {:induction false} QuietPrepares(t: Tree, s: State, v: nat)
    requires Inv(t, s) && s.started && s.bag == multiset{} && s.lost == multiset{} && v < t.Size()
    ensures s.nodes[v].prepares == 1
  {
    if v == 0 {
    } else {
      assert PreparesAdd(t, s, v);
      QuietPrepares(t, s, t.parent[v]);
    }
  }

  /** And everybody has closed: a node that has not would keep a message of every child back. */
  lemma {:induction false} QuietCloses(t: Tree, s: State, v: nat)
    requires Inv(t, s) && s.started && s.bag == multiset{} && s.lost == multiset{} && v < t.Size()
    ensures s.nodes[v].closes == 1
    decreases t.Size() - v
  {
    QuietPrepares(t, s, v);
    ClosesOnce(t, s, v);
    assert NodeOk(t, s, v) && t.ChildrenOf(v);
    var children, q := t.children[v], s.nodes[v].queue;
    if children != [] && s.nodes[v].closes == 0 {
      forall c | c in Elements<nat>(children) ensures c in Elements<nat>(q) {
        QuietCloses(t, s, c);
        assert ClosesAdd(t, s, c);
        assert c in multiset(q);
      }
      DistinctSize<nat>(children);
      SubsetSize(Elements<nat>(children), Elements<nat>(q));
      AtMostLength(q);
    }
  }

  lemma {:induction false} AtMostLength<T>(q: seq<T>)
    ensures |Elements(q)| <= |q|
  {
    if q == [] {
    } else {
      var k := |q| - 1;
      AtMostLength(q[..k]);
      assert q == q[..k] + [q[k]];
      assert Elements(q) == Elements(q[..k]) + {q[k]};
    }
  }

  /**
   * Closing down succeeds exactly if nothing is lost. In every run, once the root has
   * started and no message is under way any more: the root is done if and only if no
   * step so far lost a message, and then every node has prepared once and closed once.
   */
  lemma QuietExactly(t: Tree, trace: seq<State>, steps: seq<Step>, i: nat)
    requires Run(t, trace, steps) && i < |trace| && trace[i].started && trace[i].bag == multiset{}
    ensures |trace[i].nodes| == t.Size() > 0
    ensures trace[i].nodes[0].done <==> forall j :: 0 <= j < i ==> !steps[j].Lose?
    ensures trace[i].nodes[0].done ==>
      forall v :: 0 <= v < t.Size() ==> trace[i].nodes[v].prepares == 1 && trace[i].nodes[v].closes == 1
  {
    var s := trace[i];
    RunInv(t, trace, steps, i);
    LostExactly(t, trace, steps, i);
    assert NodeOk(t, s, 0);
    if s.lost == multiset{} {
      forall v | 0 <= v < t.Size() ensures s.nodes[v].prepares == 1 && s.nodes[v].closes == 1 {
        QuietPrepares(t, s, v);
        QuietCloses(t, s, v);
      }
    } else {
      var m :| m in s.lost;
      LossBlocks(t, s, m);
      var v :| 0 <= v < t.Size() && s.nodes[v].closes == 0;
      EverythingBelowRoot(t, v);
      SubtreeFirst(t, s, 0, v);
    }
  }

  lemma {:induction false} LostExactly(t: Tree, trace: seq<State>, steps: seq<Step>, i: nat)
    requires Run(t, trace, steps) && i < |trace|
    ensures trace[i].lost == multiset{} <==> forall j :: 0 <= j < i ==> !steps[j].Lose?
  {
    if i == 0 {
    } else {
      LostExactly(t, trace, steps, i - 1);
      var step := steps[i - 1];
      assert trace[i] == Next(t, trace[i - 1], step);
      if step.Lose? {
        assert step.m in trace[i].lost;
      }
    }
  }
}
