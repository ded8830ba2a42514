/**
 * A whole signing round from the committee to the checked signature: the split into
 * subtrees, the retries of each subtree, the sub-leaders' aggregates and the root's.
 */
module SigningRound {

  import opened Sequences
  import opened Bdn
  import opened Masks
  import opened Wrappers
  import Sub = SubLeader
  import Split = SubTrees
  import Root = CoSi

  ghost function MemberSet(t: Split.Tree): set<nat> {
    Elements(t.Members())
  }

  ghost function PartsOf(trees: seq<Split.Tree>): (parts: seq<set<nat>>)
    ensures |parts| == |trees| && forall i :: 0 <= i < |trees| ==> parts[i] == MemberSet(trees[i])
  {
    seq(|trees|, i requires 0 <= i < |trees| => MemberSet(trees[i]))
  }

  /** The subtrees of a split are disjoint parts of the committee that leave out the root. */
  lemma SplitGivesParts(n: nat, root: nat, nSubtrees: nat, trees: seq<Split.Tree>)
    requires 2 <= n && root < n && 1 <= nSubtrees
    requires |trees| == Split.NumTrees(n, nSubtrees) && Split.Dealt(n, root, |trees|, trees)
    ensures Root.Parts(PartsOf(trees), root, n)
    ensures forall i :: 0 <= i < |trees| ==> Split.Formed(n, trees[i]) && trees[i].root == root
  {
    var parts := PartsOf(trees);
    Split.SubtreesAreFormedAndBalanced(n, root, nSubtrees, trees);
    forall i | 0 <= i < |trees| ensures trees[i].root == root && forall v :: v in parts[i] ==> v < n && v != root {
      FormedMembers(n, trees[i]);
    }
    forall i, j | 0 <= i < j < |trees| ensures parts[i] !! parts[j] {
      forall v | v in parts[i] ensures v !in parts[j] {
        var k := Split.EachInExactlyOneSubtree(n, root, nSubtrees, trees, v);
      }
    }
  }

  lemma FormedMembers(n: nat, t: Split.Tree)
    requires Split.Formed(n, t)
    ensures forall v :: v in t.Members() ==> v < n && v != t.root
    ensures Distinct(t.Members()) && |MemberSet(t)| == |t.Members()|
  {
    var all := [t.root] + t.Members();
    var m := t.Members();
    forall k | 0 <= k < |m| ensures m[k] < n && m[k] != t.root {
      assert all[k + 1] == m[k] && all[0] == t.root;
    }
    assert forall k :: 0 <= k < |m| ==> m[k] == all[k + 1];
    DistinctSize<nat>(m);
  }

  /** The positions of a subtree's leaves, all of which are found in the roster. */
  function LeafPositions(leaves: seq<nat>): (children: seq<Option<nat>>)
    ensures |children| == |leaves| && Sub.Slots(children) == Elements(leaves)
  {
    if leaves == [] then []
    else
      var k := |leaves| - 1;
      assert leaves == leaves[..k] + [leaves[k]];
      var before := LeafPositions(leaves[..k]);
      assert (before + [Some(leaves[k])])[..k] == before;
      before + [Some(leaves[k])]
  }

  /** Everything about one subtree that is not under the protocol's control. */
  datatype Weather<A> = Weather(
    answers: nat -> bool, willing: bool, errs: nat, inbox: seq<Sub.Message<A>>,
    traverse: set<nat> -> seq<nat>)

  ghost predicate Fair<A(!new)>(w: Weather<A>) {
    Sub.HonestMasks(w.inbox) && forall keys: set<nat> :: Traverses(w.traverse(keys), keys)
  }

  /** Within `heard` messages, the first valid one of member `k` is its answer. */
  ghost predicate HasAnswered<A(!new), B(!new), T(!new)>(
    s: Scheme<A, B, T>, inbox: seq<Sub.Message<A>>, heard: nat, k: nat)
    requires heard <= |inbox|
  {
    exists j :: 0 <= j < heard && Sub.FirstToSettle(s, inbox, j, k) && inbox[j].Answer?
  }

  /** Who has signed: the leaves whose answer was heard, and the sub-leader if it is willing. */
  ghost function WhoSigned<A(!new), B(!new), T(!new)>(
    s: Scheme<A, B, T>, leader: nat, leaves: set<nat>, w: Weather<A>, heard: nat): Mask
    requires heard <= |w.inbox|
  {
    (set k | k in leaves && HasAnswered(s, w.inbox, heard, k)) + if w.willing then {leader} else {}
  }

  /** How many messages the sub-leader takes in: until enough leaves are settled or something ends the wait. */
  ghost predicate HeardAll<A(!new), B(!new), T(!new)>(
    s: Scheme<A, B, T>, leaves: set<nat>, w: Weather<A>, heard: nat)
  {
    && heard <= |w.inbox| && Sub.Listened(s, w.inbox, heard, leaves, w.errs, |leaves|)
    && (Sub.StillWaits(s, w.inbox, heard, leaves, w.errs, |leaves|) ==>
        heard == |w.inbox| || w.inbox[heard].TimeUp? || w.inbox[heard].Stop?)
  }

  ghost predicate Stopped<A(!new), B(!new), T(!new)>(
    s: Scheme<A, B, T>, leaves: set<nat>, w: Weather<A>, heard: nat)
    requires heard <= |w.inbox|
  {
    heard < |w.inbox| && w.inbox[heard].Stop? && Sub.StillWaits(s, w.inbox, heard, leaves, w.errs, |leaves|)
  }

  /**
   * What a responding sub-leader sends, or None if it was told to stop. Given leaves
   * that send their own bit, it is the flat aggregate over those who have signed.
   */
  method SubLeaderAnswer<A(!new), B(!new), T(==,!new)>(s: Scheme<A, B, T>, t: Split.Tree, w: Weather<A>)
    returns (r: Option<Sub.Response<A>>, ghost heard: nat)
    requires s.p.Laws() && s.Faithful() && Split.Formed(s.n, t) && Fair(w)
    ensures HeardAll(s, Elements(t.leaves), w, heard)
    ensures r.None? <==> Stopped(s, Elements(t.leaves), w, heard)
    ensures r.Some? ==> r.value.mask == WhoSigned(s, t.subleader, Elements(t.leaves), w, heard)
    ensures r.Some? ==> r.value.sig == Some(s.Flat(r.value.mask))
    ensures w.errs == 0 && Sub.AllAnswer(s, w.inbox, Elements(t.leaves)) ==>
      r.Some? && r.value.mask == Elements(t.leaves) + if w.willing then {t.subleader} else {}
  {
    FormedMembers(s.n, t);
    SubLeaderNotALeaf(s.n, t);
    var children := LeafPositions(t.leaves);
    var responses, timedOut, stopped;
    responses, timedOut, stopped, heard :=
      Sub.DispatchSubLeader(s, children, t.subleader, w.willing, w.errs, w.inbox);
    if stopped {
      return None, heard;
    }
    assert forall k :: k in responses ==> k in MemberSet(t);
    var order := w.traverse(responses.Keys);
    assert Traverses(order, responses.Keys);
    StoredIsSigned(s, t, w, responses, heard, order);
    var reply := Sub.MakeSubLeaderResponse(s, responses, order);
    r := Some(reply.response);
  }

  /** The slots that hold a signature are those of the members who have signed. */
  lemma StoredIsSigned<A(!new), B(!new), T(!new)>(
    s: Scheme<A, B, T>, t: Split.Tree, w: Weather<A>, responses: Sub.Responses<A>, heard: nat, order: seq<nat>)
    requires Split.Formed(s.n, t) && heard <= |w.inbox| && Traverses(order, responses.Keys)
    requires Sub.Slotted(s, responses, Elements(t.leaves), t.subleader, w.willing)
    requires forall k :: k in Elements(t.leaves) ==> Sub.KeepsFirst(s, w.inbox, heard, k, responses[k])
    ensures Sub.Signers(responses, order) == WhoSigned(s, t.subleader, Elements(t.leaves), w, heard)
    ensures (forall k :: k in t.leaves ==> Sub.Signed(responses, k)) ==>
      Sub.Signers(responses, order) == Elements(t.leaves) + if w.willing then {t.subleader} else {}
  {
    var leaves := Elements(t.leaves);
    forall k: nat | k in leaves ensures Sub.Signed(responses, k) <==> HasAnswered(s, w.inbox, heard, k) {
      SignedIfAnswered(s, w.inbox, heard, k, responses[k]);
    }
    forall k: nat
      ensures k in Sub.Signers(responses, order) <==>
        (k in leaves && HasAnswered(s, w.inbox, heard, k)) || (w.willing && k == t.subleader)
    {
    }
  }

  lemma SignedIfAnswered<A(!new), B(!new), T(!new)>(
    s: Scheme<A, B, T>, inbox: seq<Sub.Message<A>>, heard: nat, k: nat, kept: Option<Sub.Response<A>>)
    requires heard <= |inbox| && Sub.KeepsFirst(s, inbox, heard, k, kept)
    ensures kept.Some? && kept.value.sig.Some? <==> HasAnswered(s, inbox, heard, k)
  {
    if kept.Some? {
      var j :| 0 <= j < heard && Sub.FirstToSettle(s, inbox, j, k) && kept.value == Sub.Content(inbox[j]);
      if HasAnswered(s, inbox, heard, k) {
        var i :| 0 <= i < heard && Sub.FirstToSettle(s, inbox, i, k) && inbox[i].Answer?;
        assert i == j;
      }
    }
  }

  lemma SubLeaderNotALeaf(n: nat, t: Split.Tree)
    requires Split.Formed(n, t)
    ensures t.subleader !in t.leaves && |Elements(t.leaves)| == |t.leaves|
    ensures MemberSet(t) == {t.subleader} + Elements(t.leaves)
  {
    FormedMembers(n, t);
    var m := t.Members();
    assert forall k :: 0 <= k < |t.leaves| ==> t.leaves[k] == m[k + 1];
    assert m[0] == t.subleader;
    assert Distinct(t.leaves);
    DistinctSize<nat>(t.leaves);
  }

  /** Attempt `a` is made: all sub-leaders before it failed, each one before a larger index. */
  ghost predicate Reached(m: seq<nat>, answers: nat -> bool, a: nat) {
    a < |m| && Ascending(m[..a + 1]) && forall k: nat :: k < a ==> !answers(k)
  }

  /** Attempt `a` is the one that succeeds. */
  ghost predicate LedBy(m: seq<nat>, answers: nat -> bool, a: nat) {
    Reached(m, answers, a) && answers(a)
  }

  /**
   * The event of a subtree: its failure if no attempt succeeds, the timeout if the answering
   * sub-leader is told to stop, and otherwise what it has collected from all the other members.
   */
  ghost predicate Tells<A(!new), B(!new), T(!new)>(
    s: Scheme<A, B, T>, i: nat, t: Split.Tree, w: Weather<A>, rosterIndex: nat -> nat, e: Root.Event<A>)
  {
    var m := t.Members();
    && (e.Failed? <==> forall a: nat :: !LedBy(m, w.answers, a))
    && forall a: nat :: LedBy(m, w.answers, a) ==> TellsFrom(s, i, m[a], MemberSet(t) - {m[a]}, w, rosterIndex, e)
  }

  ghost predicate TellsFrom<A(!new), B(!new), T(!new)>(
    s: Scheme<A, B, T>, i: nat, leader: nat, leaves: set<nat>, w: Weather<A>, rosterIndex: nat -> nat,
    e: Root.Event<A>)
  {
    exists heard ::
      && HeardAll(s, leaves, w, heard)
      && e == if Stopped(s, leaves, w, heard) then Root.TimeUp
              else
                var mask := WhoSigned(s, leader, leaves, w, heard);
                Root.Answer(i, Some(rosterIndex(leader)), Sub.Response(Some(s.Flat(mask)), mask), |leaves|)
  }

  /** Nothing is in the way: some sub-leader answers and signs, and hears the answers of all others in time. */
  ghost predicate Cooperates<A(!new), B(!new), T(!new)>(s: Scheme<A, B, T>, t: Split.Tree, w: Weather<A>) {
    && w.willing && w.errs == 0
    && exists a: nat ::
        LedBy(t.Members(), w.answers, a) && Sub.AllAnswer(s, w.inbox, MemberSet(t) - {t.Members()[a]})
  }

  ghost predicate AllCooperate<A(!new), B(!new), T(!new)>(
    s: Scheme<A, B, T>, trees: seq<Split.Tree>, weather: seq<Weather<A>>)
    requires |weather| == |trees|
  {
    forall i :: 0 <= i < |trees| ==> Cooperates(s, trees[i], weather[i])
  }

  /** What RunSubProtocol returns, in terms of the attempts. */
  lemma OutcomeOfAttempts(m: seq<nat>, answers: nat -> bool, tried: seq<nat>, answered: bool)
    requires 1 <= |tried| <= |m| && tried == m[..|tried|] && Ascending(tried)
    requires forall k :: 0 <= k < |tried| - 1 ==> !answers(k)
    requires answered <==> answers(|tried| - 1)
    requires !answered ==> |tried| == |m| || m[|tried| - 1] > m[|tried|]
    ensures answered <==> LedBy(m, answers, |tried| - 1)
    ensures forall a: nat :: LedBy(m, answers, a) ==> a == |tried| - 1
  {
    forall a: nat | LedBy(m, answers, a) ensures a == |tried| - 1 {
      assert forall j, k :: 0 <= j < k <= a ==> m[..a + 1][j] == m[j] && m[..a + 1][k] == m[k];
    }
  }

  /** The event of a subtree whose attempt `a` succeeds. */
  lemma TellsAnswer<A(!new), B(!new), T(!new)>(
    s: Scheme<A, B, T>, i: nat, t: Split.Tree, w: Weather<A>, rosterIndex: nat -> nat, e: Root.Event<A>,
    a: nat, leader: nat, leaves: set<nat>, r: Option<Sub.Response<A>>, heard: nat)
    requires LedBy(t.Members(), w.answers, a) && forall b: nat :: LedBy(t.Members(), w.answers, b) ==> b == a
    requires leader == t.Members()[a] && leaves == MemberSet(t) - {leader} && HeardAll(s, leaves, w, heard)
    requires r.None? <==> Stopped(s, leaves, w, heard)
    requires r.Some? ==> r.value.mask == WhoSigned(s, leader, leaves, w, heard)
    requires r.Some? ==> r.value.sig == Some(s.Flat(r.value.mask))
    requires w.errs == 0 && Sub.AllAnswer(s, w.inbox, leaves) ==>
      r.Some? && r.value.mask == leaves + if w.willing then {leader} else {}
    requires e == if r.None? then Root.TimeUp else Root.Answer(i, Some(rosterIndex(leader)), r.value, |leaves|)
    requires leader in MemberSet(t)
    ensures e.Answer? ==> e.response.mask <= MemberSet(t) && e.response.sig == Some(s.Flat(e.response.mask))
    ensures Tells(s, i, t, w, rosterIndex, e)
    ensures Cooperates(s, t, w) ==> e.Answer? && e.response.mask == MemberSet(t)
  {
    assert TellsFrom(s, i, leader, leaves, w, rosterIndex, e);
    assert leaves + {leader} == MemberSet(t);
  }

  /** The subtree of a later attempt has the same members, all but the new sub-leader as leaves. */
  lemma SameSubtree(n: nat, t: Split.Tree, tree: Split.Tree)
    requires Split.Formed(n, t) && Split.Formed(n, tree)
    requires multiset(tree.Members()) == multiset(t.Members())
    ensures MemberSet(tree) == MemberSet(t) && tree.subleader in MemberSet(t)
    ensures Elements(tree.leaves) == MemberSet(t) - {tree.subleader}
    ensures |Elements(tree.leaves)| == |tree.leaves| && |tree.leaves| + 1 == |MemberSet(t)|
  {
    SameMembers(t.Members(), tree.Members());
    SubLeaderNotALeaf(n, tree);
    FormedMembers(n, t);
    assert MemberSet(tree) == MemberSet(t);
  }

  /** The event of attempt `a`, made with the subtree `tree`, once its sub-leader answers. */
  method AnswerEvent<A(!new), B(!new), T(==,!new)>(
    s: Scheme<A, B, T>, i: nat, tree: Split.Tree, w: Weather<A>, rosterIndex: nat -> nat,
    ghost t: Split.Tree, ghost a: nat)
    returns (e: Root.Event<A>)
    requires s.p.Laws() && s.Faithful() && Fair(w) && Split.Formed(s.n, t) && Split.Formed(s.n, tree)
    requires multiset(tree.Members()) == multiset(t.Members())
    requires LedBy(t.Members(), w.answers, a) && forall b: nat :: LedBy(t.Members(), w.answers, b) ==> b == a
    requires tree.subleader == t.Members()[a]
    ensures e.Answer? || e.TimeUp?
    ensures e.Answer? ==> e.i == i && e.from == Some(rosterIndex(tree.subleader)) && e.leaves + 1 == |MemberSet(t)|
    ensures e.Answer? ==> e.response.mask <= MemberSet(t) && e.response.sig == Some(s.Flat(e.response.mask))
    ensures Tells(s, i, t, w, rosterIndex, e)
    ensures Cooperates(s, t, w) ==> e.Answer? && e.response.mask == MemberSet(t)
  {
    SameSubtree(s.n, t, tree);
    ghost var heard;
    var r;
    r, heard := SubLeaderAnswer(s, tree, w);
    e := if r.None? then Root.TimeUp
         else Root.Answer(i, Some(rosterIndex(tree.subleader)), r.value, |tree.leaves|);
    TellsAnswer(s, i, t, w, rosterIndex, e, a, tree.subleader, Elements(tree.leaves), r, heard);
  }

  /** One subtree, retries included, as the event the root sees. */
  method SubtreeEvent<A(!new), B(!new), T(==,!new)>(
    s: Scheme<A, B, T>, i: nat, t: Split.Tree, w: Weather<A>, rosterIndex: nat -> nat)
    returns (e: Root.Event<A>, ghost leader: nat)
    requires s.p.Laws() && s.Faithful() && Split.Formed(s.n, t) && Fair(w)
    ensures leader in MemberSet(t)
    ensures e.Answer? ==> e.i == i && e.from == Some(rosterIndex(leader)) && e.leaves + 1 == |MemberSet(t)|
    ensures e.Answer? ==> e.response.mask <= MemberSet(t) && e.response.sig == Some(s.Flat(e.response.mask))
    ensures Tells(s, i, t, w, rosterIndex, e)
    ensures Cooperates(s, t, w) ==> e.Answer? && e.response.mask == MemberSet(t)
  {
    var outcome, tried := Split.RunSubProtocol(s.n, t, w.answers);
    OutcomeOfAttempts(t.Members(), w.answers, tried, outcome.Answered?);
    match outcome {
      case GaveUp =>
        leader := t.subleader;
        assert t.Members()[0] == leader;
        e := Root.Failed;
      case Answered(tree) =>
        leader := tree.subleader;
        SameSubtree(s.n, t, tree);
        e := AnswerEvent(s, i, tree, w, rosterIndex, t, |tried| - 1);
    }
  }

  lemma SameMembers(a: seq<nat>, b: seq<nat>)
    requires multiset(a) == multiset(b)
    ensures |a| == |b| && forall v :: v in a <==> v in b
  {
    assert |a| == |multiset(a)| && |b| == |multiset(b)|;
    assert forall v :: v in a <==> v in multiset(a);
    assert forall v :: v in b <==> v in multiset(b);
  }

  ghost predicate LeadsIn(parts: seq<set<nat>>, i: nat, v: nat) {
    i < |parts| && v in parts[i]
  }

  /** The subtrees of a committee and their events in the order of arrival. */
  ghost predicate Reports<A(!new), B(!new), T(!new)>(
    s: Scheme<A, B, T>, trees: seq<Split.Tree>, weather: seq<Weather<A>>, arrival: seq<nat>,
    rosterIndex: nat -> nat, events: seq<Root.Event<A>>)
    requires |weather| == |trees| && forall a :: 0 <= a < |arrival| ==> arrival[a] < |weather|
  {
    && |events| == |arrival|
    && forall a :: 0 <= a < |arrival| ==>
        Tells(s, arrival[a], trees[arrival[a]], weather[arrival[a]], rosterIndex, events[a])
  }

  /**
   * The round. Subtree `arrival[c]` is the c-th to be heard of; `rosterIndex` finds a
   * committee position in the root's own roster. For every committee, split, failure
   * pattern, message order and map order: a signature comes out exactly if the subtrees
   * heard of before the first failure or timeout bring enough signers; it is the flat
   * aggregate of the root and the signers heard, it verifies, and it passes the default
   * policy if the threshold was not set below it. If nothing is in the way in any subtree,
   * a signature comes out.
   */
  method SignBlock<A(!new), B(!new), T(==,!new)>(
    s: Scheme<A, B, T>, root: nat, nSubtrees: nat, threshold: nat, rosterSize: nat, rosterIndex: nat -> nat,
    weather: seq<Weather<A>>, arrival: seq<nat>, pick: Sub.Responses<A> -> seq<nat>)
    returns (r: Result<Root.Final<A>, Root.Error>, ghost trees: seq<Split.Tree>,
             ghost events: seq<Root.Event<A>>, ghost heard: nat)
    requires s.p.Laws() && s.Faithful() && 2 <= s.n && root < s.n && 1 <= nSubtrees
    requires forall j, k :: 0 <= j < k < s.n ==> rosterIndex(j) != rosterIndex(k)
    requires |weather| == Split.NumTrees(s.n, nSubtrees) && forall i :: 0 <= i < |weather| ==> Fair(weather[i])
    requires Distinct(arrival) && forall a :: 0 <= a < |arrival| ==> arrival[a] < |weather|
    requires forall m: Sub.Responses<A> :: Traverses(pick(m), m.Keys + {rosterIndex(root)})
    ensures |trees| == |weather| && Split.Dealt(s.n, root, |trees|, trees)
    ensures Reports(s, trees, weather, arrival, rosterIndex, events)
    ensures s.n <= rosterSize ==>
      forall end :: Root.AnswersUntil(events, end) ==> (r.Ok? <==> Root.SignedIn(events, end, s.n) + 1 >= threshold)
    ensures heard <= |events| && Root.Listened(events, heard, s.n, threshold, rosterSize)
    ensures r.Ok? ==> r.value.bits == Some(Root.SignersIn(events, heard) + {root})
    ensures r.Ok? ==>
      && r.value.sig == s.Flat(r.value.bits.value)
      && CountEnabled(r.value.bits.value, s.n) >= threshold
      && !Root.VerifyWithPolicy(s, r.value, threshold).Err?
    ensures r.Ok? && threshold >= Root.DefaultThreshold(s.n) ==> Root.Verify(s, r.value).Ok?
    ensures |arrival| == |weather| && threshold <= s.n <= rosterSize && AllCooperate(s, trees, weather) ==> r.Ok?
  {
    var split := Split.GenTrees(s.n, root, nSubtrees);
    var subtrees := split.value;
    trees := subtrees;
    SplitGivesParts(s.n, root, nSubtrees, subtrees);
    var reported := RunSubtrees(s, root, subtrees, weather, arrival, rosterIndex);
    events := reported;
    r, heard := Root.RunRound(s, threshold, rosterSize, |subtrees|, reported, root, rosterIndex(root), pick,
                              PartsOf(subtrees));
    if |arrival| == |weather| && threshold <= s.n <= rosterSize && AllCooperate(s, trees, weather) {
      EveryoneSigned(s, root, nSubtrees, trees, arrival, rosterIndex(root), events);
      assert Root.AnswersUntil(events, |events|);
    }
  }

  /** If every subtree has answered with all its members, everyone but the root has signed. */
  lemma EveryoneSigned<A(!new), B(!new), T(!new)>(
    s: Scheme<A, B, T>, root: nat, nSubtrees: nat, trees: seq<Split.Tree>, arrival: seq<nat>, rootIndex: nat,
    events: seq<Root.Event<A>>)
    requires 2 <= s.n && root < s.n && 1 <= nSubtrees
    requires |trees| == Split.NumTrees(s.n, nSubtrees) && Split.Dealt(s.n, root, |trees|, trees)
    requires Distinct(arrival) && |events| == |arrival| == |trees|
    requires forall a :: 0 <= a < |arrival| ==> arrival[a] < |trees|
    requires forall a :: 0 <= a < |arrival| ==>
      events[a].Answer? && events[a].response.mask == MemberSet(trees[arrival[a]])
    requires Root.Honest(s, PartsOf(trees), root, rootIndex, events)
    ensures Root.Heard(events, |events|) && Root.SignedIn(events, |events|, s.n) + 1 >= s.n
  {
    var signers := Root.SignersIn(events, |events|);
    Pigeonhole(arrival, |trees|);
    forall v | v in Below(s.n) - {root} ensures v in signers {
      var i := Split.EachInExactlyOneSubtree(s.n, root, nSubtrees, trees, v);
      MemberSigned(trees, arrival, events, i, v);
    }
    Root.SignedOrRefused(s, PartsOf(trees), root, rootIndex, events, |events|);
    SubsetSize(Below(s.n) - {root}, signers);
  }

  lemma MemberSigned<A(!new)>(
    trees: seq<Split.Tree>, arrival: seq<nat>, events: seq<Root.Event<A>>, i: nat, v: nat)
    requires |events| == |arrival| && i in arrival && forall a :: 0 <= a < |arrival| ==> arrival[a] < |trees|
    requires forall a :: 0 <= a < |arrival| ==>
      events[a].Answer? && events[a].response.mask == MemberSet(trees[arrival[a]])
    requires i < |trees| && v in MemberSet(trees[i])
    ensures v in Root.SignersIn(events, |events|)
  {
    var a :| 0 <= a < |arrival| && arrival[a] == i;
    Root.InSigners(events, |events|, v);
    assert v in events[a].response.mask;
  }

  /** What each subtree's event keeps. */
  ghost predicate ReportsOne<A(!new), B(!new), T(!new)>(
    s: Scheme<A, B, T>, parts: seq<set<nat>>, root: nat, trees: seq<Split.Tree>, weather: seq<Weather<A>>,
    rosterIndex: nat -> nat, i: nat, e: Root.Event<A>, leader: nat)
  {
    && i < |trees| == |weather| && LeadsIn(parts, i, leader)
    && (e.Answer? ==> e.i == i && e.from == Some(rosterIndex(leader)))
    && Root.HonestAnswer(s, parts, rosterIndex(root), e)
    && Tells(s, i, trees[i], weather[i], rosterIndex, e)
    && (Cooperates(s, trees[i], weather[i]) ==> e.Answer? && e.response.mask == MemberSet(trees[i]))
  }

  /** What `check` asks of a subtree, its event and its sub-leader holds of all heard of so far. */
  ghost predicate AllReported<A(!new)>(
    check: (nat, Root.Event<A>, nat) -> bool, arrival: seq<nat>, events: seq<Root.Event<A>>, leaders: seq<nat>)
  {
    && |events| == |leaders| <= |arrival|
    && forall a :: 0 <= a < |events| ==> check(arrival[a], events[a], leaders[a])
  }

  lemma ReportedNext<A(!new)>(
    check: (nat, Root.Event<A>, nat) -> bool, arrival: seq<nat>, events: seq<Root.Event<A>>, leaders: seq<nat>,
    e: Root.Event<A>, leader: nat)
    requires AllReported(check, arrival, events, leaders)
    requires |events| < |arrival| && check(arrival[|events|], e, leader)
    ensures AllReported(check, arrival, events + [e], leaders + [leader])
  {
  }

  ghost function Check<A(!new), B(!new), T(!new)>(
    s: Scheme<A, B, T>, parts: seq<set<nat>>, root: nat, trees: seq<Split.Tree>, weather: seq<Weather<A>>,
    rosterIndex: nat -> nat): (check: (nat, Root.Event<A>, nat) -> bool)
    ensures forall i, e, leader ::
      check(i, e, leader) == ReportsOne(s, parts, root, trees, weather, rosterIndex, i, e, leader)
  {
    (i: nat, e: Root.Event<A>, leader: nat) => ReportsOne(s, parts, root, trees, weather, rosterIndex, i, e, leader)
  }

  method ReportSubtree<A(!new), B(!new), T(==,!new)>(
    s: Scheme<A, B, T>, ghost parts: seq<set<nat>>, ghost root: nat, trees: seq<Split.Tree>,
    weather: seq<Weather<A>>, rosterIndex: nat -> nat, i: nat)
    returns (e: Root.Event<A>, ghost leader: nat)
    requires s.p.Laws() && s.Faithful() && parts == PartsOf(trees) && Root.Parts(parts, root, s.n) && root < s.n
    requires i < |trees| == |weather| && Split.Formed(s.n, trees[i]) && Fair(weather[i])
    requires forall j, k :: 0 <= j < k < s.n ==> rosterIndex(j) != rosterIndex(k)
    ensures ReportsOne(s, parts, root, trees, weather, rosterIndex, i, e, leader)
  {
    e, leader := SubtreeEvent(s, i, trees[i], weather[i], rosterIndex);
    assert LeadsIn(parts, i, leader);
    assert leader < s.n && leader != root;
    assert if leader < root then rosterIndex(leader) != rosterIndex(root) else rosterIndex(root) != rosterIndex(leader);
  }

  method RunSubtrees<A(!new), B(!new), T(==,!new)>(
    s: Scheme<A, B, T>, root: nat, trees: seq<Split.Tree>, weather: seq<Weather<A>>, arrival: seq<nat>,
    rosterIndex: nat -> nat)
    returns (events: seq<Root.Event<A>>)
    requires s.p.Laws() && s.Faithful() && Root.Parts(PartsOf(trees), root, s.n)
    requires forall i :: 0 <= i < |trees| ==> Split.Formed(s.n, trees[i])
    requires forall j, k :: 0 <= j < k < s.n ==> rosterIndex(j) != rosterIndex(k)
    requires |weather| == |trees| && forall i :: 0 <= i < |weather| ==> Fair(weather[i])
    requires Distinct(arrival) && forall a :: 0 <= a < |arrival| ==> arrival[a] < |weather|
    ensures Root.Honest(s, PartsOf(trees), root, rosterIndex(root), events)
    ensures Reports(s, trees, weather, arrival, rosterIndex, events)
    ensures forall a :: 0 <= a < |arrival| && Cooperates(s, trees[arrival[a]], weather[arrival[a]]) ==>
      events[a].Answer? && events[a].response.mask == MemberSet(trees[arrival[a]])
  {
    events := [];
    ghost var parts := PartsOf(trees);
    ghost var check := Check(s, parts, root, trees, weather, rosterIndex);
    ghost var leaders: seq<nat> := [];
    var c := 0;
    while c < |arrival|
      invariant 0 <= c <= |arrival| && |events| == |leaders| == c
      invariant AllReported(check, arrival, events, leaders)
    {
      var i := arrival[c];
      var e;
      ghost var leader;
      e, leader := ReportSubtree(s, parts, root, trees, weather, rosterIndex, i);
      ReportedNext(check, arrival, events, leaders, e, leader);
      events, leaders := events + [e], leaders + [leader];
      c := c + 1;
    }
    ReportsHonest(s, root, trees, weather, arrival, rosterIndex, events, leaders);
  }

  lemma ReportsHonest<A(!new), B(!new), T(!new)>(
    s: Scheme<A, B, T>, root: nat, trees: seq<Split.Tree>, weather: seq<Weather<A>>, arrival: seq<nat>,
    rosterIndex: nat -> nat, events: seq<Root.Event<A>>, leaders: seq<nat>)
    requires Root.Parts(PartsOf(trees), root, s.n) && |weather| == |trees|
    requires forall j, k :: 0 <= j < k < s.n ==> rosterIndex(j) != rosterIndex(k)
    requires Distinct(arrival) && forall a :: 0 <= a < |arrival| ==> arrival[a] < |weather|
    requires |events| == |arrival|
    requires AllReported(Check(s, PartsOf(trees), root, trees, weather, rosterIndex), arrival, events, leaders)
    ensures Root.Honest(s, PartsOf(trees), root, rosterIndex(root), events)
    ensures Reports(s, trees, weather, arrival, rosterIndex, events)
    ensures forall a :: 0 <= a < |arrival| && Cooperates(s, trees[arrival[a]], weather[arrival[a]]) ==>
      events[a].Answer? && events[a].response.mask == MemberSet(trees[arrival[a]])
  {
    assert forall a :: 0 <= a < |arrival| ==>
      ReportsOne(s, PartsOf(trees), root, trees, weather, rosterIndex, arrival[a], events[a], leaders[a]);
    DifferentSenders(s.n, rosterIndex, PartsOf(trees), root, arrival, leaders, events);
  }

  lemma DifferentSenders<A(!new)>(
    n: nat, rosterIndex: nat -> nat, parts: seq<set<nat>>, root: nat, arrival: seq<nat>, leaders: seq<nat>,
    events: seq<Root.Event<A>>)
    requires Root.Parts(parts, root, n) && forall j, k :: 0 <= j < k < n ==> rosterIndex(j) != rosterIndex(k)
    requires Distinct(arrival) && forall a :: 0 <= a < |arrival| ==> arrival[a] < |parts|
    requires |events| == |leaders| == |arrival|
    requires forall a :: 0 <= a < |events| ==> LeadsIn(parts, arrival[a], leaders[a])
    requires forall a :: 0 <= a < |events| && events[a].Answer? ==>
      events[a].i == arrival[a] && events[a].from == Some(rosterIndex(leaders[a]))
    ensures Root.AnswersOnce(events)
  {
    forall a, b | 0 <= a < b < |events| && events[a].Answer? && events[b].Answer?
      ensures events[a].i != events[b].i && events[a].from != events[b].from
    {
      var i, j := arrival[a], arrival[b];
      assert i != j && LeadsIn(parts, i, leaders[a]) && LeadsIn(parts, j, leaders[b]);
      assert if i < j then parts[i] !! parts[j] else parts[j] !! parts[i];
      var x, y := leaders[a], leaders[b];
      assert x != y && x < n && y < n;
      assert if x < y then rosterIndex(x) != rosterIndex(y) else rosterIndex(y) != rosterIndex(x);
    }
  }
}
