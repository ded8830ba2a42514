/**
 * The root of a signing round: collecting one aggregate per subtree, adding its own
 * signature, and the check every receiver makes (collectSignatures,
 * generateSignature and makeAggregateResponse in
 * BLSCoSi/SideChainProtocol(blscosi).go, Verify in struct_bdn.go).
 */
module CoSi {

  import opened Algebra
  import opened Bdn
  import opened Masks
  import opened Sequences
  import opened SubLeader
  import opened Wrappers

  /** Panicked is the index out of range that a round without subtrees runs into. */
  datatype Error = SubtreeFailed | Timeout | TooManyRefusals | InvalidSignature | PolicyNotFulfilled | Panicked

  // ------------------------------------------------------------------ thresholds

  /** (n - 1) / 3, rounded toward zero. */
  function DefaultFaultyThreshold(n: nat): nat {
    if n == 0 then 0 else (n - 1) / 3
  }

  function DefaultThreshold(n: nat): nat {
    n - DefaultFaultyThreshold(n)
  }

  /** At most every third member may be faulty, and those who are not reach the threshold. */
  lemma FaultBound(n: nat)
    requires 0 < n
    ensures 3 * DefaultFaultyThreshold(n) < n <= 3 * DefaultFaultyThreshold(n) + 3
    ensures DefaultThreshold(n) + DefaultFaultyThreshold(n) == n
  {
  }

  /**
   * Two sets of signers that both reach the default threshold share more members
   * than can be faulty.
   */
  lemma QuorumsIntersect(n: nat, a: set<nat>, b: set<nat>)
    requires forall i :: i in a + b ==> i < n
    requires 0 < n && |a| >= DefaultThreshold(n) && |b| >= DefaultThreshold(n)
    ensures |a * b| > DefaultFaultyThreshold(n)
  {
    SubsetSize(a + b, Below(n));
    assert |a + b| == |a| + |b| - |a * b|;
  }

  // ------------------------------------------------------- collecting signatures

  /**
   * What reaches the root while it waits: the aggregate of subprotocol `i`, sent by
   * the node at position `from` of the root's roster and standing over `leaves`
   * leaves; the failure of a subprotocol; or the timeout.
   */
  datatype Event<A> =
    | Answer(i: nat, from: Option<nat>, response: Response<A>, leaves: nat)
    | Failed
    | TimeUp

  predicate TooManyFailures(rosterSize: nat, threshold: nat, numFailure: int) {
    numFailure > rosterSize - threshold
  }

  /** Everyone whose bit is set in some collected aggregate. */
  ghost function AllSigners<A>(responses: Responses<A>): Mask {
    set k, i | k in responses && Signed(responses, k) && i in responses[k].value.mask :: i
  }

  /** Disjoint parts of the committee, none holding the root: the subtrees' members. */
  ghost predicate Parts(parts: seq<set<nat>>, root: nat, n: nat) {
    && root < n
    && (forall i, j :: 0 <= i < j < |parts| ==> parts[i] !! parts[j])
    && (forall i, k :: 0 <= i < |parts| && k in parts[i] ==> k < n && k != root)
  }

  /** An honest sub-leader's aggregate: the flat aggregate over some members of its subtree. */
  ghost predicate HonestAnswer<A(!new), B(!new), T(!new)>(
    s: Scheme<A, B, T>, parts: seq<set<nat>>, rootIndex: nat, e: Event<A>)
  {
    e.Answer? ==>
      && e.i < |parts| && e.response.mask <= parts[e.i]
      && e.response.sig == Some(s.Flat(e.response.mask))
      && e.from.Some? && e.from.value != rootIndex
      && e.leaves + 1 == |parts[e.i]|
  }

  /** Each subprotocol answers once, and different subprotocols answer from different nodes. */
  ghost predicate AnswersOnce<A(!new)>(events: seq<Event<A>>) {
    forall a, b :: 0 <= a < b < |events| && events[a].Answer? && events[b].Answer? ==>
      events[a].i != events[b].i && events[a].from != events[b].from
  }

  ghost predicate Honest<A(!new), B(!new), T(!new)>(
    s: Scheme<A, B, T>, parts: seq<set<nat>>, root: nat, rootIndex: nat, events: seq<Event<A>>)
  {
    && Parts(parts, root, s.n) && AnswersOnce(events)
    && forall a :: 0 <= a < |events| ==> HonestAnswer(s, parts, rootIndex, events[a])
  }

  // ---------------------------------------------------- what the events hold

  /** The c-th event counts: it is the first answer of a node found in the root's roster. */
  ghost predicate Counts<A(!new)>(events: seq<Event<A>>, c: nat)
    requires c < |events|
  {
    && events[c].Answer? && events[c].from.Some?
    && forall b :: 0 <= b < c && events[b].Answer? ==> events[b].from != events[c].from
  }

  ghost function SignaturesOf<A(!new)>(e: Event<A>, n: nat): nat
    requires e.Answer?
  {
    CountEnabled(e.response.mask, n)
  }

  /** How many signatures the first `c` events bring. */
  ghost function SignedIn<A(!new)>(events: seq<Event<A>>, c: nat, n: nat): nat
    requires c <= |events|
  {
    if c == 0 then 0
    else if Counts(events, c - 1) then SignedIn(events, c - 1, n) + SignaturesOf(events[c - 1], n)
    else SignedIn(events, c - 1, n)
  }

  /** How many members of the answering subtrees did not sign. */
  ghost function RefusedIn<A(!new)>(events: seq<Event<A>>, c: nat, n: nat): int
    requires c <= |events|
  {
    if c == 0 then 0
    else if Counts(events, c - 1) then
      RefusedIn(events, c - 1, n) + (events[c - 1].leaves + 1 - SignaturesOf(events[c - 1], n))
    else RefusedIn(events, c - 1, n)
  }

  /** Node `k` of the root's roster is heard of in the first `c` events. */
  ghost predicate HeardOf<A(!new)>(events: seq<Event<A>>, c: nat, k: nat)
    requires c <= |events|
  {
    exists b :: 0 <= b < c && Counts(events, b) && events[b].from == Some(k)
  }

  /** The answers among the first `c` events are what has been collected, the first of every node. */
  ghost predicate Gathers<A(!new)>(events: seq<Event<A>>, c: nat, responses: Responses<A>)
    requires c <= |events|
  {
    && (forall b :: 0 <= b < c && Counts(events, b) ==>
        events[b].from.value in responses && responses[events[b].from.value] == Some(events[b].response))
    && forall k :: k in responses ==> HeardOf(events, c, k)
  }

  /** After `c` answers the signatures are still missing and can still come. */
  ghost predicate StillWaits<A(!new)>(events: seq<Event<A>>, c: nat, n: nat, threshold: nat, rosterSize: nat)
    requires c <= |events|
  {
    SignedIn(events, c, n) + 1 < threshold && RefusedIn(events, c, n) + threshold <= rosterSize
  }

  /** The collected map is one of flat aggregates over disjoint masks. */
  ghost predicate Collected<A(!new), B(!new), T(!new)>(
    s: Scheme<A, B, T>, responses: Responses<A>)
  {
    && (forall k: nat :: k in responses ==>
        Signed(responses, k) && responses[k].value.sig.value == s.Flat(responses[k].value.mask))
    && (forall j: nat, k: nat :: j in responses && k in responses && j != k ==>
        responses[j].value.mask !! responses[k].value.mask)
  }

  lemma CollectOne<A(!new), B(!new), T(!new)>(
    s: Scheme<A, B, T>, responses: Responses<A>, k: nat, response: Response<A>)
    requires Collected(s, responses) && k !in responses
    requires response.sig == Some(s.Flat(response.mask)) && response.mask !! AllSigners(responses)
    ensures Collected(s, responses[k := Some(response)])
    ensures AllSigners(responses[k := Some(response)]) == AllSigners(responses) + response.mask
  {
    var now := responses[k := Some(response)];
    assert Signed(now, k);
    forall j: nat | j in responses ensures responses[j].value.mask <= AllSigners(responses) {
      assert Signed(responses, j);
    }
    assert forall j: nat :: j in now ==> Signed(now, j);
    forall v ensures v in AllSigners(now) <==> v in AllSigners(responses) + response.mask {
      if v in AllSigners(responses) {
        var j :| j in responses && Signed(responses, j) && v in responses[j].value.mask;
        assert now[j] == responses[j];
      } else if v in response.mask {
        assert v in now[k].value.mask;
      }
    }
  }

  ghost predicate Members(members: set<nat>, root: nat, n: nat) {
    forall v :: v in members ==> v < n && v != root
  }

  /** After `c` answers the needed signatures are there, and not too many have refused. */
  ghost predicate HasEnough<A(!new)>(events: seq<Event<A>>, c: nat, n: nat, threshold: nat, rosterSize: nat)
    requires c <= |events|
  {
    SignedIn(events, c, n) + 1 >= threshold && RefusedIn(events, c, n) + threshold <= rosterSize
  }

  lemma GathersOne<A(!new)>(events: seq<Event<A>>, c: nat, responses: Responses<A>)
    requires c < |events| && events[c].Answer? && Gathers(events, c, responses) && Heard(events, c)
    ensures Heard(events, c + 1)
    ensures var e := events[c];
            && (Counts(events, c) <==> e.from.Some? && e.from.value !in responses)
            && Gathers(events, c + 1,
                       if Counts(events, c) then responses[e.from.value := Some(e.response)] else responses)
  {
    var e := events[c];
    if e.from.Some? && e.from.value in responses {
      assert HeardOf(events, c, e.from.value);
      var b :| 0 <= b < c && Counts(events, b) && events[b].from == Some(e.from.value);
      assert !Counts(events, c);
    } else if e.from.Some? {
      forall b | 0 <= b < c && events[b].Answer? ensures events[b].from != e.from {
        var first := FirstOf(events, b);
        if events[b].from.Some? {
          assert Counts(events, first);
        }
      }
    }
    if Counts(events, c) {
      GathersMore(events, c, responses);
    }
  }

  lemma GathersMore<A(!new)>(events: seq<Event<A>>, c: nat, responses: Responses<A>)
    requires c < |events| && Counts(events, c) && Gathers(events, c, responses)
    ensures Gathers(events, c + 1, responses[events[c].from.value := Some(events[c].response)])
  {
    var now := responses[events[c].from.value := Some(events[c].response)];
    forall k | k in now ensures HeardOf(events, c + 1, k) {
      if k in responses {
        assert HeardOf(events, c, k);
        var b :| 0 <= b < c && Counts(events, b) && events[b].from == Some(k);
      } else {
        assert events[c].from == Some(k);
      }
    }
  }

  /** The first answer from the same node. */
  lemma {:induction false} FirstOf<A(!new)>(events: seq<Event<A>>, c: nat) returns (first: nat)
    requires c < |events| && events[c].Answer?
    ensures first <= c && events[first].Answer? && events[first].from == events[c].from
    ensures events[c].from.Some? ==> Counts(events, first)
  {
    if b: nat :| b < c && events[b].Answer? && events[b].from == events[c].from {
      first := FirstOf(events, b);
    } else {
      first := c;
    }
  }

  ghost predicate Heard<A(!new)>(events: seq<Event<A>>, c: nat)
    requires c <= |events|
  {
    forall b :: 0 <= b < c ==> events[b].Answer?
  }

  /** The first `heard` events are answers, and after none of the earlier ones the wait was over. */
  ghost predicate Listened<A(!new)>(events: seq<Event<A>>, heard: nat, n: nat, threshold: nat, rosterSize: nat)
    requires heard <= |events|
  {
    forall c :: 0 <= c < heard ==> events[c].Answer? && StillWaits(events, c, n, threshold, rosterSize)
  }

  /** What the root's wait keeps. */
  ghost predicate Collecting<A(!new)>(
    events: seq<Event<A>>, next: nat, n: nat, threshold: nat, rosterSize: nat,
    responses: Responses<A>, numSignature: nat, numFailure: int)
    requires next <= |events|
  {
    && Gathers(events, next, responses) && Listened(events, next, n, threshold, rosterSize)
    && numSignature == SignedIn(events, next, n) && numFailure == RefusedIn(events, next, n)
  }

  lemma ListenedHeard<A(!new)>(events: seq<Event<A>>, next: nat, n: nat, threshold: nat, rosterSize: nat)
    requires next <= |events| && Listened(events, next, n, threshold, rosterSize)
    ensures Heard(events, next)
  {
  }

  lemma ListenedOne<A(!new)>(events: seq<Event<A>>, next: nat, n: nat, threshold: nat, rosterSize: nat)
    requires next < |events| && Listened(events, next, n, threshold, rosterSize)
    requires events[next].Answer? && StillWaits(events, next, n, threshold, rosterSize)
    ensures Listened(events, next + 1, n, threshold, rosterSize)
  {
  }

  /** One answer is taken in, unless its sender is unknown or has answered before. */
  method TakeAnswer<A(!new)>(
    n: nat, ghost threshold: nat, ghost rosterSize: nat, events: seq<Event<A>>, next: nat,
    responses: Responses<A>, numSignature: nat, numFailure: int)
    returns (now: Responses<A>, signatures: nat, failures: int)
    requires next < |events| && events[next].Answer?
    requires Collecting(events, next, n, threshold, rosterSize, responses, numSignature, numFailure)
    requires numSignature + 1 < threshold && numFailure + threshold <= rosterSize
    ensures Collecting(events, next + 1, n, threshold, rosterSize, now, signatures, failures)
  {
    var e := events[next];
    now, signatures, failures := responses, numSignature, numFailure;
    var count := CountEnabled(e.response.mask, n);
    if e.from.Some? && e.from.value !in responses {
      signatures := signatures + count;
      failures := failures + (e.leaves + 1 - count);
      now := responses[e.from.value := Some(e.response)];
    }
    ListenedHeard(events, next, n, threshold, rosterSize);
    GathersOne(events, next, responses);
    ListenedOne(events, next, n, threshold, rosterSize);
  }

  /**
   * The root's wait. `rosterSize` is the length of the root's own roster. When the
   * events are used up, the timeout is what happens next. The root takes in `heard`
   * answers: until the needed signatures are there or can no longer come, or
   * something else than an answer comes.
   */
  method CollectSignatures<A(!new)>(
    n: nat, threshold: nat, rosterSize: nat, numSubProtocols: nat, events: seq<Event<A>>)
    returns (r: Result<Responses<A>, Error>, numSignature: nat, ghost heard: nat)
    ensures heard <= |events| && Listened(events, heard, n, threshold, rosterSize)
    ensures numSubProtocols == 0 ==> heard == 0
    ensures numSignature == SignedIn(events, heard, n)
    ensures r.Ok? ==> Gathers(events, heard, r.value)
    ensures r.Err? ==> r.error in {SubtreeFailed, Timeout, TooManyRefusals}
    ensures r.Ok? <==>
      && (numSubProtocols == 0 || SignedIn(events, heard, n) + 1 >= threshold)
      && RefusedIn(events, heard, n) + threshold <= rosterSize
    ensures r == Err(TooManyRefusals) <==> RefusedIn(events, heard, n) + threshold > rosterSize
    ensures r == Err(Timeout) <==>
      && numSubProtocols > 0 && StillWaits(events, heard, n, threshold, rosterSize)
      && (heard == |events| || events[heard].TimeUp?)
    ensures r == Err(SubtreeFailed) <==>
      && numSubProtocols > 0 && StillWaits(events, heard, n, threshold, rosterSize)
      && heard < |events| && events[heard].Failed?
  {
    var responses: Responses<A> := map[];
    var numFailure: int := 0;
    numSignature, heard := 0, 0;
    var next := 0;
    while 0 < numSubProtocols && numSignature < threshold - 1 && !TooManyFailures(rosterSize, threshold, numFailure)
      invariant 0 <= next <= |events| && heard == next
      invariant numSubProtocols == 0 ==> next == 0
      invariant Collecting(events, next, n, threshold, rosterSize, responses, numSignature, numFailure)
      decreases |events| - next
    {
      if next == |events| {
        return Err(Timeout), numSignature, heard;
      }
      match events[next] {
        case TimeUp =>
          return Err(Timeout), numSignature, heard;
        case Failed =>
          return Err(SubtreeFailed), numSignature, heard;
        case Answer(_, _, _, _) =>
          responses, numSignature, numFailure :=
            TakeAnswer(n, threshold, rosterSize, events, next, responses, numSignature, numFailure);
      }
      next, heard := next + 1, heard + 1;
    }
    if TooManyFailures(rosterSize, threshold, numFailure) {
      return Err(TooManyRefusals), numSignature, heard;
    }
    r := Ok(responses);
  }

  // -------------------------------------------------------- the final signature

  /** A final signature: the aggregate point, and the mask unless every bit is meant. */
  datatype Final<A> = Final(sig: A, bits: Option<Mask>)

  /** Adds up all aggregates and merges all masks, in the order the map is traversed. */
  method MakeAggregateResponse<A(!new), B(!new), T(==,!new)>(
    s: Scheme<A, B, T>, responses: Responses<A>, order: seq<nat>) returns (f: Final<A>)
    requires s.p.Laws()
    requires Traverses(order, responses.Keys)
    ensures f.bits == Some(AllSigners(responses))
    ensures Collected(s, responses) ==> f.sig == s.Flat(AllSigners(responses))
  {
    var finalMask: Mask := {};
    var finalSignature := s.p.g1.zero;
    var c := 0;
    FlatSumEmpty(s.p.g1, (i: nat) => s.Share(i), s.n);
    while c < |order|
      invariant 0 <= c <= |order|
      invariant finalMask == SignersAmong(responses, order[..c])
      invariant Collected(s, responses) ==> finalSignature == s.Flat(finalMask)
    {
      var res := responses[order[c]];
      MergeOne(responses, order, c);
      if res.Some? && res.value.sig.Some? {
        if Collected(s, responses) {
          DisjointFromEarlier(s, responses, order, c);
          FlatSumUnion(s.p.g1, (i: nat) => s.Share(i), finalMask, res.value.mask, s.n);
        }
        finalSignature := s.p.g1.add(finalSignature, res.value.sig.value);
        finalMask := finalMask + res.value.mask;
      }
      c := c + 1;
    }
    assert order[..c] == order;
    assert SignersAmong(responses, order) == AllSigners(responses);
    f := Final(finalSignature, Some(finalMask));
  }

  lemma DisjointFromEarlier<A(!new), B(!new), T(!new)>(
    s: Scheme<A, B, T>, responses: Responses<A>, order: seq<nat>, c: nat)
    requires c < |order| && Collected(s, responses) && forall k :: k in order ==> k in responses
    requires Distinct(order)
    ensures SignersAmong(responses, order[..c]) !! responses[order[c]].value.mask
  {
    assert forall k: nat :: k in order[..c] ==> k != order[c];
  }

  /** The root signs, adds its share under its own index, and aggregates everything. */
  method GenerateSignature<A(!new), B(!new), T(==,!new)>(
    s: Scheme<A, B, T>, responses: Responses<A>, root: nat, rootIndex: nat, order: seq<nat>)
    returns (f: Final<A>)
    requires s.p.Laws() && root < s.n
    requires Traverses(order, responses.Keys + {rootIndex})
    ensures Collected(s, responses) && rootIndex !in responses && root !in AllSigners(responses) ==>
      f == Final(s.Flat(AllSigners(responses) + {root}), Some(AllSigners(responses) + {root}))
  {
    var personalMask: Mask := {root};
    CountSingle(root, s.n);
    EnabledFacts(personalMask, s.n);
    assert Enabled(personalMask, s.n)[0] in Enabled(personalMask, s.n);
    var agg := Aggregate(s, personalMask, [s.Sign(root)]);
    assert Listed(s, personalMask, [s.Sign(root)]);
    var all := responses[rootIndex := Some(Response(agg, personalMask))];
    if Collected(s, responses) && rootIndex !in responses && root !in AllSigners(responses) {
      CollectOne(s, responses, rootIndex, Response(agg, personalMask));
    }
    f := MakeAggregateResponse(s, all, order);
  }

  // --------------------------------------------------------------- verification

  /** Without an appended mask every bit counts as set. */
  function GetMask<A>(f: Final<A>, n: nat): Mask {
    match f.bits
    case Some(mask) => mask
    case None => Below(n)
  }

  /** The pairing check comes first, then the policy: at least `quorum` signers. */
  function VerifyWithPolicy<A(!new), B(!new), T(==,!new)>(
    s: Scheme<A, B, T>, f: Final<A>, quorum: nat): Result<Mask, Error>
  {
    var mask := GetMask(f, s.n);
    if !s.Verifies(s.FlatKey(mask), f.sig) then Err(InvalidSignature)
    else if CountEnabled(mask, s.n) < quorum then Err(PolicyNotFulfilled)
    else Ok(mask)
  }

  function Verify<A(!new), B(!new), T(==,!new)>(s: Scheme<A, B, T>, f: Final<A>): Result<Mask, Error> {
    VerifyWithPolicy(s, f, DefaultThreshold(s.n))
  }

  /**
   * What acceptance means: the point is what the holders of the mask's positions, each
   * signing with its own secret, add up to, and they are enough. Any other point is
   * refused as invalid, whatever its mask.
   */
  lemma AcceptedExactly<A(!new), B(!new), T(!new)>(s: Scheme<A, B, T>, f: Final<A>, quorum: nat)
    requires s.p.Laws() && s.Faithful()
    ensures var r, mask := VerifyWithPolicy(s, f, quorum), if f.bits.Some? then f.bits.value else Below(s.n);
            && (r.Ok? <==> f.sig == s.Flat(mask) && CountEnabled(mask, s.n) >= quorum)
            && (r.Ok? ==> r.value == mask)
            && (r == Err(InvalidSignature) <==> f.sig != s.Flat(mask))
  {
    var mask := GetMask(f, s.n);
    s.FlatVerifies(mask);
    assert Use2(f.sig, s.Flat(mask));
  }

  /** Nobody can be added to the mask of an accepted signature, unless they add nothing to it. */
  lemma AddedSignersRefused<A(!new), B(!new), T(!new)>(s: Scheme<A, B, T>, f: Final<A>, quorum: nat, extra: Mask)
    requires s.p.Laws() && s.Faithful() && f.bits.Some? && f.bits.value !! extra
    requires VerifyWithPolicy(s, f, quorum).Ok?
    ensures VerifyWithPolicy(s, Final(f.sig, Some(f.bits.value + extra)), quorum).Ok? <==> s.Flat(extra) == s.p.g1.zero
  {
    var mask, padded := f.bits.value, Final(f.sig, Some(f.bits.value + extra));
    AcceptedExactly(s, f, quorum);
    AcceptedExactly(s, padded, quorum);
    FlatSumUnion(s.p.g1, (i: nat) => s.Share(i), mask, extra, s.n);
    CountUnion(mask, extra, s.n);
    if s.Flat(mask + extra) == s.Flat(mask) {
      s.p.g1.Comm(s.Flat(mask), s.Flat(extra));
      s.p.g1.Cancel(s.Flat(extra), s.Flat(mask));
    }
    s.p.g1.Unit(s.Flat(mask));
  }

  /** The members of the subtrees that the first `c` events answer for. */
  ghost function AnsweredFor<A(!new)>(parts: seq<set<nat>>, events: seq<Event<A>>, c: nat): set<nat>
    requires c <= |events|
  {
    if c == 0 then {}
    else if events[c - 1].Answer? && events[c - 1].i < |parts| then
      AnsweredFor(parts, events, c - 1) + parts[events[c - 1].i]
    else AnsweredFor(parts, events, c - 1)
  }

  /** Everyone whose bit is set in one of the first `c` answers. */
  ghost function SignersIn<A(!new)>(events: seq<Event<A>>, c: nat): Mask
    requires c <= |events|
  {
    if c == 0 then {}
    else if events[c - 1].Answer? then SignersIn(events, c - 1) + events[c - 1].response.mask
    else SignersIn(events, c - 1)
  }

  lemma {:induction false} InAnsweredFor<A(!new)>(parts: seq<set<nat>>, events: seq<Event<A>>, c: nat, v: nat)
    requires c <= |events| && v in AnsweredFor(parts, events, c)
    ensures exists b :: 0 <= b < c && events[b].Answer? && events[b].i < |parts| && v in parts[events[b].i]
  {
    if c == 0 {
    } else if v in AnsweredFor(parts, events, c - 1) {
      InAnsweredFor(parts, events, c - 1, v);
    } else {
      assert v in parts[events[c - 1].i];
    }
  }

  lemma {:induction false} InSigners<A(!new)>(events: seq<Event<A>>, c: nat, v: nat)
    requires c <= |events|
    ensures v in SignersIn(events, c) <==> exists b :: 0 <= b < c && events[b].Answer? && v in events[b].response.mask
  {
    if c == 0 {
    } else {
      InSigners(events, c - 1, v);
      if b :| 0 <= b < c && events[b].Answer? && v in events[b].response.mask {
        assert b == c - 1 || b < c - 1;
      }
    }
  }

  /** An honest answer counts, and it is about a subtree not heard of before. */
  lemma AnswersApart<A(!new), B(!new), T(!new)>(
    s: Scheme<A, B, T>, parts: seq<set<nat>>, root: nat, rootIndex: nat, events: seq<Event<A>>, c: nat)
    requires c < |events| && Honest(s, parts, root, rootIndex, events) && events[c].Answer?
    ensures Counts(events, c) && HonestAnswer(s, parts, rootIndex, events[c])
    ensures Members(parts[events[c].i], root, s.n) && AnsweredFor(parts, events, c) !! parts[events[c].i]
  {
    var e := events[c];
    assert HonestAnswer(s, parts, rootIndex, e);
    forall v | v in AnsweredFor(parts, events, c) ensures v !in parts[e.i] {
      InAnsweredFor(parts, events, c, v);
      var b :| 0 <= b < c && events[b].Answer? && events[b].i < |parts| && v in parts[events[b].i];
      var i, j := e.i, events[b].i;
      assert i != j && if i < j then parts[i] !! parts[j] else parts[j] !! parts[i];
    }
  }

  /** Honest answers: every member of an answering subtree has either signed or refused. */
  lemma {:induction false} SignedOrRefused<A(!new), B(!new), T(!new)>(
    s: Scheme<A, B, T>, parts: seq<set<nat>>, root: nat, rootIndex: nat, events: seq<Event<A>>, c: nat)
    requires c <= |events| && Honest(s, parts, root, rootIndex, events)
    ensures SignersIn(events, c) <= AnsweredFor(parts, events, c)
    ensures Members(AnsweredFor(parts, events, c), root, s.n)
    ensures SignedIn(events, c, s.n) == |SignersIn(events, c)|
    ensures RefusedIn(events, c, s.n) == |AnsweredFor(parts, events, c) - SignersIn(events, c)|
  {
    if c == 0 {
    } else {
      SignedOrRefused(s, parts, root, rootIndex, events, c - 1);
      if events[c - 1].Answer? {
        AnswersApart(s, parts, root, rootIndex, events, c - 1);
        var part, mask := parts[events[c - 1].i], events[c - 1].response.mask;
        OneMoreAnswer(s, parts, root, events, c - 1);
        MembersUnion(AnsweredFor(parts, events, c - 1), part, root, s.n);
        SplitPart(SignersIn(events, c - 1), AnsweredFor(parts, events, c - 1), part, mask);
      }
    }
  }

  /** What one more honest answer adds. */
  lemma OneMoreAnswer<A(!new), B(!new), T(!new)>(
    s: Scheme<A, B, T>, parts: seq<set<nat>>, root: nat, events: seq<Event<A>>, c: nat)
    requires c < |events| && events[c].Answer? && Counts(events, c) && events[c].i < |parts|
    requires var part := parts[events[c].i];
             Members(part, root, s.n) && events[c].response.mask <= part && events[c].leaves + 1 == |part|
    ensures var part, mask := parts[events[c].i], events[c].response.mask;
            && SignersIn(events, c + 1) == SignersIn(events, c) + mask
            && AnsweredFor(parts, events, c + 1) == AnsweredFor(parts, events, c) + part
            && SignedIn(events, c + 1, s.n) == SignedIn(events, c, s.n) + |mask|
            && RefusedIn(events, c + 1, s.n) == RefusedIn(events, c, s.n) + |part| - |mask|
  {
    CountIsSize(events[c].response.mask, s.n);
  }

  lemma MembersUnion(a: set<nat>, b: set<nat>, root: nat, n: nat)
    requires Members(a, root, n) && Members(b, root, n)
    ensures Members(a + b, root, n)
  {
  }

  /** One more subtree splits into signers and refusers. */
  lemma SplitPart<K>(signed: set<K>, answered: set<K>, part: set<K>, mask: set<K>)
    requires signed <= answered && part !! answered && mask <= part
    ensures |signed + mask| == |signed| + |mask| && signed + mask <= answered + part
    ensures |(answered + part) - (signed + mask)| == |answered - signed| + |part| - |mask|
  {
    assert |part - mask| == |part| - |mask|;
    assert (answered + part) - (signed + mask) == (answered - signed) + (part - mask);
  }

  lemma WithinCommittee<A(!new), B(!new), T(!new)>(
    s: Scheme<A, B, T>, parts: seq<set<nat>>, root: nat, rootIndex: nat, events: seq<Event<A>>, c: nat)
    requires c <= |events| && Honest(s, parts, root, rootIndex, events)
    ensures SignedIn(events, c, s.n) + RefusedIn(events, c, s.n) + 1 <= s.n
  {
    SignedOrRefused(s, parts, root, rootIndex, events, c);
    var answered, signed := AnsweredFor(parts, events, c), SignersIn(events, c);
    SubsetSize(answered, Below(s.n) - {root});
    assert |answered - signed| == |answered| - |signed|;
  }

  /** Neither count goes down as more honest events come in. */
  lemma {:induction false} CountsGrow<A(!new), B(!new), T(!new)>(
    s: Scheme<A, B, T>, parts: seq<set<nat>>, root: nat, rootIndex: nat, events: seq<Event<A>>, c: nat, d: nat)
    requires c <= d <= |events| && Honest(s, parts, root, rootIndex, events)
    ensures SignedIn(events, c, s.n) <= SignedIn(events, d, s.n)
    ensures RefusedIn(events, c, s.n) <= RefusedIn(events, d, s.n)
  {
    if c == d {
    } else {
      CountsGrow(s, parts, root, rootIndex, events, c, d - 1);
      var e := events[d - 1];
      assert HonestAnswer(s, parts, rootIndex, e);
      if e.Answer? {
        assert Members(parts[e.i], root, s.n);
        CountIsSize(e.response.mask, s.n);
        SubsetSize(e.response.mask, parts[e.i]);
      }
    }
  }

  /** The answers before the first event that is none, or before the end. */
  ghost predicate AnswersUntil<A(!new)>(events: seq<Event<A>>, end: nat) {
    && end <= |events| && Heard(events, end)
    && (end == |events| || !events[end].Answer?)
  }

  /**
   * Where the root stops listening does not matter: it has enough there exactly if all
   * the answers before the first failure or timeout hold enough signatures.
   */
  lemma EnoughExactly<A(!new), B(!new), T(!new)>(
    s: Scheme<A, B, T>, parts: seq<set<nat>>, root: nat, rootIndex: nat, events: seq<Event<A>>,
    heard: nat, threshold: nat, rosterSize: nat)
    requires Honest(s, parts, root, rootIndex, events) && s.n <= rosterSize
    requires heard <= |events| && Listened(events, heard, s.n, threshold, rosterSize)
    requires StillWaits(events, heard, s.n, threshold, rosterSize) ==> heard == |events| || !events[heard].Answer?
    ensures forall end :: AnswersUntil(events, end) ==>
      (HasEnough(events, heard, s.n, threshold, rosterSize) <==> SignedIn(events, end, s.n) + 1 >= threshold)
  {
    forall end | AnswersUntil(events, end)
      ensures HasEnough(events, heard, s.n, threshold, rosterSize) <==> SignedIn(events, end, s.n) + 1 >= threshold
    {
      assert heard <= end;
      CountsGrow(s, parts, root, rootIndex, events, heard, end);
      WithinCommittee(s, parts, root, rootIndex, events, end);
    }
  }

  /** From honest answers the root collects flat aggregates over disjoint masks, none of them its own. */
  lemma HonestCollection<A(!new), B(!new), T(!new)>(
    s: Scheme<A, B, T>, parts: seq<set<nat>>, root: nat, rootIndex: nat, events: seq<Event<A>>, heard: nat,
    responses: Responses<A>)
    requires heard <= |events| && Honest(s, parts, root, rootIndex, events) && Gathers(events, heard, responses)
    ensures Collected(s, responses) && rootIndex !in responses
    ensures AllSigners(responses) == SignersIn(events, heard)
  {
    forall k: nat | k in responses
      ensures Signed(responses, k) && responses[k].value.sig.value == s.Flat(responses[k].value.mask)
      ensures k != rootIndex && responses[k].value.mask <= SignersIn(events, heard)
    {
      var b := AnswerOf(s, parts, root, rootIndex, events, heard, responses, k);
      forall v | v in events[b].response.mask ensures v in SignersIn(events, heard) {
        InSigners(events, heard, v);
      }
    }
    forall j: nat, k: nat | j in responses && k in responses && j != k
      ensures responses[j].value.mask !! responses[k].value.mask
    {
      var b := AnswerOf(s, parts, root, rootIndex, events, heard, responses, j);
      var c := AnswerOf(s, parts, root, rootIndex, events, heard, responses, k);
      var x, y := events[b].i, events[c].i;
      assert b != c && x != y && if x < y then parts[x] !! parts[y] else parts[y] !! parts[x];
    }
    forall v ensures v in AllSigners(responses) <==> v in SignersIn(events, heard) {
      InSigners(events, heard, v);
      if v in SignersIn(events, heard) {
        var b :| 0 <= b < heard && events[b].Answer? && v in events[b].response.mask;
        assert HonestAnswer(s, parts, rootIndex, events[b]) && Counts(events, b);
        assert Signed(responses, events[b].from.value);
      }
    }
  }

  lemma AnswerOf<A(!new), B(!new), T(!new)>(
    s: Scheme<A, B, T>, parts: seq<set<nat>>, root: nat, rootIndex: nat, events: seq<Event<A>>, heard: nat,
    responses: Responses<A>, k: nat) returns (b: nat)
    requires heard <= |events| && Honest(s, parts, root, rootIndex, events) && Gathers(events, heard, responses)
    requires k in responses
    ensures b < heard && Counts(events, b) && HonestAnswer(s, parts, rootIndex, events[b])
    ensures events[b].from == Some(k) && responses[k] == Some(events[b].response)
  {
    assert HeardOf(events, heard, k);
    b :| 0 <= b < heard && Counts(events, b) && events[b].from == Some(k);
    assert HonestAnswer(s, parts, rootIndex, events[b]);
  }

  lemma SignersAndRoot<A(!new), B(!new), T(!new)>(
    s: Scheme<A, B, T>, parts: seq<set<nat>>, root: nat, rootIndex: nat, events: seq<Event<A>>, heard: nat)
    requires heard <= |events| && Honest(s, parts, root, rootIndex, events)
    ensures root !in SignersIn(events, heard)
    ensures CountEnabled(SignersIn(events, heard) + {root}, s.n) == SignedIn(events, heard, s.n) + 1
  {
    SignedOrRefused(s, parts, root, rootIndex, events, heard);
    CountIsSize(SignersIn(events, heard) + {root}, s.n);
  }

  lemma FinalVerifies<A(!new), B(!new), T(!new)>(s: Scheme<A, B, T>, mask: Mask)
    requires s.p.Laws()
    ensures VerifyWithPolicy(s, Final(s.Flat(mask), Some(mask)), 0).Ok?
    ensures CountEnabled(mask, s.n) >= DefaultThreshold(s.n) ==> Verify(s, Final(s.Flat(mask), Some(mask))).Ok?
  {
    s.FlatVerifies(mask);
  }

  /**
   * A whole round as the root runs it: collect, then sign. With honest sub-leaders,
   * in whatever order their aggregates arrive and the maps are traversed, a round
   * produces a signature exactly if the answers before the first failure or timeout
   * hold signatures enough. It is the flat aggregate of everyone whose bit is set, which
   * are the root and the signers of the answers heard; it verifies; it carries at least
   * `threshold` signers; and so it passes the default policy if the threshold is not
   * below it. Starting the round looks at the first subtree, and panics exactly if there
   * is none.
   */
  method RunRound<A(!new), B(!new), T(==,!new)>(
    s: Scheme<A, B, T>, threshold: nat, rosterSize: nat, numSubProtocols: nat, events: seq<Event<A>>,
    root: nat, rootIndex: nat, pick: Responses<A> -> seq<nat>, ghost parts: seq<set<nat>>)
    returns (r: Result<Final<A>, Error>, ghost heard: nat)
    requires s.p.Laws() && Honest(s, parts, root, rootIndex, events) && root < s.n
    requires forall m: Responses<A> :: Traverses(pick(m), m.Keys + {rootIndex})
    ensures heard <= |events| && Listened(events, heard, s.n, threshold, rosterSize)
    ensures r.Ok? ==> r.value.bits == Some(SignersIn(events, heard) + {root})
    ensures r.Ok? ==> r.value.sig == s.Flat(r.value.bits.value)
    ensures r.Ok? ==> CountEnabled(r.value.bits.value, s.n) >= threshold
    ensures r.Ok? ==> !VerifyWithPolicy(s, r.value, 0).Err?
    ensures r.Ok? && threshold >= DefaultThreshold(s.n) ==> Verify(s, r.value).Ok?
    ensures r == Err(Panicked) <==> numSubProtocols == 0
    ensures r.Ok? ==> SignedIn(events, heard, s.n) + 1 >= threshold
    ensures r == Err(TooManyRefusals) <==>
      numSubProtocols > 0 && RefusedIn(events, heard, s.n) + threshold > rosterSize
    ensures r in {Err(Timeout), Err(SubtreeFailed)} <==>
      numSubProtocols > 0 && StillWaits(events, heard, s.n, threshold, rosterSize)
    ensures numSubProtocols > 0 && s.n <= rosterSize ==>
      forall end :: AnswersUntil(events, end) ==> (r.Ok? <==> SignedIn(events, end, s.n) + 1 >= threshold)
  {
    heard := 0;
    if numSubProtocols == 0 {
      return Err(Panicked), 0;
    }
    var collected, numSignature;
    collected, numSignature, heard := CollectSignatures(s.n, threshold, rosterSize, numSubProtocols, events);
    if s.n <= rosterSize {
      EnoughExactly(s, parts, root, rootIndex, events, heard, threshold, rosterSize);
    }
    match collected {
      case Err(e) =>
        r := Err(e);
      case Ok(responses) =>
        HonestCollection(s, parts, root, rootIndex, events, heard, responses);
        SignersAndRoot(s, parts, root, rootIndex, events, heard);
        var f := GenerateSignature(s, responses, root, rootIndex, pick(responses));
        FinalVerifies(s, SignersIn(events, heard) + {root});
        r := Ok(f);
    }
  }

  /**
   * The root does not give up too early: once it has, no set of signers that avoids
   * those who have refused can still reach the threshold.
   */
  lemma RefusalsAreFinal<A(!new), B(!new), T(!new)>(
    s: Scheme<A, B, T>, parts: seq<set<nat>>, root: nat, rootIndex: nat, events: seq<Event<A>>, heard: nat,
    threshold: nat, rosterSize: nat, signers: set<nat>)
    requires heard <= |events| && Honest(s, parts, root, rootIndex, events)
    requires RefusedIn(events, heard, s.n) + threshold > rosterSize && s.n <= rosterSize
    requires forall v :: v in signers ==> v < s.n
    requires signers !! AnsweredFor(parts, events, heard) - SignersIn(events, heard)
    ensures |signers| < threshold
  {
    SignedOrRefused(s, parts, root, rootIndex, events, heard);
    var refusers := AnsweredFor(parts, events, heard) - SignersIn(events, heard);
    SubsetSize(refusers + signers, Below(s.n));
    assert |refusers + signers| == |refusers| + |signers|;
  }

  /**
   * A threshold guarantees the default policy exactly when it is not below it:
   * otherwise a mask with just `threshold` signers is refused.
   */
  lemma ThresholdGuaranteesPolicy(n: nat, threshold: nat)
    requires threshold <= n
    ensures threshold >= DefaultThreshold(n) <==>
      forall mask: Mask :: CountEnabled(mask, n) >= threshold ==> CountEnabled(mask, n) >= DefaultThreshold(n)
  {
    FirstBits(threshold, Below(threshold), n);
    assert CountEnabled(Below(threshold), n) == threshold;
  }

  lemma {:induction false} FirstBits(k: nat, mask: Mask, n: nat)
    requires k <= n && forall i :: i in mask <==> 0 <= i < k
    ensures CountEnabled(mask, n) == k
  {
    if n == 0 {
    } else if k == n {
      var rest := mask - {n - 1};
      FirstBits(k - 1, rest, n - 1);
      EnabledAgree(rest, mask, n - 1);
    } else {
      FirstBits(k, mask, n - 1);
    }
  }

  /** With no subprotocol at all, collecting by itself would succeed although nobody has signed. */
  method NoSubProtocols<A(!new)>(n: nat, threshold: nat, events: seq<Event<A>>) returns (r: Result<Responses<A>, Error>)
    requires threshold <= n
    ensures r == Ok(map[])
  {
    var numSignature;
    ghost var heard;
    r, numSignature, heard := CollectSignatures(n, threshold, n, 0, events);
    assert r.value.Keys == {};
  }
}
