/**
 * A sub-leader collects the answers of the leaves of its subtree and aggregates
 * them with its own (BLSCoSi/SideChainProtocol(sub_blscosi).go).
 */
module SubLeader {

  import opened Bdn
  import opened Masks
  import opened Sequences
  import opened Wrappers

  /** A signature with the mask of its signers. A refusal carries no signature. */
  datatype Response<A> = Response(sig: Option<A>, mask: Mask)

  /** One slot for every accepted identity; None while its answer is pending. */
  type Responses<A> = map<nat, Option<Response<A>>>

  predicate Signed<A>(responses: Responses<A>, k: nat) {
    k in responses && responses[k].Some? && responses[k].value.sig.Some?
  }

  ghost function Signers<A>(responses: Responses<A>, order: seq<nat>): Mask {
    set k | k in order && Signed(responses, k)
  }

  /** The merged mask of the signatures stored at some positions. */
  ghost function SignersAmong<A>(responses: Responses<A>, order: seq<nat>): Mask {
    set k, i | k in order && Signed(responses, k) && i in responses[k].value.mask :: i
  }

  lemma MergeOne<A>(responses: Responses<A>, order: seq<nat>, c: nat)
    requires c < |order|
    ensures SignersAmong(responses, order[..c + 1]) == SignersAmong(responses, order[..c])
      + if Signed(responses, order[c]) then responses[order[c]].value.mask else {}
  {
    assert order[..c + 1] == order[..c] + [order[c]];
  }

  /** Every stored signature comes with exactly its sender's bit. */
  ghost predicate OwnBits<A>(responses: Responses<A>) {
    forall k: nat :: Signed(responses, k) ==> responses[k].value.mask == {k}
  }

  ghost predicate Genuine<A(!new), B(!new), T(!new)>(s: Scheme<A, B, T>, responses: Responses<A>) {
    forall k: nat :: Signed(responses, k) ==> responses[k].value.sig.value == s.Sign(k)
  }

  // --------------------------------------------- listing signatures in mask order

  /** Merged mask and signature list, or the panic of an insertion out of range. */
  datatype Gathered<A> = Gathered(mask: Mask, sigs: seq<A>) | Panics

  /** One iteration of the loop over the response map. */
  function GatherOne<A>(n: nat, sofar: Gathered<A>, index: nat, response: Option<Response<A>>): Gathered<A> {
    if sofar.Panics? || response.None? || response.value.sig.None? then sofar
    else
      var mask := sofar.mask + response.value.mask;
      var i := NthEnabledAtIndex(mask, n, index);
      if 0 <= i <= |sofar.sigs| then
        Gathered(mask, sofar.sigs[..i] + [response.value.sig.value] + sofar.sigs[i..])
      else Panics
  }

  /** The loop, for the order in which the map happens to be traversed. */
  function Gather<A>(n: nat, responses: Responses<A>, order: seq<nat>): Gathered<A>
    requires forall k :: k in order ==> k in responses
  {
    if order == [] then Gathered({}, [])
    else
      var last := order[|order| - 1];
      GatherOne(n, Gather(n, responses, order[..|order| - 1]), last, responses[last])
  }

  /** `sigs` lists the stored signatures by roster position: the k-th belongs to the k-th enabled position. */
  ghost predicate InRosterOrder<A>(n: nat, responses: Responses<A>, mask: Mask, sigs: seq<A>) {
    var at := Enabled(mask, n);
    && |sigs| == |at|
    && forall k :: 0 <= k < |at| ==> Signed(responses, at[k]) && sigs[k] == responses[at[k]].value.sig.value
  }

  /**
   * Whatever the order of traversal, inserting each signature at its rank in the
   * mask merged so far leaves the signatures sorted by roster position.
   */
  lemma {:induction false} GatherSorts<A>(n: nat, responses: Responses<A>, order: seq<nat>)
    requires Distinct(order) && OwnBits(responses)
    requires forall k :: k in order ==> k in responses && k < n
    ensures var g := Gather(n, responses, order);
            g.Gathered? && g.mask == Signers(responses, order) && InRosterOrder(n, responses, g.mask, g.sigs)
  {
    if order == [] {
      EnabledNone(n);
    } else {
      var m := |order| - 1;
      var before, last := order[..m], order[m];
      assert forall k :: k in before ==> k in order;
      GatherSorts(n, responses, before);
      assert order == before + [last];
      SignersStep(responses, before, last);
      GatherAdds(n, responses, Gather(n, responses, before), Signers(responses, before), last);
    }
  }

  /** One iteration keeps the list in roster order. */
  lemma GatherAdds<A>(n: nat, responses: Responses<A>, g: Gathered<A>, signers: Mask, last: nat)
    requires last in responses && last < n && last !in signers && OwnBits(responses)
    requires g.Gathered? && g.mask == signers && InRosterOrder(n, responses, g.mask, g.sigs)
    ensures var h := GatherOne(n, g, last, responses[last]);
            && h.Gathered? && h.mask == signers + (if Signed(responses, last) then {last} else {})
            && InRosterOrder(n, responses, h.mask, h.sigs)
  {
    if Signed(responses, last) {
      InsertInOrder(n, responses, g.mask, g.sigs, last);
    } else {
      assert signers + {} == signers;
    }
  }

  lemma SignersStep<A>(responses: Responses<A>, before: seq<nat>, last: nat)
    ensures Signers(responses, before + [last])
         == Signers(responses, before) + if Signed(responses, last) then {last} else {}
  {
  }

  lemma InsertInOrder<A>(n: nat, responses: Responses<A>, mask: Mask, sigs: seq<A>, index: nat)
    requires index < n && index !in mask && Signed(responses, index)
    requires InRosterOrder(n, responses, mask, sigs)
    ensures var r := NthEnabledAtIndex(mask + {index}, n, index);
            && 0 <= r <= |sigs|
            && InRosterOrder(n, responses, mask + {index},
                             sigs[..r] + [responses[index].value.sig.value] + sigs[r..])
  {
    EnabledInsert(mask, n, index);
  }

  /** Two traversals of the same map give the same list. */
  lemma OrderDoesNotMatter<A>(n: nat, responses: Responses<A>, order: seq<nat>, other: seq<nat>)
    requires Distinct(order) && Distinct(other) && OwnBits(responses)
    requires forall k :: k in order <==> k in responses
    requires forall k :: k in other <==> k in responses
    requires forall k :: k in responses ==> k < n
    ensures Gather(n, responses, order) == Gather(n, responses, other)
  {
    GatherSorts(n, responses, order);
    GatherSorts(n, responses, other);
    assert Signers(responses, order) == Signers(responses, other);
  }

  // -------------------------------------------------------- when the loop panics

  /** How many signatures are stored at the positions of `order`. */
  ghost function SignedCount<A>(responses: Responses<A>, order: seq<nat>): nat {
    if order == [] then 0
    else
      SignedCount(responses, order[..|order| - 1]) + if Signed(responses, order[|order| - 1]) then 1 else 0
  }

  /**
   * The c-th signature has a place in the list: its own position is enabled in the masks
   * merged so far, and no more positions are enabled before it than signatures are listed.
   */
  ghost predicate HasPlace<A>(n: nat, responses: Responses<A>, order: seq<nat>, c: nat)
    requires c < |order|
  {
    Signed(responses, order[c]) ==>
      && order[c] < n && order[c] in SignersAmong(responses, order[..c + 1])
      && CountEnabled(SignersAmong(responses, order[..c + 1]), order[c]) <= SignedCount(responses, order[..c])
  }

  ghost predicate InPlace<A>(n: nat, responses: Responses<A>, order: seq<nat>) {
    forall c :: 0 <= c < |order| ==> HasPlace(n, responses, order, c)
  }

  /** For one order of traversal, whatever the masks: exactly when the loop panics, and what it gathers. */
  lemma {:induction false} PanicsExactly<A>(n: nat, responses: Responses<A>, order: seq<nat>)
    requires forall k :: k in order ==> k in responses
    ensures var g := Gather(n, responses, order);
            && (g.Gathered? <==> InPlace(n, responses, order))
            && (g.Gathered? ==> g.mask == SignersAmong(responses, order) && |g.sigs| == SignedCount(responses, order))
  {
    if order == [] {
    } else {
      var m := |order| - 1;
      PanicsExactly(n, responses, order[..m]);
      InPlaceStep(n, responses, order);
      MergeOne(responses, order, m);
      assert order[..m + 1] == order;
    }
  }

  lemma InPlaceStep<A>(n: nat, responses: Responses<A>, order: seq<nat>)
    requires order != []
    ensures InPlace(n, responses, order)
       <==> InPlace(n, responses, order[..|order| - 1]) && HasPlace(n, responses, order, |order| - 1)
  {
    var past := order[..|order| - 1];
    forall c | 0 <= c < |past|
      ensures HasPlace(n, responses, order, c) <==> HasPlace(n, responses, past, c)
    {
      assert past[..c + 1] == order[..c + 1] && past[..c] == order[..c];
    }
  }

  /** The map when only `who` have answered; the other slots are pending. */
  function AnsweredBy<A>(responses: Responses<A>, who: set<nat>): Responses<A> {
    map k | k in responses :: if k in who then responses[k] else None
  }

  /** No panic, and the list is in roster order over exactly the signers. */
  ghost predicate GathersWell<A>(n: nat, responses: Responses<A>, order: seq<nat>)
    requires forall k :: k in order ==> k in responses
  {
    var g := Gather(n, responses, order);
    g.Gathered? && g.mask == Signers(responses, order) && InRosterOrder(n, responses, g.mask, g.sigs)
  }

  /**
   * Which answers arrive before the timeout, and in which order the map is traversed, is
   * not known beforehand. The loop works for all of that exactly if every answer's mask
   * is its sender's own bit.
   */
  lemma OwnBitsExactly<A(!new)>(n: nat, responses: Responses<A>)
    requires forall k :: k in responses ==> k < n
    ensures OwnBits(responses) <==>
      forall who: set<nat>, order: seq<nat> :: Traverses(order, responses.Keys) ==>
        GathersWell(n, AnsweredBy(responses, who), order)
  {
    if OwnBits(responses) {
      forall who: set<nat>, order: seq<nat> | Traverses(order, responses.Keys)
        ensures GathersWell(n, AnsweredBy(responses, who), order)
      {
        GatherSorts(n, AnsweredBy(responses, who), order);
      }
    } else {
      var k: nat :| Signed(responses, k) && responses[k].value.mask != {k};
      var order := SomeOrder(responses.Keys);
      OnlyAnswer(n, responses, order, k);
      assert !GathersWell(n, AnsweredBy(responses, {k}), order);
    }
  }

  /** A single answer with a foreign mask already shows. */
  lemma OnlyAnswer<A(!new)>(n: nat, responses: Responses<A>, order: seq<nat>, k: nat)
    requires Traverses(order, responses.Keys) && Signed(responses, k) && responses[k].value.mask != {k}
    ensures !GathersWell(n, AnsweredBy(responses, {k}), order)
  {
    var alone := AnsweredBy(responses, {k});
    PanicsExactly(n, alone, order);
    assert Signed(alone, k) && forall j: nat :: Signed(alone, j) ==> j == k;
    assert Signers(alone, order) == {k};
    assert SignersAmong(alone, order) == responses[k].value.mask;
  }

  /** Foreign masks need not panic: these two gather in both orders, because 0 sends both bits. */
  lemma ForeignMasksCanGather()
    ensures exists responses: Responses<int> ::
      && responses.Keys == {0, 1} && !OwnBits(responses)
      && Gather(2, responses, [0, 1]).Gathered? && Gather(2, responses, [1, 0]).Gathered?
  {
    var responses: Responses<int> := map[0 := Some(Response(Some(10), {0, 1})), 1 := Some(Response(Some(11), {1}))];
    assert Signed(responses, 0) && responses.Keys == {0, 1};
    GatherPair(responses, 0, 1);
    GatherPair(responses, 1, 0);
    assert CountEnabled({0, 1}, 0) == 0 && CountEnabled({0, 1}, 1) == 1 && CountEnabled({1}, 1) == 0;
    assert {0, 1} + {1} == {0, 1} && {1} + {0, 1} == {0, 1} && {} + {0, 1} == {0, 1} && {} + {1} == {1};
  }

  lemma GatherPair(responses: Responses<int>, a: nat, b: nat)
    requires a in responses && b in responses
    ensures Gather(2, responses, [a, b])
         == GatherOne(2, GatherOne(2, Gathered({}, []), a, responses[a]), b, responses[b])
  {
    assert [a, b][..1] == [a] && [a][..0] == [];
    assert Gather(2, responses, [a]) == GatherOne(2, Gathered({}, []), a, responses[a]);
  }

  /** Two leaves that send each other's mask make it panic. */
  lemma SwappedMasksPanic()
    ensures exists responses: Responses<int> ::
      && responses.Keys == {0, 1} && !OwnBits(responses)
      && Gather(2, responses, [0, 1]).Panics?
  {
    var responses: Responses<int> := map[0 := Some(Response(Some(10), {1})), 1 := Some(Response(Some(11), {0}))];
    GatherPair(responses, 0, 1);
    assert Signed(responses, 0) && responses.Keys == {0, 1};
  }

  datatype Reply<A> = Reply(response: Response<A>) | MaskMismatch | Crash

  method MakeSubLeaderResponse<A(!new), B(!new), T(==,!new)>(
    s: Scheme<A, B, T>, responses: Responses<A>, order: seq<nat>) returns (r: Reply<A>)
    requires Distinct(order) && forall k :: k in order <==> k in responses
    requires forall k :: k in responses ==> k < s.n
    ensures r.Crash? <==> !InPlace(s.n, responses, order)
    ensures r.MaskMismatch? <==>
      && InPlace(s.n, responses, order)
      && SignedCount(responses, order) != CountEnabled(SignersAmong(responses, order), s.n)
    ensures r.Reply? ==> r.response.mask == SignersAmong(responses, order)
    ensures OwnBits(responses) && Genuine(s, responses) ==>
      var signers := Signers(responses, order);
      r == Reply(Response(Some(s.Flat(signers)), signers))
  {
    PanicsExactly(s.n, responses, order);
    if OwnBits(responses) {
      GatherSorts(s.n, responses, order);
    }
    var mask: Mask := {};
    var sigs: seq<A> := [];
    var c := 0;
    while c < |order|
      invariant 0 <= c <= |order|
      invariant Gather(s.n, responses, order[..c]) == Gathered(mask, sigs)
    {
      var idx := order[c];
      var res := responses[idx];
      assert order[..c + 1][..c] == order[..c];
      c := c + 1;
      assert Gather(s.n, responses, order[..c]) == GatherOne(s.n, Gathered(mask, sigs), idx, res);
      if res.None? || res.value.sig.None? {
        continue;
      }
      mask := mask + res.value.mask;
      var i := NthEnabledAtIndex(mask, s.n, idx);
      if !(0 <= i <= |sigs|) {
        PanicStays(s.n, responses, order, c);
        return Crash;
      }
      sigs := sigs[..i] + ([res.value.sig.value] + sigs[i..]);
    }
    assert order[..c] == order;
    var agg := Aggregate(s, mask, sigs);
    assert OwnBits(responses) && Genuine(s, responses) ==> Listed(s, mask, sigs);
    r := if agg.None? then MaskMismatch else Reply(Response(agg, mask));
  }

  lemma {:induction false} PanicStays<A>(n: nat, responses: Responses<A>, order: seq<nat>, c: nat)
    requires forall k :: k in order ==> k in responses
    requires c <= |order| && Gather(n, responses, order[..c]).Panics?
    ensures Gather(n, responses, order).Panics?
  {
    if c == |order| {
      assert order[..c] == order;
    } else {
      var m := |order| - 1;
      assert order[..m][..c] == order[..c];
      PanicStays(n, responses, order[..m], c);
    }
  }

  // ------------------------------------------------------------ collecting answers

  /** What can arrive while waiting. `from` is the sender's roster position, None if unknown. */
  datatype Message<A> =
    | Answer(from: Option<nat>, response: Response<A>)
    | Refusal(from: Option<nat>, nonceSigned: bool)
    | TimeUp
    | Stop

  /** The senders' side of honesty: an answer's mask is its sender's own bit. */
  ghost predicate HonestMasks<A>(inbox: seq<Message<A>>) {
    forall m :: m in inbox ==> HonestMask(m)
  }

  ghost predicate HonestMask<A>(m: Message<A>) {
    m.Answer? && m.from.Some? ==> m.response.mask == {m.from.value}
  }

  /** Where a message may be stored: a slot that exists and is still pending. */
  predicate Pending<A>(responses: Responses<A>, from: Option<nat>) {
    from.Some? && from.value in responses && responses[from.value].None?
  }

  function Slots(children: seq<Option<nat>>): set<nat> {
    if children == [] then {}
    else Slots(children[..|children| - 1]) + match children[|children| - 1] case None => {} case Some(k) => {k}
  }

  ghost function Filled<A>(responses: Responses<A>, slots: set<nat>): set<nat> {
    set k | k in slots && k in responses && responses[k].Some?
  }

  /** One slot per accepted child and the sub-leader's own, holding only signatures of their owners. */
  ghost predicate Slotted<A(!new), B(!new), T(!new)>(
    s: Scheme<A, B, T>, responses: Responses<A>, slots: set<nat>, own: nat, willing: bool)
  {
    && own !in slots
    && responses.Keys == slots + (if willing then {own} else {})
    && (willing ==> responses[own] == Some(Response(Some(s.Sign(own)), {own})))
    && Genuine(s, responses)
  }

  method OpenSlots<A>(children: seq<Option<nat>>) returns (responses: Responses<A>)
    ensures responses.Keys == Slots(children) && forall k :: k in responses ==> responses[k] == None
  {
    responses := map[];
    var c := 0;
    while c < |children|
      invariant 0 <= c <= |children|
      invariant responses.Keys == Slots(children[..c])
      invariant forall k :: k in responses ==> responses[k] == None
    {
      assert children[..c + 1][..c] == children[..c];
      if children[c].Some? {
        responses := responses[children[c].value := None];
      }
      c := c + 1;
    }
    assert children[..c] == children;
  }

  /** A message that settles child `k`: the child's own signature, or a refusal with the nonce signed. */
  ghost predicate Settles<A(!new), B(!new), T(!new)>(s: Scheme<A, B, T>, m: Message<A>, k: nat) {
    match m
    case Answer(from, response) => from == Some(k) && response.sig == Some(s.Sign(k))
    case Refusal(from, nonceSigned) => from == Some(k) && nonceSigned
    case TimeUp => false
    case Stop => false
  }

  /** What is kept of a message that settles a child: the answer itself, an empty response for a refusal. */
  ghost function Content<A>(m: Message<A>): Response<A> {
    if m.Answer? then m.response else Response(None, {})
  }

  /**
   * Stores one answer or refusal: exactly if the message settles a child whose slot is
   * still pending, and then only that slot changes.
   */
  method Store<A(!new), B(!new), T(==,!new)>(s: Scheme<A, B, T>, responses: Responses<A>, m: Message<A>)
    returns (updated: Responses<A>, counted: bool)
    requires s.p.Laws() && s.Faithful()
    ensures counted <==> exists k :: k in responses && responses[k].None? && Settles(s, m, k)
    ensures !counted ==> updated == responses
    ensures forall k: nat :: k in responses && responses[k].None? && Settles(s, m, k) ==>
      updated == responses[k := Some(Content(m))]
  {
    updated, counted := responses, false;
    match m {
      case Answer(from, response) =>
        if Pending(responses, from) {
          s.OwnSignatureVerifies(from.value);
          if response.sig.Some? && s.Verifies(s.Public(from.value), response.sig.value) {
            s.VerifiedIsOwn(from.value, response.sig.value);
            assert Settles(s, m, from.value);
            updated, counted := responses[from.value := Some(response)], true;
          }
        }
      case Refusal(from, nonceSigned) =>
        if Pending(responses, from) {
          if nonceSigned {
            assert Settles(s, m, from.value);
            updated, counted := responses[from.value := Some(Response(None, {}))], true;
          }
        }
      case _ =>
    }
  }

  /** The slots at the beginning: all pending, but the sub-leader's own answer if it signs. */
  method OwnAnswer<A(!new), B(!new), T(==,!new)>(
    s: Scheme<A, B, T>, children: seq<Option<nat>>, own: nat, willing: bool) returns (responses: Responses<A>)
    requires own !in Slots(children)
    ensures Slotted(s, responses, Slots(children), own, willing) && OwnBits(responses)
    ensures forall k :: k in Slots(children) ==> responses[k].None?
  {
    responses := OpenSlots(children);
    if willing {
      responses := responses[own := Some(Response(Some(s.Sign(own)), {own}))];
    }
  }

  /** Of the first `n` messages, `kept` is the first one that settles child `k`, if there is one. */
  ghost predicate KeepsFirst<A(!new), B(!new), T(!new)>(
    s: Scheme<A, B, T>, inbox: seq<Message<A>>, n: nat, k: nat, kept: Option<Response<A>>)
    requires n <= |inbox|
  {
    match kept
    case None => forall j :: 0 <= j < n ==> !Settles(s, inbox[j], k)
    case Some(response) => exists j :: 0 <= j < n && FirstToSettle(s, inbox, j, k) && response == Content(inbox[j])
  }

  ghost predicate FirstToSettle<A(!new), B(!new), T(!new)>(
    s: Scheme<A, B, T>, inbox: seq<Message<A>>, j: nat, k: nat)
    requires j < |inbox|
  {
    Settles(s, inbox[j], k) && forall i :: 0 <= i < j ==> !Settles(s, inbox[i], k)
  }

  /** The children settled by the first `n` messages. */
  ghost function SettledBy<A(!new), B(!new), T(!new)>(
    s: Scheme<A, B, T>, inbox: seq<Message<A>>, n: nat, slots: set<nat>): set<nat>
    requires n <= |inbox|
  {
    set k | k in slots && exists j :: 0 <= j < n && Settles(s, inbox[j], k)
  }

  /** After the first `n` messages too few children are settled, `errs` of them being counted from the start. */
  ghost predicate StillWaits<A(!new), B(!new), T(!new)>(
    s: Scheme<A, B, T>, inbox: seq<Message<A>>, n: nat, slots: set<nat>, errs: nat, needed: nat)
    requires n <= |inbox|
  {
    errs + |SettledBy(s, inbox, n, slots)| < needed
  }

  /** All `heard` messages came while the sub-leader waited, and none of them ended the wait. */
  ghost predicate Listened<A(!new), B(!new), T(!new)>(
    s: Scheme<A, B, T>, inbox: seq<Message<A>>, heard: nat, slots: set<nat>, errs: nat, needed: nat)
    requires heard <= |inbox|
  {
    forall j :: 0 <= j < heard ==>
      (inbox[j].Answer? || inbox[j].Refusal?) && StillWaits(s, inbox, j, slots, errs, needed)
  }

  /** Every child's first valid message before the end is an answer. */
  ghost predicate AllAnswer<A(!new), B(!new), T(!new)>(
    s: Scheme<A, B, T>, inbox: seq<Message<A>>, slots: set<nat>)
  {
    forall k :: k in slots ==> exists j :: 0 <= j < |inbox| && AnswersInTime(s, inbox, j, k)
  }

  ghost predicate AnswersInTime<A(!new), B(!new), T(!new)>(
    s: Scheme<A, B, T>, inbox: seq<Message<A>>, j: nat, k: nat)
    requires j < |inbox|
  {
    && FirstToSettle(s, inbox, j, k) && inbox[j].Answer?
    && forall i :: 0 <= i < j ==> inbox[i].Answer? || inbox[i].Refusal?
  }

  /** What every message keeps: one slot per child, holding the child's first valid message. */
  ghost predicate Waiting<A(!new), B(!new), T(!new)>(
    s: Scheme<A, B, T>, responses: Responses<A>, slots: set<nat>, own: nat, willing: bool,
    inbox: seq<Message<A>>, next: nat)
    requires next <= |inbox|
  {
    && Slotted(s, responses, slots, own, willing)
    && forall k :: k in slots ==> KeepsFirst(s, inbox, next, k, responses[k])
  }

  lemma FilledIsSettled<A(!new), B(!new), T(!new)>(
    s: Scheme<A, B, T>, responses: Responses<A>, slots: set<nat>, inbox: seq<Message<A>>, n: nat)
    requires n <= |inbox| && slots <= responses.Keys
    requires forall k :: k in slots ==> KeepsFirst(s, inbox, n, k, responses[k])
    ensures Filled(responses, slots) == SettledBy(s, inbox, n, slots)
  {
    forall k | k in slots ensures k in Filled(responses, slots) <==> k in SettledBy(s, inbox, n, slots) {
      assert KeepsFirst(s, inbox, n, k, responses[k]);
    }
  }

  /** What Store does, as its contract says it. */
  ghost predicate StoredOne<A(!new), B(!new), T(!new)>(
    s: Scheme<A, B, T>, responses: Responses<A>, m: Message<A>, updated: Responses<A>, counted: bool)
  {
    && (counted <==> exists k :: k in responses && responses[k].None? && Settles(s, m, k))
    && (!counted ==> updated == responses)
    && forall k: nat :: k in responses && responses[k].None? && Settles(s, m, k) ==>
        updated == responses[k := Some(Content(m))]
  }

  /** Storing the next message keeps the first valid message of every child. */
  lemma StoreKeeps<A(!new), B(!new), T(!new)>(
    s: Scheme<A, B, T>, responses: Responses<A>, slots: set<nat>, own: nat, willing: bool,
    inbox: seq<Message<A>>, next: nat, updated: Responses<A>, counted: bool)
    requires next < |inbox| && Waiting(s, responses, slots, own, willing, inbox, next)
    requires StoredOne(s, responses, inbox[next], updated, counted)
    ensures Waiting(s, updated, slots, own, willing, inbox, next + 1)
    ensures |Filled(updated, slots)| == |Filled(responses, slots)| + if counted then 1 else 0
  {
    var m := inbox[next];
    if counted {
      var k: nat :| k in responses && responses[k].None? && Settles(s, m, k);
      assert k in slots;
      FillOne(responses, slots, k, Content(m));
    }
    forall k | k in slots ensures KeepsFirst(s, inbox, next + 1, k, updated[k]) {
      KeepOne(s, inbox, next, k, responses[k]);
    }
  }

  lemma KeepOne<A(!new), B(!new), T(!new)>(
    s: Scheme<A, B, T>, inbox: seq<Message<A>>, next: nat, k: nat, kept: Option<Response<A>>)
    requires next < |inbox| && KeepsFirst(s, inbox, next, k, kept)
    ensures KeepsFirst(s, inbox, next + 1, k,
                       if kept.None? && Settles(s, inbox[next], k) then Some(Content(inbox[next])) else kept)
  {
    if kept.None? && Settles(s, inbox[next], k) {
      assert FirstToSettle(s, inbox, next, k);
    }
  }

  /** Stored answers carry own bits if the senders are honest. */
  lemma KeptOwnBits<A(!new), B(!new), T(!new)>(
    s: Scheme<A, B, T>, responses: Responses<A>, slots: set<nat>, own: nat, willing: bool,
    inbox: seq<Message<A>>, n: nat)
    requires n <= |inbox| && Waiting(s, responses, slots, own, willing, inbox, n) && HonestMasks(inbox)
    ensures OwnBits(responses)
  {
    forall k: nat | Signed(responses, k) ensures responses[k].value.mask == {k} {
      if k in slots {
        var j :| 0 <= j < n && FirstToSettle(s, inbox, j, k) && responses[k].value == Content(inbox[j]);
        assert HonestMask(inbox[j]);
      }
    }
  }

  /** If every child answers in time, the wait neither stops nor times out and everyone has signed. */
  lemma EveryoneInTime<A(!new), B(!new), T(!new)>(
    s: Scheme<A, B, T>, responses: Responses<A>, slots: set<nat>, own: nat, willing: bool,
    inbox: seq<Message<A>>, heard: nat)
    requires heard <= |inbox| && Waiting(s, responses, slots, own, willing, inbox, heard) && AllAnswer(s, inbox, slots)
    requires forall j :: 0 <= j < heard ==> inbox[j].Answer? || inbox[j].Refusal?
    requires SettledBy(s, inbox, heard, slots) != slots ==>
      heard == |inbox| || inbox[heard].TimeUp? || inbox[heard].Stop?
    ensures SettledBy(s, inbox, heard, slots) == slots
    ensures forall k :: k in slots ==> Signed(responses, k)
  {
    forall k | k in slots ensures Signed(responses, k) && k in SettledBy(s, inbox, heard, slots) {
      var j :| 0 <= j < |inbox| && AnswersInTime(s, inbox, j, k);
      if SettledBy(s, inbox, heard, slots) != slots {
        assert j < heard;
      }
      assert KeepsFirst(s, inbox, heard, k, responses[k]) && responses[k].Some?;
      var i :| 0 <= i < heard && FirstToSettle(s, inbox, i, k) && responses[k].value == Content(inbox[i]);
      assert i == j;
    }
  }

  /**
   * The sub-leader's wait. `children` are the roster positions of its leaves,
   * `willing` tells whether it signs itself, `errs` how many announcements could
   * not be sent. Messages arrive in any order; when `inbox` is used up, the timeout
   * is what happens next. `stopped` means the subprotocol was told to stop. The wait
   * takes in `heard` messages: it ends as soon as enough children are settled, or with
   * the first message that ends it, and every child keeps its first valid message.
   */
  method DispatchSubLeader<A(!new), B(!new), T(==,!new)>(
    s: Scheme<A, B, T>, children: seq<Option<nat>>, own: nat, willing: bool, errs: nat, inbox: seq<Message<A>>)
    returns (responses: Responses<A>, timedOut: bool, stopped: bool, ghost heard: nat)
    requires s.p.Laws() && s.Faithful() && own !in Slots(children)
    ensures Slotted(s, responses, Slots(children), own, willing)
    ensures HonestMasks(inbox) ==> OwnBits(responses)
    ensures heard <= |inbox| && Listened(s, inbox, heard, Slots(children), errs, |children|)
    ensures forall k :: k in Slots(children) ==> KeepsFirst(s, inbox, heard, k, responses[k])
    ensures timedOut || stopped <==> StillWaits(s, inbox, heard, Slots(children), errs, |children|)
    ensures timedOut ==> heard == |inbox| || inbox[heard].TimeUp?
    ensures stopped ==> heard < |inbox| && inbox[heard].Stop?
    ensures errs == 0 && |Slots(children)| == |children| && AllAnswer(s, inbox, Slots(children)) ==>
      !timedOut && !stopped && forall k :: k in Slots(children) ==> Signed(responses, k)
  {
    timedOut, stopped, heard := false, false, 0;
    ghost var slots := Slots(children);
    responses := OwnAnswer(s, children, own, willing);
    NoneFilled(responses, slots);
    var done, next := errs, 0;
    ghost var settled: nat := errs;
    while done < |children|
      invariant 0 <= next <= |inbox| && heard == next
      invariant InWait(s, responses, slots, own, willing, inbox, next, errs, |children|, settled)
      invariant if timedOut then settled < |children| && (next == |inbox| || inbox[next].TimeUp?) else done == settled
      decreases |inbox| - next, |children| - done
    {
      if next == |inbox| || inbox[next].TimeUp? {
        timedOut, done := true, |children|;
      } else if inbox[next].Stop? {
        stopped := true;
        break;
      } else {
        var before, counted := responses, false;
        responses, counted := Store(s, responses, inbox[next]);
        InWaitStep(s, before, slots, own, willing, inbox, next, errs, |children|, settled, responses, counted);
        done := done + if counted then 1 else 0;
        next, heard, settled := next + 1, heard + 1, settled + if counted then 1 else 0;
      }
    }
    WaitOver(s, responses, slots, own, willing, inbox, heard, errs, |children|, settled);
  }

  /** What the end of the wait means. */
  lemma WaitOver<A(!new), B(!new), T(!new)>(
    s: Scheme<A, B, T>, responses: Responses<A>, slots: set<nat>, own: nat, willing: bool,
    inbox: seq<Message<A>>, heard: nat, errs: nat, needed: nat, settled: nat)
    requires heard <= |inbox|
    requires InWait(s, responses, slots, own, willing, inbox, heard, errs, needed, settled)
    requires settled < needed ==> heard == |inbox| || inbox[heard].TimeUp? || inbox[heard].Stop?
    ensures settled < needed <==> StillWaits(s, inbox, heard, slots, errs, needed)
    ensures HonestMasks(inbox) ==> OwnBits(responses)
    ensures errs == 0 && |slots| == needed && AllAnswer(s, inbox, slots) ==>
      settled >= needed && forall k :: k in slots ==> Signed(responses, k)
  {
    FilledIsSettled(s, responses, slots, inbox, heard);
    if HonestMasks(inbox) {
      KeptOwnBits(s, responses, slots, own, willing, inbox, heard);
    }
    if errs == 0 && |slots| == needed && AllAnswer(s, inbox, slots) {
      SubsetSize(SettledBy(s, inbox, heard, slots), slots);
      EveryoneInTime(s, responses, slots, own, willing, inbox, heard);
    }
  }

  /** What the loop keeps: `settled` counts the failed announcements and the settled children. */
  ghost predicate InWait<A(!new), B(!new), T(!new)>(
    s: Scheme<A, B, T>, responses: Responses<A>, slots: set<nat>, own: nat, willing: bool,
    inbox: seq<Message<A>>, next: nat, errs: nat, needed: nat, settled: nat)
    requires next <= |inbox|
  {
    && Waiting(s, responses, slots, own, willing, inbox, next)
    && Listened(s, inbox, next, slots, errs, needed)
    && settled == errs + |Filled(responses, slots)|
  }

  lemma InWaitStep<A(!new), B(!new), T(!new)>(
    s: Scheme<A, B, T>, responses: Responses<A>, slots: set<nat>, own: nat, willing: bool,
    inbox: seq<Message<A>>, next: nat, errs: nat, needed: nat, settled: nat, updated: Responses<A>, counted: bool)
    requires next < |inbox| && (inbox[next].Answer? || inbox[next].Refusal?)
    requires InWait(s, responses, slots, own, willing, inbox, next, errs, needed, settled) && settled < needed
    requires StoredOne(s, responses, inbox[next], updated, counted)
    ensures InWait(s, updated, slots, own, willing, inbox, next + 1, errs, needed, settled + if counted then 1 else 0)
  {
    FilledIsSettled(s, responses, slots, inbox, next);
    StoreKeeps(s, responses, slots, own, willing, inbox, next, updated, counted);
    ListenedStep(s, inbox, next, slots, errs, needed);
  }

  lemma ListenedStep<A(!new), B(!new), T(!new)>(
    s: Scheme<A, B, T>, inbox: seq<Message<A>>, next: nat, slots: set<nat>, errs: nat, needed: nat)
    requires next < |inbox| && (inbox[next].Answer? || inbox[next].Refusal?)
    requires Listened(s, inbox, next, slots, errs, needed) && StillWaits(s, inbox, next, slots, errs, needed)
    ensures Listened(s, inbox, next + 1, slots, errs, needed)
  {
  }

  lemma NoneFilled<A>(responses: Responses<A>, slots: set<nat>)
    requires forall k :: k in slots && k in responses ==> responses[k].None?
    ensures Filled(responses, slots) == {}
  {
  }

  lemma FillOne<A>(responses: Responses<A>, slots: set<nat>, k: nat, response: Response<A>)
    requires k in responses && responses[k].None? && k in slots
    ensures |Filled(responses[k := Some(response)], slots)| == |Filled(responses, slots)| + 1
  {
    assert Filled(responses[k := Some(response)], slots) == Filled(responses, slots) + {k};
  }
}
