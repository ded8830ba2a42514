/** The life of a service agreement: active, expired, pending, active again. */
module LedgerAgreements {
  import opened Tables
  import opened Ledger
  import opened LedgerFifo

  predicate Active(a: Agreement) { a.published && a.txIssued }
  predicate Expired(a: Agreement) { !a.published && !a.txIssued }
  predicate Pending(a: Agreement) { !a.published && a.txIssued }

  predicate IsDeal(tx: FirstTx, id: int) {
    (tx.kind.Propose? || tx.kind.Commit?) && tx.agr == id
  }

  /** The propose and commit transactions for agreement `id`, in queue order. */
  function Deals(txs: seq<FirstTx>, id: int): seq<Kind> {
    if txs == [] then [] else
      Deals(txs[..|txs| - 1], id) + (if IsDeal(txs[|txs| - 1], id) then [txs[|txs| - 1].kind] else [])
  }

  /** Pending agreements, and only those, have transactions under way: the commit,
      preceded by the propose unless that has been taken already; `open` is the number
      of expiries not answered by a commit. */
  predicate Life(a: Agreement, deals: seq<Kind>, open: int) {
    || (Active(a) && deals == [] && open == 0)
    || (Expired(a) && deals == [] && open == 1)
    || (Pending(a) && (deals == [Commit] || deals == [Propose, Commit]) && open == 1)
  }

  ghost predicate LifeOk(s: State, i: nat)
    requires i < |s.agreements| && |s.history.expired| == |s.history.committed| == |s.agreements|
  {
    Life(s.agreements[i], Deals(Values(s.firstQueue), i + 1), s.history.expired[i] - s.history.committed[i])
  }

  ghost predicate LivesOk(s: State) {
    && |s.history.expired| == |s.history.committed| == |s.agreements|
    && forall i :: 0 <= i < |s.agreements| ==> LifeOk(s, i)
  }

  lemma {:induction false} DealsAppend(a: seq<FirstTx>, b: seq<FirstTx>, id: int)
    ensures Deals(a + b, id) == Deals(a, id) + Deals(b, id)
    decreases |b|
  {
    if b == [] {
      assert a + b == a;
    } else {
      assert (a + b)[..|a + b| - 1] == a + b[..|b| - 1];
      DealsAppend(a, b[..|b| - 1], id);
    }
  }

  lemma {:induction false} NoDeals(txs: seq<FirstTx>, id: int)
    requires forall k :: 0 <= k < |txs| ==> !IsDeal(txs[k], id)
    ensures Deals(txs, id) == []
    decreases |txs|
  {
    if txs != [] { NoDeals(txs[..|txs| - 1], id); }
  }

  lemma DealsOfPair(x: FirstTx, y: FirstTx, id: int)
    ensures Deals([x], id) == if IsDeal(x, id) then [x.kind] else []
    ensures Deals([x, y], id) == Deals([x], id) + Deals([y], id)
  {
    assert [x][..0] == [];
    assert [x, y] == [x] + [y];
    DealsAppend([x], [y], id);
  }

  /** The deals issued for an agreement when it is found to need some. */
  function DealsOf(a: Agreement): seq<Kind> {
    if Issues(a) then [Propose, Commit] else []
  }

  /** Row k issues transactions for agreement k + 1 only. */
  lemma OwnDeals(cfg: Config, round: int, k: nat, a: Agreement, id: int)
    ensures Deals(FirstTxsOf(cfg, round, k, a), id) == if id == k + 1 then DealsOf(a) else []
  {
    var own := FirstTxsOf(cfg, round, k, a);
    if id == k + 1 && Issues(a) {
      DealsOfPair(own[0], own[1], id);
      DealsOfPair(own[1], own[0], id);
    } else {
      NoDeals(own, id);
    }
  }

  lemma CollectedDealsStep(cfg: Config, round: int, agreements: seq<Agreement>, n: nat, id: int)
    requires 1 <= n <= |agreements|
    ensures Deals(AllFirstTxs(cfg, round, agreements, n), id) ==
            Deals(AllFirstTxs(cfg, round, agreements, n - 1), id) +
            (if id == n then DealsOf(agreements[n - 1]) else [])
  {
    OwnDeals(cfg, round, n - 1, agreements[n - 1], id);
    DealsAppend(AllFirstTxs(cfg, round, agreements, n - 1), FirstTxsOf(cfg, round, n - 1, agreements[n - 1]), id);
  }

  /** The deals issued for agreement `id` by the first `n` rows. */
  function IssuedDeals(agreements: seq<Agreement>, n: nat, id: int): seq<Kind>
    requires n <= |agreements|
  {
    if n == 0 then []
    else IssuedDeals(agreements, n - 1, id) + (if id == n then DealsOf(agreements[n - 1]) else [])
  }

  lemma {:induction false} IssuedOnce(agreements: seq<Agreement>, n: nat, i: nat)
    requires n <= |agreements| && i < |agreements|
    ensures IssuedDeals(agreements, n, i + 1) == if i < n then DealsOf(agreements[i]) else []
  {
    if n > 0 {
      IssuedOnce(agreements, n - 1, i);
    }
  }

  lemma {:induction false} CollectedDeals(cfg: Config, round: int, agreements: seq<Agreement>, n: nat, id: int)
    requires n <= |agreements|
    ensures Deals(AllFirstTxs(cfg, round, agreements, n), id) == IssuedDeals(agreements, n, id)
  {
    if n == 0 {
      NoDeals(AllFirstTxs(cfg, round, agreements, n), id);
    } else {
      CollectedDeals(cfg, round, agreements, n - 1, id);
      CollectedDealsStep(cfg, round, agreements, n, id);
      IssuedStep(agreements, n, id);
    }
  }

  lemma IssuedStep(agreements: seq<Agreement>, n: nat, id: int)
    requires 1 <= n <= |agreements|
    ensures IssuedDeals(agreements, n, id)
         == IssuedDeals(agreements, n - 1, id) + (if id == n then DealsOf(agreements[n - 1]) else [])
  {
  }

  lemma {:induction false} StoragePaymentDeals(cfg: Config, round: int, n: nat, id: int)
    ensures Deals(HostPayments(cfg, round, n), id) == []
  {
    if n > 0 {
      StoragePaymentDeals(cfg, round, n - 1, id);
      var own := seq(cfg.contractsPerServer, _ => FirstTx(StoragePayment, cfg.storagePaySize, round, n));
      NoDeals(own, id);
      DealsAppend(HostPayments(cfg, round, n - 1), own, id);
    }
  }

  predicate ShortDeals(d: seq<Kind>) {
    d == [] || d == [Commit] || d == [Propose, Commit]
  }

  /** Number of commits in a list of deals. */
  function Commits(d: seq<Kind>): nat {
    if d == [] then 0 else Commits(d[..|d| - 1]) + (if d[|d| - 1].Commit? then 1 else 0)
  }

  lemma CommitsStep(d: seq<Kind>, kind: Kind)
    ensures Commits(d + [kind]) == Commits(d) + if kind.Commit? then 1 else 0
  {
    assert (d + [kind])[..|d|] == d;
  }

  lemma {:induction false} CommitsAreDeals(txs: seq<FirstTx>, id: int)
    ensures CommitsOf(txs, id) == Commits(Deals(txs, id))
    decreases |txs|
  {
    if txs == [] {
      assert Deals(txs, id) == [] && Commits([]) == 0;
    } else {
      var past, last := txs[..|txs| - 1], txs[|txs| - 1];
      CommitsAreDeals(past, id);
      if IsDeal(last, id) {
        CommitsStep(Deals(past, id), last.kind);
      } else {
        assert Deals(txs, id) == Deals(past, id);
      }
    }
  }

  lemma CommitsOfShort()
    ensures Commits([]) == 0 && Commits([Propose]) == 0 && Commits([Commit]) == 1 && Commits([Propose, Commit]) == 1
  {
    assert [Propose, Commit][..1] == [Propose] && [Propose][..0] == [] && [Commit][..0] == [];
  }

  lemma SplitShort(d1: seq<Kind>, d2: seq<Kind>)
    requires ShortDeals(d1 + d2)
    ensures ShortDeals(d2) && (d1 + d2 == [] ==> d2 == [])
    ensures Commits(d1) == (if d1 + d2 != [] && d2 == [] then 1 else 0)
  {
    CommitsOfShort();
    var d := d1 + d2;
    assert d1 == d[..|d1|] && d2 == d[|d1|..];
    assert d1 == [] || d1 == [Propose] || d1 == [Commit] || d1 == [Propose, Commit];
  }

  /** Taking a prefix of the queue splits an agreement's deals. */
  lemma SplitDeals(txs: seq<FirstTx>, rest: seq<FirstTx>, id: int)
    requires ShortDeals(Deals(txs + rest, id))
    ensures var d := Deals(txs + rest, id);
      && ShortDeals(Deals(rest, id))
      && CommitsOf(txs, id) == (if d != [] && Deals(rest, id) == [] then 1 else 0)
      && (d == [] ==> Deals(rest, id) == [])
  {
    DealsAppend(txs, rest, id);
    CommitsAreDeals(txs, id);
    SplitShort(Deals(txs, id), Deals(rest, id));
  }

  /** Collecting, seen from one agreement: its transactions. */
  lemma CollectQueues(cfg: Config, s: State, pay: nat, i: nat)
    requires cfg.Valid() && Fifo(s) && i < |s.agreements|
    ensures Deals(Values(Collect(cfg, s, pay).firstQueue), i + 1) ==
            Deals(Values(s.firstQueue), i + 1) + DealsOf(s.agreements[i])
  {
    CollectInserts(cfg, s, pay);
    InsertedDeals(cfg, s.mcRound, s.agreements, s.firstQueue, i);
  }

  lemma InsertedDeals(cfg: Config, round: int, agreements: seq<Agreement>, queue: seq<Row<FirstTx>>, i: nat)
    requires i < |agreements| && Ordered(queue)
    ensures Deals(Values(InsertAll(queue, AllFirstTxs(cfg, round, agreements, |agreements|))), i + 1)
         == Deals(Values(queue), i + 1) + DealsOf(agreements[i])
  {
    var first := AllFirstTxs(cfg, round, agreements, |agreements|);
    InsertAllKeeps(queue, first);
    DealsAppend(Values(queue), first, i + 1);
    CollectedDeals(cfg, round, agreements, |agreements|, i + 1);
    IssuedOnce(agreements, |agreements|, i);
  }

  lemma CollectInserts(cfg: Config, s: State, pay: nat)
    requires cfg.Valid()
    ensures Collect(cfg, s, pay).firstQueue
         == InsertAll(s.firstQueue, AllFirstTxs(cfg, s.mcRound, s.agreements, |s.agreements|))
  {
  }

  /** Collecting, seen from one agreement: its flags and its count of expiries. */
  lemma CollectEffect(cfg: Config, s: State, pay: nat, i: nat)
    requires cfg.Valid() && i < |s.agreements|
    requires |s.history.expired| == |s.history.committed| == |s.agreements|
    ensures var s' := Collect(cfg, s, pay); var a := s.agreements[i];
      && s'.agreements[i] == Collected(s.mcRound, a)
      && s'.history.expired[i] == s.history.expired[i] + (if !Issues(a) && Expires(s.mcRound, a) then 1 else 0)
  {
  }

  lemma CollectedLife(round: int, a: Agreement, deals: seq<Kind>, open: int)
    requires Life(a, deals, open)
    ensures Life(Collected(round, a), deals + DealsOf(a),
                 open + (if !Issues(a) && Expires(round, a) then 1 else 0))
  {
  }

  lemma CollectLife(cfg: Config, s: State, pay: nat, i: nat)
    requires cfg.Valid() && Fifo(s) && i < |s.agreements|
    requires |s.history.expired| == |s.history.committed| == |s.agreements| && LifeOk(s, i)
    ensures LifeOk(Collect(cfg, s, pay), i)
  {
    CollectQueues(cfg, s, pay, i);
    CollectEffect(cfg, s, pay, i);
    CollectedLife(s.mcRound, s.agreements[i], Deals(Values(s.firstQueue), i + 1),
                  s.history.expired[i] - s.history.committed[i]);
  }

  /** Filling a block, seen from one agreement. */
  lemma TakeEffect(cfg: Config, s: State, i: nat)
    requires i < |s.agreements| && |s.history.expired| == |s.history.committed| == |s.agreements|
    ensures var s' := Take(cfg, s); var a := s.agreements[i];
      var taken := Pack(cfg, s).txs; var rest := Values(s'.firstQueue);
      && Values(s.firstQueue) == taken + rest
      && s'.agreements[i] == (if CommitsOf(taken, i + 1) > 0 then a.(published := true, started := s.mcRound) else a)
      && s'.history.expired == s.history.expired
      && s'.history.committed[i] == s.history.committed[i] + CommitsOf(taken, i + 1)
  {
    PackTakesPrefixes(cfg, s);
    ValuesSplit(s.firstQueue, |Pack(cfg, s).txs|);
  }

  lemma TakeLife(cfg: Config, s: State, i: nat)
    requires i < |s.agreements|
    requires |s.history.expired| == |s.history.committed| == |s.agreements| && LifeOk(s, i)
    ensures LifeOk(Take(cfg, s), i)
  {
    TakeEffect(cfg, s, i);
    SplitDeals(Pack(cfg, s).txs, Values(Take(cfg, s).firstQueue), i + 1);
  }

  /** Storage payments are no deals. */
  lemma StoragePaymentsDeals(cfg: Config, s: State, i: nat)
    requires Fifo(s)
    ensures Deals(Values(StoragePayments(cfg, s).firstQueue), i + 1) == Deals(Values(s.firstQueue), i + 1)
  {
    var txs := HostPayments(cfg, s.mcRound, cfg.hosts);
    InsertAllKeeps(s.firstQueue, txs);
    DealsAppend(Values(s.firstQueue), txs, i + 1);
    StoragePaymentDeals(cfg, s.mcRound, cfg.hosts, i + 1);
  }

  lemma MainRoundLives(cfg: Config, s: State, led: bool, pay: nat)
    requires cfg.Valid() && Fifo(s) && LivesOk(s)
    ensures LivesOk(McRound(cfg, s, led, pay))
  {
    var s0 := InsertRound(s);
    var s1 := Collect(cfg, s0, pay);
    forall i | 0 <= i < |s.agreements| ensures LifeOk(McRound(cfg, s, led, pay), i) {
      assert LifeOk(s, i) && LifeOk(s0, i);
      CollectLife(cfg, s0, pay, i);
      TakeLife(cfg, s1, i);
    }
  }

  lemma SideRoundLives(cfg: Config, s: State, overhead: int, syncSize: nat)
    requires cfg.Valid() && Fifo(s) && LivesOk(s)
    ensures LivesOk(ScRound(cfg, s, overhead, syncSize))
  {
    ScRoundElsewhere(cfg, s, overhead, syncSize);
    var t := ScRound(cfg, s, overhead, syncSize);
    forall i | 0 <= i < |t.agreements| ensures LifeOk(t, i) {
      assert LifeOk(s, i);
      StoragePaymentsDeals(cfg, s, i);
    }
  }

  /** The invariant holds in every run. */
  lemma {:induction false} LivesInEveryRun(cfg: Config, durations: seq<int>, events: seq<Event>)
    requires cfg.Valid()
    ensures LivesOk(Exec(cfg, Init(durations), events))
    decreases |events|
  {
    if events != [] {
      var before := events[..|events| - 1];
      LivesInEveryRun(cfg, durations, before);
      FifoInEveryRun(cfg, durations, before);
      var s := Exec(cfg, Init(durations), before);
      match events[|events| - 1]
      case MainRound(led, pay) => MainRoundLives(cfg, s, led, pay);
      case SideRound(overhead, syncSize) => SideRoundLives(cfg, s, overhead, syncSize);
    }
  }

  lemma DealsAt(txs: seq<FirstTx>, id: int, k: nat)
    requires k < |txs| && IsDeal(txs[k], id)
    ensures Deals(txs, id) == Deals(txs[..k], id) + [txs[k].kind] + Deals(txs[k + 1..], id)
  {
    assert txs == txs[..k] + ([txs[k]] + txs[k + 1..]);
    DealsAppend(txs[..k], [txs[k]] + txs[k + 1..], id);
    DealsAppend([txs[k]], txs[k + 1..], id);
    DealsOfPair(txs[k], txs[k], id);
  }

  /** Two deals of a list keep their order. */
  lemma DealsInOrder(txs: seq<FirstTx>, id: int, c: nat, p: nat) returns (i: nat, j: nat)
    requires c < p < |txs| && IsDeal(txs[c], id) && IsDeal(txs[p], id)
    ensures i < j < |Deals(txs, id)|
    ensures Deals(txs, id)[i] == txs[c].kind && Deals(txs, id)[j] == txs[p].kind
  {
    var rest := txs[c + 1..];
    assert rest[p - c - 1] == txs[p];
    DealsAt(txs, id, c);
    DealsAt(rest, id, p - c - 1);
    i := |Deals(txs[..c], id)|;
    j := i + 1 + |Deals(rest[..p - c - 1], id)|;
  }

  /** No propose stands behind a commit in a list with short deals. */
  lemma ProposeNotBehind(txs: seq<FirstTx>, id: int, c: nat, p: nat)
    requires ShortDeals(Deals(txs, id))
    requires c < p < |txs| && txs[c].kind.Commit? && txs[c].agr == id
    ensures !(txs[p].kind.Propose? && txs[p].agr == id)
  {
    if IsDeal(txs[p], id) {
      var i, j := DealsInOrder(txs, id, c, p);
    }
  }

  /** The life of agreement i + 1 in terms of the queue's own rows. */
  ghost predicate Lifecycle(s: State, i: nat)
    requires i < |s.agreements|
  {
    var a, q := s.agreements[i], Values(s.firstQueue);
    && (Active(a) || Expired(a) || Pending(a))
    && CommitsOf(q, i + 1) == (if Pending(a) then 1 else 0)
    && (forall c, p | 0 <= c < p < |q| && q[c].kind.Commit? && q[c].agr == i + 1 ::
          !(q[p].kind.Propose? && q[p].agr == i + 1))
    && |s.history.expired| == |s.history.committed| == |s.agreements|
    && s.history.expired[i] - s.history.committed[i] == (if Active(a) then 0 else 1)
  }

  lemma LifeIsLifecycle(s: State, i: nat)
    requires i < |s.agreements| && |s.history.expired| == |s.history.committed| == |s.agreements| && LifeOk(s, i)
    ensures Lifecycle(s, i)
  {
    var q := Values(s.firstQueue);
    assert q + [] == q;
    SplitDeals(q, [], i + 1);
    forall c, p | 0 <= c < p < |q| && q[c].kind.Commit? && q[c].agr == i + 1
      ensures !(q[p].kind.Propose? && q[p].agr == i + 1)
    {
      ProposeNotBehind(q, i + 1, c, p);
    }
  }

  /** In every run an agreement is active, expired or pending (never published with
      nothing issued); the first queue holds exactly one commit for it when it is
      pending and none otherwise, with no propose behind it; and expiries exceed taken
      commits by one exactly when it is not active. */
  lemma AgreementLifecycle(cfg: Config, durations: seq<int>, events: seq<Event>, i: nat)
    requires cfg.Valid() && i < |Exec(cfg, Init(durations), events).agreements|
    ensures Lifecycle(Exec(cfg, Init(durations), events), i)
  {
    LivesInEveryRun(cfg, durations, events);
    LifeIsLifecycle(Exec(cfg, Init(durations), events), i);
  }
}
