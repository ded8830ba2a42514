/**
The wait accounting: over all completed rounds, the recorded queue waits plus the
ages of what is still queued equal the sum of the queue lengths at the round ends.
*/
module LedgerWaits {
  import opened Tables
  import opened Ledger
  import opened LedgerFifo

  ghost predicate Accounted(s: State) {
    && s.history.firstWaits + FirstWaits(s.mcRound, Values(s.firstQueue)) == s.history.firstLengths
    && s.history.secondWaits + PayWaits(s.mcRound, Values(s.secondQueue)) == s.history.secondLengths
  }

  lemma {:induction false} WaitsAppend<T>(round: int, a: seq<T>, b: seq<T>, issued: T -> int)
    ensures Waits(round, a + b, issued) == Waits(round, a, issued) + Waits(round, b, issued)
    decreases |b|
  {
    if b == [] {
      assert a + b == a;
    } else {
      assert (a + b)[..|a + b| - 1] == a + b[..|b| - 1];
      WaitsAppend(round, a, b[..|b| - 1], issued);
    }
  }

  /** Everything queued gets one round older. */
  lemma {:induction false} Ageing<T>(round: int, txs: seq<T>, issued: T -> int)
    ensures Waits(round + 1, txs, issued) == Waits(round, txs, issued) + |txs|
    decreases |txs|
  {
    if txs == [] {
    } else {
      Ageing(round, txs[..|txs| - 1], issued);
    }
  }

  ghost predicate IssuedAt<T>(round: int, txs: seq<T>, issued: T -> int) {
    forall i :: 0 <= i < |txs| ==> issued(txs[i]) == round
  }

  lemma {:induction false} Fresh<T>(round: int, txs: seq<T>, issued: T -> int)
    requires IssuedAt(round, txs, issued)
    ensures Waits(round, txs, issued) == 0
    decreases |txs|
  {
    if txs == [] {
    } else {
      Fresh(round, txs[..|txs| - 1], issued);
    }
  }

  lemma {:induction false} CollectedNow(cfg: Config, round: int, agreements: seq<Agreement>, n: nat)
    requires n <= |agreements|
    ensures IssuedAt(round, AllFirstTxs(cfg, round, agreements, n), FirstIssued)
  {
    if n > 0 { CollectedNow(cfg, round, agreements, n - 1); }
  }

  lemma {:induction false} StoragePaidNow(cfg: Config, round: int, n: nat)
    ensures IssuedAt(round, HostPayments(cfg, round, n), FirstIssued)
  {
    if n > 0 { StoragePaidNow(cfg, round, n - 1); }
  }

  lemma CollectAccounted(cfg: Config, s: State, pay: nat)
    requires cfg.Valid() && Fifo(s) && Accounted(s)
    ensures Accounted(Collect(cfg, s, pay))
  {
    var first := AllFirstTxs(cfg, s.mcRound, s.agreements, |s.agreements|);
    var pays := Payments(cfg, s.mcRound, pay);
    InsertAllKeeps(s.firstQueue, first);
    InsertAllKeeps(s.secondQueue, pays);
    WaitsAppend(s.mcRound, Values(s.firstQueue), first, FirstIssued);
    WaitsAppend(s.mcRound, Values(s.secondQueue), pays, PayIssued);
    CollectedNow(cfg, s.mcRound, s.agreements, |s.agreements|);
    Fresh(s.mcRound, first, FirstIssued);
    Fresh(s.mcRound, pays, PayIssued);
  }

  lemma TakeAccounted(cfg: Config, s: State)
    requires Accounted(s)
    ensures Accounted(Take(cfg, s))
  {
    var p := Pack(cfg, s);
    PackTakesPrefixes(cfg, s);
    ValuesSplit(s.firstQueue, |p.txs|);
    ValuesSplit(s.secondQueue, |p.pays|);
    WaitsAppend(s.mcRound, p.txs, Values(s.firstQueue[|p.txs|..]), FirstIssued);
    WaitsAppend(s.mcRound, p.pays, Values(s.secondQueue[|p.pays|..]), PayIssued);
  }

  lemma AdvanceAccounted(s: State)
    requires Accounted(s)
    ensures Accounted(AdvanceRound(s))
  {
    Ageing(s.mcRound, Values(s.firstQueue), FirstIssued);
    Ageing(s.mcRound, Values(s.secondQueue), PayIssued);
  }

  /** Storage payments are issued in the round in which they are queued. */
  lemma StoragePaymentsWait(cfg: Config, s: State)
    requires Fifo(s)
    ensures FirstWaits(s.mcRound, Values(StoragePayments(cfg, s).firstQueue))
         == FirstWaits(s.mcRound, Values(s.firstQueue))
  {
    var txs := HostPayments(cfg, s.mcRound, cfg.hosts);
    InsertAllKeeps(s.firstQueue, txs);
    WaitsAppend(s.mcRound, Values(s.firstQueue), txs, FirstIssued);
    StoragePaidNow(cfg, s.mcRound, cfg.hosts);
    Fresh(s.mcRound, txs, FirstIssued);
  }

  lemma MainRoundAccounted(cfg: Config, s: State, led: bool, pay: nat)
    requires cfg.Valid() && Fifo(s) && Accounted(s)
    ensures Accounted(McRound(cfg, s, led, pay))
  {
    var s1 := Collect(cfg, InsertRound(s), pay);
    CollectAccounted(cfg, InsertRound(s), pay);
    TakeAccounted(cfg, s1);
    AdvanceAccounted(if led then Take(cfg, s1) else s1);
  }

  lemma NextAccounted(cfg: Config, s: State, e: Event)
    requires cfg.Valid() && Fifo(s) && Accounted(s)
    ensures Accounted(Next(cfg, s, e))
  {
    match e
    case MainRound(led, pay) => MainRoundAccounted(cfg, s, led, pay);
    case SideRound(overhead, syncSize) =>
      ScRoundElsewhere(cfg, s, overhead, syncSize);
      StoragePaymentsWait(cfg, s);
  }

  /** In every run, leaderless rounds included. */
  lemma {:induction false} WaitsAddUp(cfg: Config, durations: seq<int>, events: seq<Event>)
    requires cfg.Valid()
    ensures Accounted(Exec(cfg, Init(durations), events))
    decreases |events|
  {
    if events != [] {
      var s := Exec(cfg, Init(durations), events[..|events| - 1]);
      WaitsAddUp(cfg, durations, events[..|events| - 1]);
      FifoInEveryRun(cfg, durations, events[..|events| - 1]);
      NextAccounted(cfg, s, events[|events| - 1]);
    }
  }
}
