/**
Proofs of retrievability are conserved across the two chains: every proof that
entered a meta block is in the running summary, in a waiting sync transaction, or in
a main-chain block.
*/
module LedgerPors {
  import opened Tables
  import opened Ledger
  import opened LedgerFifo

  // ---------------------------------------------------------------- sums over maps

  lemma {:induction false} SumOverRemove<K>(m: map<K, int>, keys: set<K>, k: K)
    requires k in keys && keys <= m.Keys
    ensures SumOver(m, keys) == m[k] + SumOver(m, keys - {k})
  {
    var x :| x in keys && SumOver(m, keys) == m[x] + SumOver(m, keys - {x});
    if x != k {
      SumOverRemove(m, keys - {x}, k);
      SumOverRemove(m, keys - {k}, x);
      assert keys - {x} - {k} == keys - {k} - {x};
    }
  }

  lemma {:induction false} SumOverAgree<K>(m: map<K, int>, n: map<K, int>, keys: set<K>)
    requires keys <= m.Keys && keys <= n.Keys
    requires forall k :: k in keys ==> m[k] == n[k]
    ensures SumOver(m, keys) == SumOver(n, keys)
  {
    if keys != {} {
      var k :| k in keys && SumOver(m, keys) == m[k] + SumOver(m, keys - {k});
      SumOverAgree(m, n, keys - {k});
      SumOverRemove(n, keys, k);
    }
  }

  lemma {:induction false} SumOverZero<K>(m: map<K, int>, keys: set<K>)
    requires keys <= m.Keys && forall k :: k in keys ==> m[k] == 0
    ensures SumOver(m, keys) == 0
  {
    if keys != {} {
      var k :| k in keys && SumOver(m, keys) == m[k] + SumOver(m, keys - {k});
      SumOverZero(m, keys - {k});
    }
  }

  lemma TotalUpdate<K>(m: map<K, int>, k: K, v: int)
    ensures Total(m[k := v]) == Total(m) - (if k in m then m[k] else 0) + v
  {
    var n := m[k := v];
    SumOverRemove(n, n.Keys, k);
    SumOverAgree(m, n, m.Keys - {k});
    assert n.Keys - {k} == m.Keys - {k};
    if k in m {
      SumOverRemove(m, m.Keys, k);
    } else {
      assert m.Keys - {k} == m.Keys;
    }
  }

  lemma {:induction false} AddPorsTotal(summary: map<int, int>, txs: seq<PorTx>)
    ensures Total(AddPors(summary, txs)) == Total(summary) + |txs|
    decreases |txs|
  {
    if txs != [] {
      AddPorsTotal(summary, txs[..|txs| - 1]);
      var m := AddPors(summary, txs[..|txs| - 1]);
      var id := txs[|txs| - 1].agr;
      TotalUpdate(m, id, (if id in m then m[id] else 0) + 1);
    }
  }

  // ---------------------------------------------------------------- the invariant

  function ScPors(rounds: seq<RoundRow>): int {
    if rounds == [] then 0 else ScPors(rounds[..|rounds| - 1]) + rounds[|rounds| - 1].scPor
  }

  predicate NoSync(txs: seq<FirstTx>) {
    forall k :: 0 <= k < |txs| ==> !txs[k].kind.Sync?
  }

  /** One row for every round number up to the current one, and nothing written into
      the current one yet. */
  predicate RoundsOk(s: State) {
    && |s.rounds| == s.mcRound + 1 && 1 <= s.mcRound
    && (forall k :: 0 <= k < |s.rounds| ==> s.rounds[k].number == k)
    && s.rounds[s.mcRound].scPor == 0
  }

  ghost predicate Conserved(s: State) {
    && NoSync(Values(s.firstQueue))
    && |s.history.scOut| == Total(s.summary) + SumAgr(Values(s.syncQueue)) + ScPors(s.rounds)
  }

  lemma {:induction false} SumAgrAppend(a: seq<FirstTx>, b: seq<FirstTx>)
    ensures SumAgr(a + b) == SumAgr(a) + SumAgr(b)
    decreases |b|
  {
    if b == [] {
      assert a + b == a;
    } else {
      assert (a + b)[..|a + b| - 1] == a + b[..|b| - 1];
      SumAgrAppend(a, b[..|b| - 1]);
    }
  }

  lemma NoSyncSplit(a: seq<FirstTx>, b: seq<FirstTx>)
    requires NoSync(a + b)
    ensures NoSync(a) && NoSync(b)
  {
    forall k | 0 <= k < |a| ensures !a[k].kind.Sync? { assert (a + b)[k] == a[k]; }
    forall k | 0 <= k < |b| ensures !b[k].kind.Sync? { assert (a + b)[|a| + k] == b[k]; }
  }

  lemma {:induction false} NoSyncPors(txs: seq<FirstTx>)
    requires NoSync(txs)
    ensures SyncPors(txs) == 0
    decreases |txs|
  {
    if txs != [] { NoSyncPors(txs[..|txs| - 1]); }
  }

  /** Writing into the one row with a given number. */
  lemma {:induction false} ScPorsUpdate(rounds: seq<RoundRow>, number: nat, f: RoundRow -> RoundRow)
    requires forall k :: 0 <= k < |rounds| ==> rounds[k].number == k
    ensures ScPors(UpdateRows(rounds, number, f)) ==
            ScPors(rounds) + (if number < |rounds| then f(rounds[number]).scPor - rounds[number].scPor else 0)
    decreases |rounds|
  {
    if rounds != [] {
      var last := |rounds| - 1;
      ScPorsUpdate(rounds[..last], number, f);
      assert UpdateRows(rounds, number, f)[..last] == UpdateRows(rounds[..last], number, f);
    }
  }

  lemma FillRowsScPors(cfg: Config, rounds: seq<RoundRow>, number: nat, p: Packed)
    requires forall k :: 0 <= k < |rounds| ==> rounds[k].number == k
    requires number < |rounds| && rounds[number].scPor == 0
    ensures ScPors(FillRows(cfg, rounds, number, p)) == ScPors(rounds) + SumAgr(p.sync) + SyncPors(p.txs)
  {
    ScPorsUpdate(rounds, number, r => Filled(cfg, p, r));
  }

  lemma {:induction false} CollectedNoSync(cfg: Config, round: int, agreements: seq<Agreement>, n: nat)
    requires n <= |agreements|
    ensures NoSync(AllFirstTxs(cfg, round, agreements, n))
  {
    if n > 0 { CollectedNoSync(cfg, round, agreements, n - 1); }
  }

  lemma {:induction false} StoragePaidNoSync(cfg: Config, round: int, n: nat)
    ensures NoSync(HostPayments(cfg, round, n))
  {
    if n > 0 { StoragePaidNoSync(cfg, round, n - 1); }
  }

  lemma CollectConserved(cfg: Config, s: State, pay: nat)
    requires cfg.Valid() && Fifo(s) && Conserved(s)
    ensures Conserved(Collect(cfg, s, pay))
  {
    var first := AllFirstTxs(cfg, s.mcRound, s.agreements, |s.agreements|);
    InsertAllKeeps(s.firstQueue, first);
    CollectedNoSync(cfg, s.mcRound, s.agreements, |s.agreements|);
  }

  lemma TakeConserved(cfg: Config, s: State)
    requires Conserved(s) && 0 <= s.mcRound < |s.rounds|
    requires forall k :: 0 <= k < |s.rounds| ==> s.rounds[k].number == k
    requires s.rounds[s.mcRound].scPor == 0
    ensures Conserved(Take(cfg, s))
  {
    var p := Pack(cfg, s);
    PackTakesPrefixes(cfg, s);
    ValuesSplit(s.firstQueue, |p.txs|);
    ValuesSplit(s.syncQueue, |p.sync|);
    var s' := Take(cfg, s);
    assert Values(s.firstQueue) == p.txs + Values(s'.firstQueue);
    NoSyncSplit(p.txs, Values(s'.firstQueue));
    NoSyncPors(p.txs);
    assert Values(s.syncQueue) == p.sync + Values(s'.syncQueue);
    SumAgrAppend(p.sync, Values(s'.syncQueue));
    FillRowsScPors(cfg, s.rounds, s.mcRound, p);
  }

  lemma InsertRoundConserved(s: State)
    requires Conserved(s)
    ensures Conserved(InsertRound(s))
  {
    assert InsertRound(s).rounds[..|s.rounds|] == s.rounds;
  }

  lemma MainRoundConserved(cfg: Config, s: State, led: bool, pay: nat)
    requires cfg.Valid() && Fifo(s) && Conserved(s) && RoundsOk(s)
    ensures Conserved(McRound(cfg, s, led, pay)) && RoundsOk(McRound(cfg, s, led, pay))
  {
    InsertRoundConserved(s);
    var s1 := Collect(cfg, InsertRound(s), pay);
    CollectConserved(cfg, InsertRound(s), pay);
    TakeConserved(cfg, s1);
  }

  lemma SummaryConserved(s: State, size: nat)
    requires Conserved(s)
    ensures Conserved(SyncCollect(s, size))
  {
    var tx := FirstTx(Sync, size, s.mcRound, Total(s.summary));
    assert Values(SyncCollect(s, size).syncQueue) == Values(s.syncQueue) + [tx];
    SumAgrAppend(Values(s.syncQueue), [tx]);
    assert SumAgr([tx]) == SumAgr([]) + tx.agr;
    SumOverZero(SyncCollect(s, size).summary, SyncCollect(s, size).summary.Keys);
  }

  lemma SideRoundConserved(cfg: Config, s: State, overhead: int, syncSize: nat)
    requires cfg.Valid() && Fifo(s) && Conserved(s)
    ensures Conserved(ScRound(cfg, s, overhead, syncSize))
  {
    if s.scRound == cfg.SummaryRound() {
      SummaryConserved(s, syncSize);
      InsertAllKeeps(s.firstQueue, HostPayments(cfg, s.mcRound, cfg.hosts));
      StoragePaidNoSync(cfg, s.mcRound, cfg.hosts);
    } else {
      AddPorsTotal(s.summary, SidePack(cfg, s, overhead));
    }
  }

  /** In every run, proofs taken into meta blocks = proofs in the running summary + proofs
      in waiting sync transactions + proofs recorded in the round table; and the round
      table has exactly one row per round. */
  lemma {:induction false} PorsConserved(cfg: Config, durations: seq<int>, events: seq<Event>)
    requires cfg.Valid()
    ensures var s := Exec(cfg, Init(durations), events);
      RoundsOk(s) && Conserved(s)
    decreases |events|
  {
    if events == [] {
      var s := Init(durations);
      assert ScPors(s.rounds) == 0 by {
        assert s.rounds[..1] == [EmptyRow(0)] && [EmptyRow(0)][..0] == [];
      }
    } else {
      var before := events[..|events| - 1];
      PorsConserved(cfg, durations, before);
      FifoInEveryRun(cfg, durations, before);
      var s := Exec(cfg, Init(durations), before);
      match events[|events| - 1]
      case MainRound(led, pay) => MainRoundConserved(cfg, s, led, pay);
      case SideRound(overhead, syncSize) =>
        SideRoundConserved(cfg, s, overhead, syncSize);
        ScRoundElsewhere(cfg, s, overhead, syncSize);
    }
  }

  // ---------------------------------------------------------------- the epoch cycle

  function SideRounds(events: seq<Event>): nat {
    if events == [] then 0 else
      SideRounds(events[..|events| - 1]) + (if events[|events| - 1].SideRound? then 1 else 0)
  }

  /** Where the epoch machine stands after `k` side-chain rounds with epochs of E rounds. */
  predicate AtCycle(E: int, k: nat, scRound: int, meta: nat, summaries: nat) {
    && meta + summaries == k
    && (E >= 1 ==> 1 <= scRound <= E && k == summaries * E + (scRound - 1))
    && (E < 1 ==> summaries == 0 && scRound == k + 1)
  }

  ghost predicate AtCycleOf(E: int, k: nat, s: State) {
    AtCycle(E, k, s.scRound, s.history.metaBlocks, s.history.summaryBlocks)
  }

  lemma SummaryStep(E: int, k: nat, meta: nat, summaries: nat)
    requires AtCycle(E, k, E, meta, summaries)
    ensures AtCycle(E, k + 1, 1, meta, summaries + 1)
  {
    assert (summaries + 1) * E == summaries * E + E;
  }

  lemma NextCycle(cfg: Config, E: int, k: nat, s: State, overhead: int, syncSize: nat)
    requires cfg.Valid() && E == cfg.SummaryRound() && AtCycleOf(E, k, s)
    ensures AtCycleOf(E, k + 1, ScRound(cfg, s, overhead, syncSize))
  {
    if s.scRound == E {
      SummaryStep(E, k, s.history.metaBlocks, s.history.summaryBlocks);
    }
  }

  /** Side-chain rounds cycle through 1..E with one summary block per cycle; when the
      configured epoch has no side-chain round, there is never a summary block. */
  lemma {:induction false} EpochCycle(cfg: Config, durations: seq<int>, events: seq<Event>, E: int)
    requires cfg.Valid() && E == cfg.SummaryRound()
    ensures AtCycleOf(E, SideRounds(events), Exec(cfg, Init(durations), events))
    decreases |events|
  {
    if events != [] {
      var before := events[..|events| - 1];
      EpochCycle(cfg, durations, before, E);
      var s := Exec(cfg, Init(durations), before);
      match events[|events| - 1]
      case MainRound(led, pay) =>
      case SideRound(overhead, syncSize) => NextCycle(cfg, E, SideRounds(before), s, overhead, syncSize);
    }
  }
}
