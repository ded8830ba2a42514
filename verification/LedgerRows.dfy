/**
What the round tables say.  A main-chain row counts every transaction of its block, so
that the table's totals add up to everything taken; the side chain's table accounts for
every proof taken, but its mark for a full block is set by round number, and numbers come
back with every epoch.
*/
module LedgerRows {
  import opened Arithmetic
  import opened Packing
  import opened Tables
  import opened Ledger
  import opened LedgerFifo
  import opened LedgerPors

  // ---------------------------------------------------------------- main chain

  predicate NoPor(txs: seq<FirstTx>) {
    forall k :: 0 <= k < |txs| ==> !txs[k].kind.Por?
  }

  lemma {:induction false} KindsAddUp(txs: seq<FirstTx>)
    ensures CountKind(txs, Por) + CountKind(txs, StoragePayment) + CountKind(txs, Propose)
          + CountKind(txs, Commit) + CountKind(txs, Sync) == |txs|
    ensures CountKind(txs, Por) == 0 <==> NoPor(txs)
  {
    if txs == [] {
    } else {
      KindsAddUp(txs[..|txs| - 1]);
    }
  }

  /** A row's total is the number of the block's transactions, unless proofs go uncounted. */
  lemma TotalExactly(cfg: Config, p: Packed, r: RoundRow)
    ensures Filled(cfg, p, r).totalTxs == |p.pays| + |p.sync| + |p.txs| <==> cfg.simState == 1 || NoPor(p.txs)
  {
    KindsAddUp(p.txs);
  }

  ghost predicate PorsWhereCounted(cfg: Config, s: State) {
    cfg.simState == 1 || NoPor(Values(s.firstQueue))
  }

  lemma {:induction false} CollectedNoPor(cfg: Config, round: int, agreements: seq<Agreement>, n: nat)
    requires n <= |agreements| && cfg.simState != 1
    ensures NoPor(AllFirstTxs(cfg, round, agreements, n))
  {
    if n == 0 {
    } else {
      CollectedNoPor(cfg, round, agreements, n - 1);
    }
  }

  lemma {:induction false} StoragePaidNoPor(cfg: Config, round: int, n: nat)
    ensures NoPor(HostPayments(cfg, round, n))
  {
    if n == 0 {
    } else {
      StoragePaidNoPor(cfg, round, n - 1);
    }
  }

  /** The state in which a main-chain block is filled: the next row exists, and the round's transactions are queued. */
  function Collecting(cfg: Config, s: State, pay: nat): State
    requires cfg.Valid()
  {
    Collect(cfg, InsertRound(s), pay)
  }

  lemma CollectingPors(cfg: Config, s: State, pay: nat)
    requires cfg.Valid() && Fifo(s) && PorsWhereCounted(cfg, s)
    ensures PorsWhereCounted(cfg, Collecting(cfg, s, pay))
  {
    if cfg.simState != 1 {
      InsertAllKeeps(s.firstQueue, AllFirstTxs(cfg, s.mcRound, s.agreements, |s.agreements|));
      CollectedNoPor(cfg, s.mcRound, s.agreements, |s.agreements|);
    }
  }

  lemma MainRoundPors(cfg: Config, s: State, led: bool, pay: nat)
    requires cfg.Valid() && Fifo(s) && PorsWhereCounted(cfg, s)
    ensures PorsWhereCounted(cfg, McRound(cfg, s, led, pay))
  {
    CollectingPors(cfg, s, pay);
    PackTakesPrefixes(cfg, Collecting(cfg, s, pay));
  }

  lemma SideRoundPors(cfg: Config, s: State, overhead: int, syncSize: nat)
    requires cfg.Valid() && Fifo(s) && PorsWhereCounted(cfg, s)
    ensures PorsWhereCounted(cfg, ScRound(cfg, s, overhead, syncSize))
  {
    ScRoundElsewhere(cfg, s, overhead, syncSize);
    InsertAllKeeps(s.firstQueue, HostPayments(cfg, s.mcRound, cfg.hosts));
    StoragePaidNoPor(cfg, s.mcRound, cfg.hosts);
  }

  lemma {:induction false} PorsCountedInEveryRun(cfg: Config, durations: seq<int>, events: seq<Event>)
    requires cfg.Valid()
    ensures PorsWhereCounted(cfg, Exec(cfg, Init(durations), events))
    decreases |events|
  {
    if events == [] {
    } else {
      var before := events[..|events| - 1];
      PorsCountedInEveryRun(cfg, durations, before);
      FifoInEveryRun(cfg, durations, before);
      var s := Exec(cfg, Init(durations), before);
      match events[|events| - 1]
      case MainRound(led, pay) => MainRoundPors(cfg, s, led, pay);
      case SideRound(overhead, syncSize) => SideRoundPors(cfg, s, overhead, syncSize);
    }
  }

  /** How many transactions a block holds. */
  function BlockCount(p: Packed): nat {
    |p.pays| + |p.sync| + |p.txs|
  }

  lemma BlockIsCounted(cfg: Config, s: State, r: RoundRow)
    requires PorsWhereCounted(cfg, s)
    ensures Filled(cfg, Pack(cfg, s), r).totalTxs == BlockCount(Pack(cfg, s))
  {
    PackTakesPrefixes(cfg, s);
    TotalExactly(cfg, Pack(cfg, s), r);
  }

  /** In every run the row of a led round counts all transactions of the block that the round fills. */
  lemma RowsCountEverything(cfg: Config, durations: seq<int>, events: seq<Event>, pay: nat)
    requires cfg.Valid()
    ensures var s := Exec(cfg, Init(durations), events);
      var t := McRound(cfg, s, true, pay);
      && 0 <= s.mcRound < |t.rounds| && t.rounds[s.mcRound].number == s.mcRound
      && t.rounds[s.mcRound].totalTxs == BlockCount(Pack(cfg, Collecting(cfg, s, pay)))
  {
    var s := Exec(cfg, Init(durations), events);
    PorsCountedInEveryRun(cfg, durations, events);
    PorsConserved(cfg, durations, events);
    FifoInEveryRun(cfg, durations, events);
    CollectingPors(cfg, s, pay);
    BlockIsCounted(cfg, Collecting(cfg, s, pay), s.rounds[s.mcRound]);
  }

  function SumTotals(rounds: seq<RoundRow>): int {
    if rounds == [] then 0 else SumTotals(rounds[..|rounds| - 1]) + rounds[|rounds| - 1].totalTxs
  }

  /** Writing into the one row with a given number. */
  lemma {:induction false} SumTotalsUpdate(rounds: seq<RoundRow>, number: nat, f: RoundRow -> RoundRow)
    requires forall k :: 0 <= k < |rounds| ==> rounds[k].number == k
    ensures SumTotals(UpdateRows(rounds, number, f)) ==
            SumTotals(rounds) + if number < |rounds| then f(rounds[number]).totalTxs - rounds[number].totalTxs else 0
    decreases |rounds|
  {
    if rounds == [] {
    } else {
      var last := |rounds| - 1;
      SumTotalsUpdate(rounds[..last], number, f);
      assert UpdateRows(rounds, number, f)[..last] == UpdateRows(rounds[..last], number, f);
    }
  }

  function AllTaken(h: History): nat {
    |h.firstOut| + |h.secondOut| + |h.syncOut|
  }

  /** The table's totals are everything taken so far, and nothing is written into the current row yet. */
  predicate TotalsOk(s: State) {
    && 0 <= s.mcRound < |s.rounds| && s.rounds[s.mcRound].totalTxs == 0
    && SumTotals(s.rounds) == AllTaken(s.history)
  }

  /** Filling the block of the current round. */
  lemma TakeTotals(cfg: Config, s: State)
    requires PorsWhereCounted(cfg, s) && TotalsOk(s)
    requires forall k :: 0 <= k < |s.rounds| ==> s.rounds[k].number == k
    ensures var t := Take(cfg, s);
      SumTotals(t.rounds) == AllTaken(t.history)
  {
    var p := Pack(cfg, s);
    PackTakesPrefixes(cfg, s);
    BlockIsCounted(cfg, s, s.rounds[s.mcRound]);
    SumTotalsUpdate(s.rounds, s.mcRound, r => Filled(cfg, p, r));
  }

  lemma MainRoundTotals(cfg: Config, s: State, led: bool, pay: nat)
    requires cfg.Valid() && Fifo(s) && PorsWhereCounted(cfg, s) && RoundsOk(s) && TotalsOk(s)
    ensures TotalsOk(McRound(cfg, s, led, pay))
  {
    var s1 := Collecting(cfg, s, pay);
    assert s1.rounds[..|s.rounds|] == s.rounds;
    CollectingPors(cfg, s, pay);
    TakeTotals(cfg, s1);
  }

  lemma SideRoundTotals(cfg: Config, s: State, overhead: int, syncSize: nat)
    requires cfg.Valid() && TotalsOk(s)
    ensures TotalsOk(ScRound(cfg, s, overhead, syncSize))
  {
    ScRoundElsewhere(cfg, s, overhead, syncSize);
  }

  /** In every run the totals of the main chain's round table add up to all transactions ever taken. */
  lemma {:induction false} TotalsAddUp(cfg: Config, durations: seq<int>, events: seq<Event>)
    requires cfg.Valid()
    ensures TotalsOk(Exec(cfg, Init(durations), events))
    decreases |events|
  {
    if events == [] {
      var rounds := Init(durations).rounds;
      assert rounds[..1] == [EmptyRow(0)] && rounds[..1][..0] == [];
    } else {
      var before := events[..|events| - 1];
      TotalsAddUp(cfg, durations, before);
      FifoInEveryRun(cfg, durations, before);
      PorsCountedInEveryRun(cfg, durations, before);
      PorsConserved(cfg, durations, before);
      var s := Exec(cfg, Init(durations), before);
      match events[|events| - 1]
      case MainRound(led, pay) => MainRoundTotals(cfg, s, led, pay);
      case SideRound(overhead, syncSize) => SideRoundTotals(cfg, s, overhead, syncSize);
    }
  }

  // ---------------------------------------------------------------- side chain

  function SumPors(rows: seq<SideRow>): int {
    if rows == [] then 0 else SumPors(rows[..|rows| - 1]) + rows[|rows| - 1].pors
  }

  lemma {:induction false} MarkFullPors(rows: seq<SideRow>, number: int)
    ensures SumPors(MarkFull(rows, number)) == SumPors(rows)
  {
    if rows == [] {
    } else {
      MarkFullPors(rows[..|rows| - 1], number);
      assert MarkFull(rows, number)[..|rows| - 1] == MarkFull(rows[..|rows| - 1], number);
    }
  }

  /** Some round from the k-th on, with the same number, had a full block. */
  ghost predicate FullSince(rows: seq<SideRow>, fulls: seq<bool>, k: nat)
    requires k < |rows| == |fulls|
  {
    exists m :: k <= m < |rows| && rows[m].number == rows[k].number && fulls[m]
  }

  ghost predicate FlagsOk(rows: seq<SideRow>, fulls: seq<bool>) {
    && |rows| == |fulls|
    && forall k :: 0 <= k < |rows| ==> (rows[k].full <==> FullSince(rows, fulls, k))
  }

  /** The number of the k-th side-chain round. */
  function NumberOf(E: int, k: nat): int {
    if E >= 1 then k % E + 1 else k + 1
  }

  predicate NumbersOk(E: int, rows: seq<SideRow>, scRound: int) {
    && (forall k :: 0 <= k < |rows| ==> rows[k].number == NumberOf(E, k))
    && scRound == NumberOf(E, |rows|)
  }

  ghost predicate TableOk(E: int, rows: seq<SideRow>, fulls: seq<bool>, taken: int, scRound: int) {
    FlagsOk(rows, fulls) && NumbersOk(E, rows, scRound) && SumPors(rows) == taken
  }

  ghost predicate SideTableOk(E: int, s: State) {
    TableOk(E, s.sideRounds, s.history.sideFull, |s.history.scOut|, s.scRound)
  }

  lemma NextNumber(E: int, k: nat)
    ensures NumberOf(E, k + 1) == if NumberOf(E, k) == E then 1 else NumberOf(E, k) + 1
  {
    if E >= 1 {
      var q := k / E;
      if k % E + 1 == E {
        assert (q + 1) * E == q * E + E;
        DivModUnique(k + 1, E, q + 1, 0);
      } else {
        DivModUnique(k + 1, E, q, k % E + 1);
      }
    }
  }

  /** One more row, and the flags of all rows with its number raised if its block is full. */
  lemma FlagsStep(rows: seq<SideRow>, fulls: seq<bool>, row: SideRow, full: bool, after: seq<SideRow>)
    requires FlagsOk(rows, fulls) && |after| == |rows| + 1
    requires after[|rows|].number == row.number && after[|rows|].full == full
    requires forall k :: 0 <= k < |rows| ==> after[k].number == rows[k].number
    requires forall k :: 0 <= k < |rows| ==>
      after[k].full == (rows[k].full || (full && rows[k].number == row.number))
    ensures FlagsOk(after, fulls + [full])
  {
    var n, more := |rows|, fulls + [full];
    forall k | 0 <= k < |after| ensures after[k].full <==> FullSince(after, more, k) {
      if k < n {
        FullSinceStep(rows, fulls, after, full, k);
      } else if full {
        assert more[n];
      }
    }
  }

  lemma FullSinceStep(rows: seq<SideRow>, fulls: seq<bool>, after: seq<SideRow>, full: bool, k: nat)
    requires k < |rows| == |fulls| && |after| == |rows| + 1
    requires forall m :: 0 <= m < |rows| ==> after[m].number == rows[m].number
    ensures FullSince(after, fulls + [full], k)
       <==> FullSince(rows, fulls, k) || (full && after[|rows|].number == rows[k].number)
  {
    var n, more := |rows|, fulls + [full];
    if FullSince(rows, fulls, k) {
      var m :| k <= m < n && rows[m].number == rows[k].number && fulls[m];
      assert more[m];
    }
    if full {
      assert more[n];
    }
  }

  /** The table after a meta block: the new row is the one that is written into. */
  lemma MetaRowsAre(rows: seq<SideRow>, row: SideRow, size: int, count: nat, offered: nat)
    requires count <= offered
    ensures var all := rows + [row];
      MetaRows(all, row.number, size, count, offered)
        == (if count < offered then MarkFull(all, row.number) else all)[..|rows|]
           + [row.(blockSize := size, pors := count, queueFill := offered - count, full := row.full || count < offered)]
  {
  }

  /** The table's old rows after a block of round `number`. */
  function Marked(rows: seq<SideRow>, number: int, full: bool): seq<SideRow> {
    if full then MarkFull(rows, number) else rows
  }

  lemma MetaBlockRows(cfg: Config, s: State, overhead: int)
    requires cfg.Valid()
    ensures var t, txs := MetaBlock(cfg, s, overhead), SidePack(cfg, s, overhead);
      var offered := |First(s.scQueue)|;
      && t.scRound == s.scRound + 1
      && t.history.sideFull == s.history.sideFull + [|txs| < offered]
      && t.history.scOut == s.history.scOut + txs
      && t.sideRounds == Marked(s.sideRounds, s.scRound, |txs| < offered)
           + [SideRow(s.scRound, Sum(PorSizes(txs)) + overhead, |txs|, |txs| < offered, offered - |txs|, s.mcRound)]
  {
    var txs := SidePack(cfg, s, overhead);
    var row := SideRow(s.scRound, 0, 0, false, 0, s.mcRound);
    MetaRowsAre(s.sideRounds, row, Sum(PorSizes(txs)) + overhead, |txs|, |First(s.scQueue)|);
    assert MarkFull(s.sideRounds + [row], s.scRound)[..|s.sideRounds|] == MarkFull(s.sideRounds, s.scRound);
  }

  lemma MetaBlockTable(cfg: Config, s: State, overhead: int)
    requires cfg.Valid() && SideTableOk(cfg.SummaryRound(), s) && s.scRound != cfg.SummaryRound()
    ensures SideTableOk(cfg.SummaryRound(), MetaBlock(cfg, s, overhead))
  {
    var t := MetaBlock(cfg, s, overhead);
    MetaBlockRows(cfg, s, overhead);
    var row := t.sideRounds[|s.sideRounds|];
    TableStep(cfg.SummaryRound(), s.sideRounds, s.history.sideFull, |s.history.scOut|, s.scRound, row);
  }

  lemma SummaryBlockTable(cfg: Config, s: State, overhead: int, syncSize: nat)
    requires cfg.Valid() && SideTableOk(cfg.SummaryRound(), s) && s.scRound == cfg.SummaryRound()
    ensures SideTableOk(cfg.SummaryRound(), SummaryBlock(cfg, s, overhead, syncSize))
  {
    var row := SideRow(s.scRound, overhead + syncSize, 0, false, 0, s.mcRound);
    TableStep(cfg.SummaryRound(), s.sideRounds, s.history.sideFull, |s.history.scOut|, s.scRound, row);
  }

  /** One more row. */
  lemma TableStep(E: int, rows: seq<SideRow>, fulls: seq<bool>, taken: int, scRound: int, row: SideRow)
    requires TableOk(E, rows, fulls, taken, scRound) && row.number == scRound
    ensures TableOk(E, Marked(rows, scRound, row.full) + [row], fulls + [row.full], taken + row.pors,
                    if scRound == E then 1 else scRound + 1)
  {
    var after := Marked(rows, scRound, row.full) + [row];
    FlagsStep(rows, fulls, row, row.full, after);
    NextNumber(E, |rows|);
    MarkFullPors(rows, scRound);
    assert after[..|rows|] == Marked(rows, scRound, row.full);
  }

  /**
  In every run the side chain's round table has a row per round with the epoch's
  numbering, its proofs add up to all proofs taken, and a row is marked full exactly if
  its own round or a later one with the same number had a full block.
  */
  lemma {:induction false} SideTableInEveryRun(cfg: Config, durations: seq<int>, events: seq<Event>)
    requires cfg.Valid()
    ensures SideTableOk(cfg.SummaryRound(), Exec(cfg, Init(durations), events))
    decreases |events|
  {
    if events == [] {
    } else {
      var before := events[..|events| - 1];
      SideTableInEveryRun(cfg, durations, before);
      var s := Exec(cfg, Init(durations), before);
      match events[|events| - 1]
      case MainRound(led, pay) =>
      case SideRound(overhead, syncSize) =>
        if s.scRound == cfg.SummaryRound() {
          SummaryBlockTable(cfg, s, overhead, syncSize);
        } else {
          MetaBlockTable(cfg, s, overhead);
        }
    }
  }

  /** No round after the k-th with its number had a full block. */
  ghost predicate NoneFullAfter(rows: seq<SideRow>, fulls: seq<bool>, k: nat)
    requires k < |rows| == |fulls|
  {
    forall m :: k < m < |rows| && rows[m].number == rows[k].number ==> !fulls[m]
  }

  lemma MarkExactly(rows: seq<SideRow>, fulls: seq<bool>, k: nat)
    requires FlagsOk(rows, fulls) && k < |rows|
    ensures (rows[k].full <==> fulls[k]) <==> (fulls[k] || NoneFullAfter(rows, fulls, k))
  {
  }

  /**
  Exactly when the mark of the k-th row tells whether the k-th block was full: it was, or
  no later round with the same number had a full block.
  */
  lemma MarkIsRight(cfg: Config, durations: seq<int>, events: seq<Event>, k: nat)
    requires cfg.Valid() && k < |Exec(cfg, Init(durations), events).sideRounds|
    ensures var s := Exec(cfg, Init(durations), events);
      && |s.sideRounds| == |s.history.sideFull|
      && ((s.sideRounds[k].full <==> s.history.sideFull[k]) <==>
          (s.history.sideFull[k] || NoneFullAfter(s.sideRounds, s.history.sideFull, k)))
  {
    SideTableInEveryRun(cfg, durations, events);
    var s := Exec(cfg, Init(durations), events);
    MarkExactly(s.sideRounds, s.history.sideFull, k);
  }

  // ---------------------------------------------------------------- two runs

  lemma ExecStep(cfg: Config, s: State, events: seq<Event>, e: Event)
    requires cfg.Valid()
    ensures Exec(cfg, s, events + [e]) == Next(cfg, Exec(cfg, s, events), e)
  {
    assert (events + [e])[..|events|] == events;
  }

  /** Epochs of two side-chain rounds, and room for one proof in a meta block. */
  predicate Tight(cfg: Config, overhead: int) {
    && cfg.Valid() && cfg.simState == 2 && cfg.storagePaymentEpoch == 0 && cfg.SummaryRound() == 2
    && overhead + cfg.porSize <= cfg.scBlockSize < overhead + 2 * cfg.porSize
  }

  /** Where a run with one agreement stands: the next rounds, the proofs queued, the side-chain blocks so far. */
  ghost predicate Stands(cfg: Config, s: State, d: int, mcRound: int, scRound: int, queued: nat, fulls: seq<bool>) {
    && s.mcRound == mcRound && s.agreements == [Agreement(d, 0, true, true)] && s.firstQueue == []
    && s.scRound == scRound && |s.scQueue| == queued <= 2
    && (forall k :: 0 <= k < queued ==> s.scQueue[k].value.size == cfg.porSize)
    && s.history.sideFull == fulls && |s.sideRounds| == |fulls|
  }

  /** A meta block takes one proof and leaves a second one out. */
  lemma TightMeta(cfg: Config, s: State, overhead: int, d: int, mcRound: int, queued: nat, fulls: seq<bool>)
    requires Tight(cfg, overhead) && Stands(cfg, s, d, mcRound, 1, queued, fulls) && 1 <= queued
    ensures Stands(cfg, MetaBlock(cfg, s, overhead), d, mcRound, 2, queued - 1, fulls + [queued == 2])
  {
    var sizes, budget := PorSizes(Values(First(s.scQueue))), cfg.scBlockSize - overhead;
    assert sizes == if queued == 1 then [cfg.porSize] else [cfg.porSize, cfg.porSize];
    assert FitCount(sizes[1..], cfg.porSize, budget) == 0;
    assert |SidePack(cfg, s, overhead)| == 1;
    MetaBlockRows(cfg, s, overhead);
  }

  lemma TightSummary(
    cfg: Config, s: State, overhead: int, syncSize: nat, d: int, mcRound: int, queued: nat, fulls: seq<bool>)
    requires Tight(cfg, overhead) && Stands(cfg, s, d, mcRound, 2, queued, fulls)
    ensures Stands(cfg, SummaryBlock(cfg, s, overhead, syncSize), d, mcRound, 1, queued, fulls + [false])
  {
  }

  /** The agreement sends a proof in every round of its duration, and nothing comes into the first queue. */
  lemma TightCollect(
    cfg: Config, s: State, pay: nat, d: int, mcRound: int, scRound: int, queued: nat, fulls: seq<bool>)
    requires cfg.Valid() && cfg.simState == 2 && mcRound <= d
    requires Stands(cfg, s, d, mcRound, scRound, queued, fulls) && queued <= 1
    ensures Stands(cfg, Collecting(cfg, s, pay), d, mcRound, scRound, queued + 1, fulls)
  {
    var a := s.agreements[0];
    var pors := AllPorTxs(cfg, mcRound, scRound, s.agreements, 1);
    assert AllPorTxs(cfg, mcRound, scRound, s.agreements, 0) == [];
    assert pors == PorTxsOf(cfg, mcRound, scRound, 0, a) && |pors| == 1 && pors[0].size == cfg.porSize;
    assert InsertAll(s.scQueue, pors) == InsertAll(Insert(s.scQueue, pors[0]), pors[1..]);
    assert AllFirstTxs(cfg, mcRound, s.agreements, 0) == [];
    assert AllFirstTxs(cfg, mcRound, s.agreements, 1) == FirstTxsOf(cfg, mcRound, 0, a) == [];
    assert Collecting(cfg, s, pay).agreements == s.agreements;
  }

  lemma TightTake(cfg: Config, s: State, d: int, mcRound: int, scRound: int, queued: nat, fulls: seq<bool>)
    requires Stands(cfg, s, d, mcRound, scRound, queued, fulls)
    ensures Stands(cfg, AdvanceRound(Take(cfg, s)), d, mcRound + 1, scRound, queued, fulls)
  {
    assert Pack(cfg, s).txs == [];
    assert Publish(mcRound, s.agreements, []) == s.agreements;
  }

  lemma TightMain(cfg: Config, s: State, pay: nat, d: int, mcRound: int, scRound: int, queued: nat, fulls: seq<bool>)
    requires cfg.Valid() && cfg.simState == 2 && mcRound <= d
    requires Stands(cfg, s, d, mcRound, scRound, queued, fulls) && queued <= 1
    ensures Stands(cfg, McRound(cfg, s, true, pay), d, mcRound + 1, scRound, queued + 1, fulls)
  {
    TightCollect(cfg, s, pay, d, mcRound, scRound, queued, fulls);
    TightTake(cfg, Collecting(cfg, s, pay), d, mcRound, scRound, queued + 1, fulls);
  }

  lemma ThenMeta(
    cfg: Config, events: seq<Event>, overhead: int, syncSize: nat, d: int, mcRound: int, queued: nat, fulls: seq<bool>)
    returns (longer: seq<Event>)
    requires Tight(cfg, overhead) && 1 <= queued
    requires Stands(cfg, Exec(cfg, Init([d]), events), d, mcRound, 1, queued, fulls)
    ensures Stands(cfg, Exec(cfg, Init([d]), longer), d, mcRound, 2, queued - 1, fulls + [queued == 2])
  {
    longer := events + [SideRound(overhead, syncSize)];
    ExecStep(cfg, Init([d]), events, SideRound(overhead, syncSize));
    TightMeta(cfg, Exec(cfg, Init([d]), events), overhead, d, mcRound, queued, fulls);
  }

  lemma ThenSummary(
    cfg: Config, events: seq<Event>, overhead: int, syncSize: nat, d: int, mcRound: int, queued: nat, fulls: seq<bool>)
    returns (longer: seq<Event>)
    requires Tight(cfg, overhead) && Stands(cfg, Exec(cfg, Init([d]), events), d, mcRound, 2, queued, fulls)
    ensures Stands(cfg, Exec(cfg, Init([d]), longer), d, mcRound, 1, queued, fulls + [false])
  {
    longer := events + [SideRound(overhead, syncSize)];
    ExecStep(cfg, Init([d]), events, SideRound(overhead, syncSize));
    TightSummary(cfg, Exec(cfg, Init([d]), events), overhead, syncSize, d, mcRound, queued, fulls);
  }

  lemma ThenMain(
    cfg: Config, events: seq<Event>, pay: nat, d: int, mcRound: int, scRound: int, queued: nat, fulls: seq<bool>)
    returns (longer: seq<Event>)
    requires cfg.Valid() && cfg.simState == 2 && mcRound <= d && queued <= 1
    requires Stands(cfg, Exec(cfg, Init([d]), events), d, mcRound, scRound, queued, fulls)
    ensures Stands(cfg, Exec(cfg, Init([d]), longer), d, mcRound + 1, scRound, queued + 1, fulls)
  {
    longer := events + [MainRound(true, pay)];
    ExecStep(cfg, Init([d]), events, MainRound(true, pay));
    TightMain(cfg, Exec(cfg, Init([d]), events), pay, d, mcRound, scRound, queued, fulls);
  }

  /**
  For every such configuration, and an agreement of at least three rounds: three led main-chain
  rounds, each followed by a side-chain round. The first meta block takes the only proof there
  is, yet its row ends up marked as full, because that of the next epoch leaves a proof out.
  */
  lemma MarkCanBeWrong(cfg: Config, overhead: int, syncSize: nat, pay: nat, d: int) returns (events: seq<Event>)
    requires Tight(cfg, overhead) && 3 <= d
    ensures var s := Exec(cfg, Init([d]), events);
      |s.sideRounds| == |s.history.sideFull| == 3 && s.sideRounds[0].full && !s.history.sideFull[0]
  {
    events := ThenMain(cfg, [], pay, d, 1, 1, 0, []);
    events := ThenMeta(cfg, events, overhead, syncSize, d, 2, 1, []);
    events := ThenMain(cfg, events, pay, d, 2, 2, 0, [] + [false]);
    events := ThenSummary(cfg, events, overhead, syncSize, d, 3, 1, [] + [false]);
    events := ThenMain(cfg, events, pay, d, 3, 1, 1, [] + [false] + [false]);
    events := ThenMeta(cfg, events, overhead, syncSize, d, 4, 2, [] + [false] + [false]);
    SideTableInEveryRun(cfg, [d], events);
    var s := Exec(cfg, Init([d]), events);
    assert s.sideRounds[2].number == NumberOf(2, 2) && s.sideRounds[0].number == NumberOf(2, 0);
    assert s.history.sideFull[2];
    assert FullSince(s.sideRounds, s.history.sideFull, 0);
  }

  /** No summary block has been made yet, and the k-th side-chain round is next. */
  ghost predicate InFirstEpoch(s: State, k: int) {
    s.mcRound == 2 && s.scRound == k && s.syncQueue == []
  }

  lemma {:induction false} UpToSummary(
    cfg: Config, durations: seq<int>, overhead: int, syncSize: nat, pay: nat, k: nat) returns (events: seq<Event>)
    requires cfg.Valid() && 1 <= k <= cfg.SummaryRound()
    ensures InFirstEpoch(Exec(cfg, Init(durations), events), k)
  {
    if k == 1 {
      events := [] + [MainRound(true, pay)];
      ExecStep(cfg, Init(durations), [], MainRound(true, pay));
    } else {
      events := UpToSummary(cfg, durations, overhead, syncSize, pay, k - 1);
      ExecStep(cfg, Init(durations), events, SideRound(overhead, syncSize));
      events := events + [SideRound(overhead, syncSize)];
    }
  }

  /** A summary block leaves its sync transaction at the head of an empty queue. */
  lemma SummarySync(cfg: Config, s: State, overhead: int, syncSize: nat)
    requires cfg.Valid() && s.syncQueue == []
    ensures var t := SummaryBlock(cfg, s, overhead, syncSize);
      t.mcRound == s.mcRound && |t.syncQueue| == 1 && t.syncQueue[0].value.size == syncSize
  {
  }

  lemma OversizedRow(cfg: Config, s: State, pay: nat)
    requires cfg.Valid() && RoundsOk(s)
    requires s.syncQueue != [] && s.syncQueue[0].value.size > cfg.blockSize - cfg.blockOverhead
    ensures McRound(cfg, s, true, pay).rounds[s.mcRound].blockSize > cfg.blockSize
  {
    OversizedSyncOverflowsBlock(cfg, Collecting(cfg, s, pay));
  }

  /**
  The size limit does fail in a run: whatever the configuration, a sync transaction larger than
  a block, made by the first summary block, puts a block over its limit into the round table.
  */
  lemma SyncCanOverflow(cfg: Config, durations: seq<int>, overhead: int, syncSize: nat, pay: nat)
    returns (events: seq<Event>)
    requires cfg.Valid() && 1 <= cfg.SummaryRound() && syncSize > cfg.blockSize - cfg.blockOverhead
    ensures var s := Exec(cfg, Init(durations), events);
      2 < |s.rounds| && s.rounds[2].blockSize > cfg.blockSize
  {
    events := UpToSummary(cfg, durations, overhead, syncSize, pay, cfg.SummaryRound());
    var s0 := Exec(cfg, Init(durations), events);
    ExecStep(cfg, Init(durations), events, SideRound(overhead, syncSize));
    SummarySync(cfg, s0, overhead, syncSize);
    events := events + [SideRound(overhead, syncSize)];
    PorsConserved(cfg, durations, events);
    ExecStep(cfg, Init(durations), events, MainRound(true, pay));
    OversizedRow(cfg, Exec(cfg, Init(durations), events), pay);
    events := events + [MainRound(true, pay)];
  }
}
