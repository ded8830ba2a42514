/**
The root node's ledger as it is run: tables and counters changed step by step by
loops.  Each method is proved against the state function of the same section in
`Ledger`, over which the properties of all runs are proved.
*/
module LedgerStore {
  import opened Tables
  import opened Packing
  import opened Ledger
  import opened LedgerFifo
  import LedgerPors

  /** How many agreements have something to report in the summary. */
  ghost function NonZeros<K>(m: map<K, int>, keys: set<K>): nat
    requires keys <= m.Keys
  {
    |set k | k in keys && m[k] != 0|
  }

  /** One more key is done. */
  lemma NonZerosStep<K>(m: map<K, int>, keys: set<K>, k: K)
    requires keys <= m.Keys && k in keys
    ensures NonZeros(m, m.Keys - (keys - {k})) == NonZeros(m, m.Keys - keys) + if m[k] != 0 then 1 else 0
  {
    var before := set x | x in m.Keys - keys && m[x] != 0;
    var after := set x | x in m.Keys - (keys - {k}) && m[x] != 0;
    assert after == if m[k] != 0 then before + {k} else before;
  }

  /** The loop over SummPoRTxs: adds up, counts and resets the entries, in any order. */
  method DrainSummary<K>(summary: map<K, int>) returns (total: int, nonZero: nat, drained: map<K, int>)
    ensures total == Total(summary)
    ensures nonZero == NonZeros(summary, summary.Keys)
    ensures drained == map k | k in summary :: 0
  {
    total, nonZero, drained := 0, 0, summary;
    var keys := summary.Keys;
    assert keys - keys == {};
    while keys != {}
      invariant keys <= summary.Keys == drained.Keys
      invariant total + SumOver(summary, keys) == Total(summary)
      invariant nonZero == NonZeros(summary, summary.Keys - keys)
      invariant forall k :: k in summary ==> drained[k] == if k in keys then summary[k] else 0
    {
      var k :| k in keys;
      LedgerPors.SumOverRemove(summary, keys, k);
      NonZerosStep(summary, keys, k);
      total := total + summary[k];
      if summary[k] != 0 {
        nonZero := nonZero + 1;
      }
      drained := drained[k := 0];
      keys := keys - {k};
    }
    assert summary.Keys - keys == summary.Keys;
  }

  /** What one row of MarketMatching does when transactions are collected. */
  method CollectRow(cfg: Config, round: int, scRound: int, i: nat, a: Agreement)
    returns (a': Agreement, mcTxs: seq<FirstTx>, scTxs: seq<PorTx>)
    requires cfg.Valid()
    ensures a' == Collected(round, a)
    ensures mcTxs == FirstTxsOf(cfg, round, i, a)
    ensures scTxs == PorTxsOf(cfg, round, scRound, i, a)
  {
    a', mcTxs, scTxs := a, [], [];
    if !a.published && !a.txIssued {
      mcTxs := [FirstTx(Propose, cfg.proposeSize, round, i + 1), FirstTx(Commit, cfg.commitSize, round, i + 1)];
      a' := a'.(txIssued := true);
    } else if round - a.started > a.duration && a.published && a.txIssued {
      a' := a'.(published := false);
      a' := a'.(txIssued := false);
      if cfg.storagePaymentEpoch == 0 {
        mcTxs := [FirstTx(StoragePayment, cfg.storagePaySize, round, i + 1)];
      }
    } else if a.published && round - a.started <= a.duration && cfg.simState == 1 {
      mcTxs := [FirstTx(Por, cfg.porSize, round, i + 1)];
    } else if a.published && round - a.started <= a.duration && cfg.simState == 2 {
      var epoch := -1;
      if round != 1 {
        epoch := (round - 2) / cfg.mcRoundPerEpoch;
      }
      var issued := (scRound - 1) % cfg.scRoundPerEpoch;
      if issued == 0 {
        issued := cfg.scRoundPerEpoch;
      }
      scTxs := [PorTx(cfg.porSize, issued, i + 1, epoch)];
    }
  }

  /** The loop over MarketMatching. */
  method CollectRows(cfg: Config, round: int, scRound: int, rows: seq<Agreement>)
    returns (mcTxs: seq<FirstTx>, scTxs: seq<PorTx>, agreements: seq<Agreement>)
    requires cfg.Valid()
    ensures mcTxs == AllFirstTxs(cfg, round, rows, |rows|)
    ensures scTxs == AllPorTxs(cfg, round, scRound, rows, |rows|)
    ensures agreements == seq(|rows|, i requires 0 <= i < |rows| => Collected(round, rows[i]))
  {
    mcTxs, scTxs, agreements := [], [], rows;
    var i := 0;
    while i < |rows|
      invariant i <= |rows| == |agreements|
      invariant mcTxs == AllFirstTxs(cfg, round, rows, i)
      invariant scTxs == AllPorTxs(cfg, round, scRound, rows, i)
      invariant forall k :: 0 <= k < |rows| ==>
        agreements[k] == if k < i then Collected(round, rows[k]) else rows[k]
    {
      var a, mc, sc := CollectRow(cfg, round, scRound, i, rows[i]);
      agreements := agreements[i := a];
      mcTxs := mcTxs + mc;
      scTxs := scTxs + sc;
      i := i + 1;
    }
  }

  method DrawPayments(cfg: Config, round: int, pay: nat) returns (pays: seq<PayTx>)
    ensures pays == Payments(cfg, round, pay)
  {
    pays := [];
    while |pays| < pay
      invariant |pays| <= pay && pays == Payments(cfg, round, |pays|)
    {
      pays := pays + [PayTx(cfg.paySize, round)];
    }
  }

  /** What the packing loop over the side chain's queue has gathered. */
  datatype SideTaken = SideTaken(space: int, wait: int, lastRowId: nat, count: nat, full: bool, summary: map<int, int>)

  ghost predicate SideTakenOk(
    cfg: Config, g: SideTaken, mcRound: int, scRound: int, rows: seq<Row<PorTx>>, start: map<int, int>)
    requires cfg.Valid()
  {
    && g.count <= |rows|
    && (var taken := Values(rows)[..g.count];
        && g.space == Sum(PorSizes(taken))
        && g.wait == SideWaits(cfg, mcRound, scRound, taken)
        && g.lastRowId == LastTaken(rows, g.count)
        && g.summary == AddPors(start, taken))
  }

  lemma SideTakeOne(
    cfg: Config, g: SideTaken, mcRound: int, scRound: int, rows: seq<Row<PorTx>>, start: map<int, int>)
    requires cfg.Valid() && SideTakenOk(cfg, g, mcRound, scRound, rows, start) && g.count < |rows|
    ensures var tx := rows[g.count].value; SideTakenOk(cfg,
      SideTaken(g.space + tx.size, g.wait + SideWaitOf(cfg, mcRound, scRound, tx), rows[g.count].rowId, g.count + 1,
                g.full, g.summary[tx.agr := (if tx.agr in g.summary then g.summary[tx.agr] else 0) + 1]),
      mcRound, scRound, rows, start)
  {
    var taken, next := Values(rows)[..g.count], Values(rows)[..g.count + 1];
    assert next[..|next| - 1] == taken;
    assert PorSizes(next)[..g.count] == PorSizes(taken) && PorSizes(next)[..|next|] == PorSizes(next);
    SumPrefixStep(PorSizes(next), g.count);
  }

  /** The packing loop over the rows of the side chain's queue. */
  method ScanSide(
    cfg: Config, mcRound: int, scRound: int, rows: seq<Row<PorTx>>, budget: int, start: map<int, int>)
    returns (g: SideTaken)
    requires cfg.Valid()
    ensures SideTakenOk(cfg, g, mcRound, scRound, rows, start)
    ensures g.count == FitCount(PorSizes(Values(rows)), 0, budget)
    ensures g.full <==> g.count < |rows|
  {
    g := SideTaken(0, 0, 0, 0, false, start);
    ghost var values := Values(rows);
    ghost var sizes := PorSizes(values);
    while g.count < |rows| && !g.full
      invariant g.count <= FitCount(sizes, 0, budget) <= |rows|
      invariant SideTakenOk(cfg, g, mcRound, scRound, rows, start)
      invariant g.full ==> g.count == FitCount(sizes, 0, budget) < |rows|
      decreases |rows| - g.count, !g.full
    {
      var tx := rows[g.count].value;
      FitCountAt(sizes, 0, budget, g.count);
      assert sizes[..g.count] == PorSizes(values[..g.count]);
      if g.space + tx.size <= budget {
        SideTakeOne(cfg, g, mcRound, scRound, rows, start);
        var currentEpoch := TruncDiv(mcRound - 2, cfg.mcRoundPerEpoch);
        g := SideTaken(g.space + tx.size,
                       g.wait + (scRound - tx.issuedSc + (currentEpoch - tx.epoch) * cfg.mcRoundDuration),
                       rows[g.count].rowId, g.count + 1, g.full,
                       g.summary[tx.agr := (if tx.agr in g.summary then g.summary[tx.agr] else 0) + 1]);
      } else {
        g := g.(full := true);
      }
    }
  }

  /** The packing loop over the rows of SecondQueue. */
  method ScanPayments(cfg: Config, round: int, rows: seq<Row<PayTx>>)
    returns (space: int, wait: int, lastRowId: nat, count: nat, full: bool)
    ensures count == FitCount(PaySizes(Values(rows)), 0, PayBudget(cfg))
    ensures space == Sum(PaySizes(Values(rows)[..count]))
    ensures wait == PayWaits(round, Values(rows)[..count])
    ensures lastRowId == LastTaken(rows, count)
    ensures full <==> count < |rows|
  {
    space, wait, lastRowId, count, full := 0, 0, 0, 0, false;
    var share := cfg.payPercent * (cfg.blockSize - cfg.blockOverhead);
    ghost var values := Values(rows);
    ghost var sizes := PaySizes(values);
    while count < |rows| && !full
      invariant count <= FitCount(sizes, 0, PayBudget(cfg)) <= |rows|
      invariant space == Sum(sizes[..count])
      invariant wait == PayWaits(round, values[..count])
      invariant lastRowId == LastTaken(rows, count)
      invariant full ==> count == FitCount(sizes, 0, PayBudget(cfg)) < |rows|
      decreases |rows| - count, !full
    {
      var out := rows[count];
      FitCountAt(sizes, 0, PayBudget(cfg), count);
      if 100 * (space + out.value.size) <= share {
        SumPrefixStep(sizes, count);
        assert values[..count + 1][..count] == values[..count];
        space := space + out.value.size;
        wait := wait + round - out.value.issued;
        lastRowId := out.rowId;
        count := count + 1;
      } else {
        full := true;
      }
    }
    assert sizes[..count] == PaySizes(values[..count]);
  }

  /** How many transactions of each kind a block takes from FirstQueue. */
  datatype Counts = Counts(pors: nat, storagePays: nat, proposes: nat, commits: nat, syncs: nat, syncPors: int)

  ghost predicate CountsOk(cfg: Config, c: Counts, txs: seq<FirstTx>) {
    && c.pors == CountedPors(cfg, txs)
    && c.storagePays == CountKind(txs, StoragePayment)
    && c.proposes == CountKind(txs, Propose)
    && c.commits == CountKind(txs, Commit)
    && c.syncs == CountKind(txs, Sync)
    && c.syncPors == SyncPors(txs)
  }

  /** The switch over the names of transactions. */
  method CountTx(cfg: Config, c: Counts, tx: FirstTx, ghost taken: seq<FirstTx>) returns (c': Counts)
    requires CountsOk(cfg, c, taken)
    ensures CountsOk(cfg, c', taken + [tx])
  {
    assert (taken + [tx])[..|taken|] == taken;
    match tx.kind {
      case Commit => c' := c.(commits := c.commits + 1);
      case StoragePayment => c' := c.(storagePays := c.storagePays + 1);
      case Por => c' := if cfg.simState == 1 then c.(pors := c.pors + 1) else c;
      case Propose => c' := c.(proposes := c.proposes + 1);
      case Sync => c' := c.(syncs := c.syncs + 1, syncPors := c.syncPors + tx.agr);
    }
  }

  /** What the packing loop over the rows of FirstQueue has gathered. */
  datatype Gathered = Gathered(space: int, wait: int, lastRowId: nat, count: nat, full: bool, counts: Counts)

  ghost predicate GatheredOk(cfg: Config, g: Gathered, round: int, rows: seq<Row<FirstTx>>, used: int) {
    && g.count <= |rows|
    && (var taken := Values(rows)[..g.count];
        && g.space == used + Sum(FirstSizes(taken))
        && g.wait == FirstWaits(round, taken)
        && g.lastRowId == LastTaken(rows, g.count)
        && CountsOk(cfg, g.counts, taken))
  }

  lemma GatherOne(cfg: Config, g: Gathered, round: int, rows: seq<Row<FirstTx>>, used: int, counts: Counts)
    requires GatheredOk(cfg, g, round, rows, used) && g.count < |rows|
    requires CountsOk(cfg, counts, Values(rows)[..g.count] + [rows[g.count].value])
    ensures var tx := rows[g.count].value;
      GatheredOk(cfg, Gathered(g.space + tx.size, g.wait + round - tx.issued, rows[g.count].rowId, g.count + 1,
                               g.full, counts), round, rows, used)
  {
    var taken, next := Values(rows)[..g.count], Values(rows)[..g.count + 1];
    assert next == taken + [rows[g.count].value];
    assert next[..|next| - 1] == taken;
    assert FirstSizes(next)[..g.count] == FirstSizes(taken) && FirstSizes(next)[..|next|] == FirstSizes(next);
    SumPrefixStep(FirstSizes(next), g.count);
  }

  /** The packing loop over the rows of FirstQueue; commits publish their agreement at once. */
  method ScanFirst(
    cfg: Config, round: int, rows: seq<Row<FirstTx>>, used: int, budget: int, agreements: seq<Agreement>)
    returns (g: Gathered, agreements': seq<Agreement>)
    ensures GatheredOk(cfg, g, round, rows, used)
    ensures g.count == FitCount(FirstSizes(Values(rows)), used, budget)
    ensures g.full <==> g.count < |rows|
    ensures agreements' == Publish(round, agreements, Values(rows)[..g.count])
  {
    g := Gathered(used, 0, 0, 0, false, Counts(0, 0, 0, 0, 0, 0));
    agreements' := agreements;
    while g.count < |rows| && !g.full
      invariant Scanned(cfg, g, round, rows, used, budget, agreements, agreements')
      decreases |rows| - g.count, !g.full
    {
      g, agreements' := ScanOne(cfg, g, round, rows, used, budget, agreements, agreements');
    }
  }

  /** Where the packing loop stands: a fitting prefix is taken, and its agreements are published. */
  ghost predicate Scanned(cfg: Config, g: Gathered, round: int, rows: seq<Row<FirstTx>>, used: int, budget: int,
                          start: seq<Agreement>, now: seq<Agreement>) {
    var fit := FitCount(FirstSizes(Values(rows)), used, budget);
    && g.count <= fit && GatheredOk(cfg, g, round, rows, used)
    && (g.full ==> g.count == fit < |rows|)
    && now == Publish(round, start, Values(rows)[..g.count])
  }

  /** One row: taken if it fits, otherwise the block is full. */
  method ScanOne(
    cfg: Config, g: Gathered, round: int, rows: seq<Row<FirstTx>>, ghost used: int, budget: int,
    ghost start: seq<Agreement>, now: seq<Agreement>)
    returns (g': Gathered, next: seq<Agreement>)
    requires g.count < |rows| && !g.full && Scanned(cfg, g, round, rows, used, budget, start, now)
    ensures Scanned(cfg, g', round, rows, used, budget, start, next)
    ensures if g'.full then g'.count == g.count else g'.count == g.count + 1
  {
    var tx := rows[g.count].value;
    ghost var values := Values(rows);
    FitCountAt(FirstSizes(values), used, budget, g.count);
    assert FirstSizes(values)[..g.count] == FirstSizes(values[..g.count]);
    if g.space + tx.size <= budget {
      var counts := CountTx(cfg, g.counts, tx, values[..g.count]);
      GatherOne(cfg, g, round, rows, used, counts);
      next := PublishOne(round, start, now, values[..g.count], tx);
      assert values[..g.count] + [tx] == values[..g.count + 1];
      g' := Gathered(g.space + tx.size, g.wait + round - tx.issued, rows[g.count].rowId, g.count + 1, false, counts);
    } else {
      g', next := g.(full := true), now;
    }
  }

  /** The update statement keyed by ServAgrId. */
  method PublishOne(
    round: int, ghost start: seq<Agreement>, now: seq<Agreement>, ghost taken: seq<FirstTx>, tx: FirstTx)
    returns (next: seq<Agreement>)
    requires now == Publish(round, start, taken)
    ensures next == Publish(round, start, taken + [tx])
  {
    next := now;
    if tx.kind.Commit? && 1 <= tx.agr <= |now| {
      next := now[tx.agr - 1 := now[tx.agr - 1].(published := true, started := round)];
    }
    assert (taken + [tx])[..|taken|] == taken;
  }

  /** Taking regular payments. */
  method TakePayments(cfg: Config, round: int, queue: seq<Row<PayTx>>)
    returns (rest: seq<Row<PayTx>>, wait: int, space: int, count: nat, full: bool)
    requires Ordered(queue)
    ensures var pays := PayPack(cfg, queue);
      && rest == queue[|pays|..]
      && wait == PayWaits(round, pays)
      && space == Sum(PaySizes(pays)) && count == |pays|
      && (full <==> |pays| < |First(queue)|)
  {
    var lastRowId;
    space, wait, lastRowId, count, full := ScanPayments(cfg, round, First(queue));
    DeleteRemovesTaken(queue, count);
    rest := DeleteUpTo(queue, lastRowId);
  }

  /** Popping at most one sync transaction. */
  method PopSync(queue: seq<Row<FirstTx>>) returns (rest: seq<Row<FirstTx>>, used: int, syncs: nat, scPors: int)
    ensures var sync := SyncPack(queue);
      && rest == queue[|sync|..]
      && used == Sum(FirstSizes(sync)) && syncs == |sync| && scPors == SumAgr(sync)
  {
    rest, used, syncs, scPors := queue, 0, 0, 0;
    if queue != [] {
      var x := queue[0].value;
      assert FirstSizes([x]) == [x.size] && Sum([x.size]) == x.size + Sum([]);
      assert [x][..0] == [] && SumAgr([x]) == SumAgr([]) + x.agr;
      rest, used, syncs, scPors := queue[1..], x.size, 1, x.agr;
    }
  }

  /** Taking all other transactions. */
  method TakeOthers(
    cfg: Config, round: int, queue: seq<Row<FirstTx>>, used: int, budget: int, agreements: seq<Agreement>)
    returns (rest: seq<Row<FirstTx>>, agreements': seq<Agreement>, g: Gathered)
    requires Ordered(queue)
    ensures var txs := FirstPack(queue, used, budget);
      && rest == queue[|txs|..]
      && agreements' == Publish(round, agreements, txs)
      && g.wait == FirstWaits(round, txs)
      && g.space == used + Sum(FirstSizes(txs)) && (g.full <==> |txs| < |First(queue)|)
      && CountsOk(cfg, g.counts, txs)
  {
    g, agreements' := ScanFirst(cfg, round, First(queue), used, budget, agreements);
    DeleteRemovesTaken(queue, g.count);
    rest := DeleteUpTo(queue, g.lastRowId);
  }

  lemma PackParts(cfg: Config, s: State, p: Packed)
    requires p == Pack(cfg, s)
    ensures p.pays == PayPack(cfg, s.secondQueue) && p.paySpace == Sum(PaySizes(p.pays))
    ensures p.regFull <==> |p.pays| < |First(s.secondQueue)|
    ensures p.sync == SyncPack(s.syncQueue)
    ensures var used := Sum(FirstSizes(p.sync));
      && p.txs == FirstPack(s.firstQueue, used, cfg.blockSize - cfg.blockOverhead - p.paySpace)
      && p.txSpace == used + Sum(FirstSizes(p.txs))
    ensures p.blockFull <==> |p.txs| < |First(s.firstQueue)|
  {
  }

  lemma TakeParts(cfg: Config, s: State, p: Packed) returns (t: State)
    requires p == Pack(cfg, s)
    ensures t == Ledger.Take(cfg, s)
    ensures |p.pays| <= |s.secondQueue| && |p.sync| <= |s.syncQueue| && |p.txs| <= |s.firstQueue|
    ensures t == s.(
      secondQueue := s.secondQueue[|p.pays|..], syncQueue := s.syncQueue[|p.sync|..],
      firstQueue := s.firstQueue[|p.txs|..], agreements := Publish(s.mcRound, s.agreements, p.txs),
      rounds := FillRows(cfg, s.rounds, s.mcRound, p), firstWait := FirstWaits(s.mcRound, p.txs),
      secondWait := PayWaits(s.mcRound, p.pays), history := t.history)
  {
    t := Ledger.Take(cfg, s);
  }

  /** All queues in turn, and the statistics of the round. */
  method FillBlock(
    cfg: Config, ghost s: State, ghost p: Packed, round: int, second: seq<Row<PayTx>>, sync: seq<Row<FirstTx>>,
    first: seq<Row<FirstTx>>, agreements: seq<Agreement>, rounds: seq<RoundRow>)
    returns (second': seq<Row<PayTx>>, secondWait: int, sync': seq<Row<FirstTx>>, first': seq<Row<FirstTx>>,
             firstWait: int, agreements': seq<Agreement>, rounds': seq<RoundRow>)
    requires Ordered(first) && Ordered(second)
    requires s.mcRound == round && s.secondQueue == second && s.syncQueue == sync && s.firstQueue == first
    requires s.agreements == agreements && s.rounds == rounds && p == Pack(cfg, s)
    ensures Ledger.Take(cfg, s) == s.(
      secondQueue := second', syncQueue := sync', firstQueue := first', agreements := agreements', rounds := rounds',
      firstWait := firstWait, secondWait := secondWait, history := Ledger.Take(cfg, s).history)
  {
    PackParts(cfg, s, p);
    var paySpace, payCount, payFull;
    second', secondWait, paySpace, payCount, payFull := TakePayments(cfg, round, second);
    var used, syncs, scPors;
    sync', used, syncs, scPors := PopSync(sync);
    var g;
    first', agreements', g :=
      TakeOthers(cfg, round, first, used, cfg.blockSize - cfg.blockOverhead - paySpace, agreements);
    firstWait := g.wait;
    rounds' := FillRow(cfg, rounds, round, p, payFull, g.full, g.space + paySpace + cfg.blockOverhead,
                       payCount, syncs, scPors, g.counts);
    var t := TakeParts(cfg, s, p);
  }

  /** Taking proofs. */
  method TakePors(
    cfg: Config, mcRound: int, scRound: int, queue: seq<Row<PorTx>>, budget: int, summary: map<int, int>)
    returns (rest: seq<Row<PorTx>>, g: SideTaken)
    requires cfg.Valid() && Ordered(queue)
    ensures var txs := PorPack(queue, budget);
      && rest == queue[|txs|..]
      && g.space == Sum(PorSizes(txs)) && g.wait == SideWaits(cfg, mcRound, scRound, txs)
      && g.count == |txs| && g.summary == AddPors(summary, txs)
      && (g.full <==> |txs| < |First(queue)|)
  {
    g := ScanSide(cfg, mcRound, scRound, First(queue), budget, summary);
    DeleteRemovesTaken(queue, g.count);
    rest := DeleteUpTo(queue, g.lastRowId);
  }

  /** Filling a meta block. */
  method FillMeta(
    cfg: Config, overhead: int, mcRound: int, scRound: int, queue: seq<Row<PorTx>>,
    summary: map<int, int>, rows: seq<SideRow>)
    returns (queue': seq<Row<PorTx>>, summary': map<int, int>, wait: int, rows': seq<SideRow>)
    requires cfg.Valid() && Ordered(queue)
    ensures var txs := PorPack(queue, cfg.scBlockSize - overhead);
      && queue' == queue[|txs|..] && summary' == AddPors(summary, txs)
      && wait == SideWaits(cfg, mcRound, scRound, txs)
      && rows' == MetaRows(rows, scRound, Sum(PorSizes(txs)) + overhead, |txs|, |First(queue)|)
  {
    var g;
    queue', g := TakePors(cfg, mcRound, scRound, queue, cfg.scBlockSize - overhead, summary);
    summary', wait := g.summary, g.wait;
    rows' := UpdateSideRows(rows, scRound, g.full, g.space + overhead, g.count, |First(queue)|);
  }

  /** The two updates of the side chain's round table. */
  method UpdateSideRows(rows: seq<SideRow>, number: int, full: bool, size: int, count: nat, offered: nat)
    returns (r: seq<SideRow>)
    requires count <= offered && (full <==> count < offered)
    ensures r == MetaRows(rows, number, size, count, offered)
  {
    r := rows;
    if full {
      r := MarkFull(r, number);
    }
    r := SetLast(r, number, size, count, offered - count);
  }

  class Store {
    var mcRound: int
    var scRound: int
    var agreements: seq<Agreement>
    var firstQueue: seq<Row<FirstTx>>
    var secondQueue: seq<Row<PayTx>>
    var syncQueue: seq<Row<FirstTx>>
    var scQueue: seq<Row<PorTx>>
    var rounds: seq<RoundRow>
    var sideRounds: seq<SideRow>
    var summary: map<int, int>
    var firstWait: int
    var secondWait: int
    var sideWait: int
    ghost var history: History

    ghost function View(): State
      reads this
    {
      State(mcRound, scRound, agreements, firstQueue, secondQueue, syncQueue, scQueue, rounds, sideRounds, summary,
            firstWait, secondWait, sideWait, history)
    }

    constructor (durations: seq<int>)
      ensures View() == Init(durations)
      ensures mcRound == 1 && scRound == 1 && summary == map[]
      ensures firstQueue == [] && secondQueue == [] && syncQueue == [] && scQueue == [] && sideRounds == []
      ensures agreements == seq(|durations|, i requires 0 <= i < |durations| => Agreement(durations[i], 0, true, true))
    {
      mcRound, scRound := 1, 1;
      agreements := seq(|durations|, i requires 0 <= i < |durations| => Agreement(durations[i], 0, true, true));
      firstQueue, secondQueue, syncQueue, scQueue := [], [], [], [];
      rounds, sideRounds := [EmptyRow(0), EmptyRow(1)], [];
      summary := map[];
      firstWait, secondWait, sideWait := 0, 0, 0;
      history := Init(durations).history;
    }

    /** updateMainChainBCTransactionQueueCollect */
    method Collect(cfg: Config, pay: nat)
      requires cfg.Valid()
      modifies this
      ensures View() == Ledger.Collect(cfg, old(View()), pay)
    {
      ghost var spec := Ledger.Collect(cfg, View(), pay);
      var mcTxs, scTxs, pays;
      mcTxs, scTxs, agreements := CollectRows(cfg, mcRound, scRound, agreements);
      firstQueue := BulkInsert(firstQueue, mcTxs);
      scQueue := BulkInsert(scQueue, scTxs);
      pays := DrawPayments(cfg, mcRound, pay);
      secondQueue := BulkInsert(secondQueue, pays);
      history := spec.history;
    }

    /** updateMainChainBCTransactionQueueTake */
    method Take(cfg: Config)
      requires Ordered(firstQueue) && Ordered(secondQueue)
      modifies this
      ensures View() == Ledger.Take(cfg, old(View()))
    {
      ghost var s := View();
      var second, wait2, sync, first, wait1, agreed, rows;
      ghost var h := Ledger.Take(cfg, s).history;
      second, wait2, sync, first, wait1, agreed, rows :=
        FillBlock(cfg, s, Pack(cfg, s), mcRound, secondQueue, syncQueue, firstQueue, agreements, rounds);
      SetQueues(second, wait2, sync, first, wait1);
      agreements, rounds, history := agreed, rows, h;
    }

    method SetQueues(
      second: seq<Row<PayTx>>, wait2: int, sync: seq<Row<FirstTx>>, first: seq<Row<FirstTx>>, wait1: int)
      modifies this`secondQueue, this`secondWait, this`syncQueue, this`firstQueue, this`firstWait
      ensures View() == old(View()).(
        secondQueue := second, secondWait := wait2, syncQueue := sync, firstQueue := first, firstWait := wait1)
    {
      secondQueue, secondWait, syncQueue, firstQueue, firstWait := second, wait2, sync, first, wait1;
    }

    /** updateSideChainBCRound */
    method InsertSideRow(size: int)
      modifies this`sideRounds
      ensures View() == Ledger.InsertSideRow(old(View()), size)
    {
      sideRounds := sideRounds + [SideRow(scRound, size, 0, false, 0, mcRound)];
    }

    /** updateSideChainBCTransactionQueueTake */
    method TakeSide(cfg: Config, overhead: int)
      requires cfg.Valid() && Ordered(scQueue)
      modifies this
      ensures View() == Ledger.TakeSide(cfg, old(View()), overhead)
    {
      ghost var s := View();
      ghost var h := Ledger.TakeSide(cfg, s, overhead).history;
      var queue, counted, wait, rows :=
        FillMeta(cfg, overhead, mcRound, scRound, scQueue, summary, sideRounds);
      ghost var t := s.(scQueue := queue, summary := counted, sideWait := wait, sideRounds := rows, history := h);
      assert t == Ledger.TakeSide(cfg, s, overhead);
      scQueue, summary, sideWait, sideRounds, history := queue, counted, wait, rows, h;
      assert View() == t;
    }

    /** syncMainChainBCTransactionQueueCollect; the size of the sync transaction depends
        on how many agreements have something to report. */
    method SyncCollect(summarySize: nat -> nat)
      modifies this
      ensures View() == Ledger.SyncCollect(old(View()), summarySize(NonZeros(old(summary), old(summary).Keys)))
    {
      var total, nonZero, drained := DrainSummary(summary);
      var tx := FirstTx(Sync, summarySize(nonZero), mcRound, total);
      summary := drained;
      syncQueue := Insert(syncQueue, tx);
      history := history.(syncIn := history.syncIn + [tx]);
    }

    /** StoragePaymentMainChainBCTransactionQueueCollect */
    method StoragePayments(cfg: Config)
      modifies this
      ensures View() == Ledger.StoragePayments(cfg, old(View()))
    {
      var txs: seq<FirstTx> := [];
      for i := 0 to cfg.hosts
        invariant txs == HostPayments(cfg, mcRound, i)
      {
        var tx := FirstTx(StoragePayment, cfg.storagePaySize, mcRound, i + 1);
        var own: seq<FirstTx> := [];
        while |own| < cfg.contractsPerServer
          invariant |own| <= cfg.contractsPerServer && own == seq(|own|, _ => tx)
        {
          own := own + [tx];
        }
        txs := txs + own;
      }
      firstQueue := BulkInsert(firstQueue, txs);
      history := Ledger.StoragePayments(cfg, old(View())).history;
    }

    /** The BCLock section of a main-chain round. */
    method MainRound(cfg: Config, led: bool, pay: nat)
      requires cfg.Valid() && Fifo(View())
      modifies this
      ensures View() == McRound(cfg, old(View()), led, pay) && Fifo(View())
    {
      ghost var s0 := View();
      NextFifo(cfg, s0, Event.MainRound(led, pay));
      CollectFifo(cfg, InsertRound(s0), pay);
      InsertRow();
      Collect(cfg, pay);
      if led {
        Take(cfg);
      }
      Advance();
    }

    /** updateBCPowerRound */
    method InsertRow()
      modifies this`rounds
      ensures View() == InsertRound(old(View()))
    {
      rounds := rounds + [EmptyRow(mcRound + 1)];
    }

    /** The round counter; the lengths of the queues are recorded. */
    method Advance()
      modifies this`mcRound, this`history
      ensures View() == AdvanceRound(old(View()))
    {
      history := AdvanceRound(View()).history;
      mcRound := mcRound + 1;
    }

    /** The size of a sync transaction depends on how many agreements have something to report. */
    ghost function SyncSize(summarySize: nat -> nat): nat
      reads this
    {
      summarySize(NonZeros(summary, summary.Keys))
    }

    /** The part of SideChainRootPostNewRound for the last round of an epoch. */
    method SummaryBlock(cfg: Config, overhead: int, summarySize: nat -> nat)
      requires cfg.Valid()
      modifies this
      ensures View() == Ledger.SummaryBlock(cfg, old(View()), overhead, old(SyncSize(summarySize)))
    {
      ghost var spec := Ledger.SummaryBlock(cfg, View(), overhead, SyncSize(summarySize));
      SyncCollect(summarySize);
      var blockSize := overhead + syncQueue[|syncQueue| - 1].value.size;
      if cfg.storagePaymentEpoch != 0 && (mcRound / cfg.mcRoundPerEpoch) % cfg.storagePaymentEpoch == 0 {
        StoragePayments(cfg);
      }
      InsertSideRow(blockSize);
      scRound := 1;
      history := spec.history;
    }

    /** The part for all other rounds. */
    method MetaBlock(cfg: Config, overhead: int)
      requires cfg.Valid() && Ordered(scQueue)
      modifies this
      ensures View() == Ledger.MetaBlock(cfg, old(View()), overhead)
    {
      ghost var spec := Ledger.MetaBlock(cfg, View(), overhead);
      InsertSideRow(0);
      TakeSide(cfg, overhead);
      scRound := scRound + 1;
      history := spec.history;
    }

    /** SideChainRootPostNewRound */
    method SideRound(cfg: Config, overhead: int, summarySize: nat -> nat)
      requires cfg.Valid() && Fifo(View())
      modifies this
      ensures View() == ScRound(cfg, old(View()), overhead, old(SyncSize(summarySize)))
      ensures Fifo(View())
    {
      ScRoundFifo(cfg, View(), overhead, SyncSize(summarySize));
      if cfg.mcRoundPerEpoch * (cfg.mcRoundDuration / cfg.scRoundDuration) == scRound {
        SummaryBlock(cfg, overhead, summarySize);
      } else {
        MetaBlock(cfg, overhead);
      }
    }
  }

  /** The three updates of the current round's row. */
  method FillRow(cfg: Config, rounds: seq<RoundRow>, round: int, ghost p: Packed, regFull: bool, blockFull: bool,
                 size: int, regPay: int, syncs: nat, scPors: int, c: Counts) returns (r: seq<RoundRow>)
    requires regFull == p.regFull && blockFull == p.blockFull
    requires size == p.txSpace + p.paySpace + cfg.blockOverhead && regPay == |p.pays|
    requires syncs == |p.sync| && scPors == SumAgr(p.sync) && CountsOk(cfg, c, p.txs)
    ensures r == FillRows(cfg, rounds, round, p)
  {
    r := rounds;
    if regFull {
      r := UpdateRows(r, round, (x: RoundRow) => x.(regFull := true));
    }
    if blockFull {
      r := UpdateRows(r, round, (x: RoundRow) => x.(blockFull := true));
    }
    var total := c.pors + c.storagePays + c.proposes + c.commits + regPay + syncs + c.syncs;
    r := UpdateRows(r, round, (x: RoundRow) =>
      x.(blockSize := size, regPay := regPay, pors := c.pors, storagePays := c.storagePays, proposes := c.proposes,
         commits := c.commits, totalTxs := total, syncTxs := syncs + c.syncs, scPor := scPors + c.syncPors));
  }
}
