/** The queues are first-in first-out over every run, and blocks are packed greedily. */
module LedgerFifo {
  import opened Tables
  import opened Packing
  import opened Ledger

  /** Everything ever enqueued is what has been taken followed by what is still queued. */
  ghost predicate Flow<T>(in_: seq<T>, out: seq<T>, queue: seq<Row<T>>) {
    Ordered(queue) && in_ == out + Values(queue)
  }

  ghost predicate Fifo(s: State) {
    && Flow(s.history.firstIn, s.history.firstOut, s.firstQueue)
    && Flow(s.history.secondIn, s.history.secondOut, s.secondQueue)
    && Flow(s.history.scIn, s.history.scOut, s.scQueue)
    && Flow(s.history.syncIn, s.history.syncOut, s.syncQueue)
  }

  lemma ValuesSplit<T>(t: seq<Row<T>>, k: nat)
    requires k <= |t|
    ensures Values(t) == Values(t[..k]) + Values(t[k..])
  {
  }

  lemma OrderedSuffix<T>(t: seq<Row<T>>, k: nat)
    requires k <= |t| && Ordered(t)
    ensures Ordered(t[k..])
  {
  }

  lemma Regroup<T>(a: seq<T>, b: seq<T>, c: seq<T>)
    ensures a + (b + c) == (a + b) + c
  {
  }

  lemma TakeFlow<T>(in_: seq<T>, out: seq<T>, queue: seq<Row<T>>, taken: seq<T>)
    requires Flow(in_, out, queue)
    requires |taken| <= |queue| && taken == Values(queue[..|taken|])
    ensures Flow(in_, out + taken, queue[|taken|..])
  {
    ValuesSplit(queue, |taken|);
    OrderedSuffix(queue, |taken|);
    Regroup(out, taken, Values(queue[|taken|..]));
  }

  lemma AddFlow<T>(in_: seq<T>, out: seq<T>, queue: seq<Row<T>>, added: seq<T>)
    requires Flow(in_, out, queue)
    ensures Flow(in_ + added, out, InsertAll(queue, added))
  {
    InsertAllKeeps(queue, added);
    Regroup(out, Values(queue), added);
  }

  lemma FirstPrefix<T>(t: seq<Row<T>>, k: nat)
    requires k <= |First(t)|
    ensures k <= |t| && Values(First(t))[..k] == Values(t[..k]) == Values(t)[..k]
  {
  }

  /** What a block takes is a prefix of each queue. */
  lemma PackTakesPrefixes(cfg: Config, s: State)
    ensures var p := Pack(cfg, s);
      && |p.pays| <= |s.secondQueue| && p.pays == Values(s.secondQueue[..|p.pays|])
      && |p.txs| <= |s.firstQueue| && p.txs == Values(s.firstQueue[..|p.txs|])
      && |p.sync| <= |s.syncQueue| && p.sync == Values(s.syncQueue[..|p.sync|])
  {
    var p := Pack(cfg, s);
    FirstPrefix(s.secondQueue, |p.pays|);
    FirstPrefix(s.firstQueue, |p.txs|);
  }

  lemma CollectFifo(cfg: Config, s: State, pay: nat)
    requires cfg.Valid() && Fifo(s)
    ensures Fifo(Collect(cfg, s, pay))
  {
    var n, h := |s.agreements|, s.history;
    AddFlow(h.firstIn, h.firstOut, s.firstQueue, AllFirstTxs(cfg, s.mcRound, s.agreements, n));
    AddFlow(h.scIn, h.scOut, s.scQueue, AllPorTxs(cfg, s.mcRound, s.scRound, s.agreements, n));
    AddFlow(h.secondIn, h.secondOut, s.secondQueue, Payments(cfg, s.mcRound, pay));
  }

  lemma TakeFifo(cfg: Config, s: State)
    requires Fifo(s)
    ensures Fifo(Take(cfg, s))
  {
    var p, h := Pack(cfg, s), s.history;
    PackTakesPrefixes(cfg, s);
    TakeFlow(h.secondIn, h.secondOut, s.secondQueue, p.pays);
    TakeFlow(h.firstIn, h.firstOut, s.firstQueue, p.txs);
    TakeFlow(h.syncIn, h.syncOut, s.syncQueue, p.sync);
  }

  lemma TakeSideFifo(cfg: Config, s: State, overhead: int)
    requires cfg.Valid() && Fifo(s)
    ensures Fifo(TakeSide(cfg, s, overhead))
  {
    var txs := SidePack(cfg, s, overhead);
    FirstPrefix(s.scQueue, |txs|);
    TakeFlow(s.history.scIn, s.history.scOut, s.scQueue, txs);
  }

  lemma MetaBlockFifo(cfg: Config, s: State, overhead: int)
    requires cfg.Valid() && Fifo(s)
    ensures Fifo(MetaBlock(cfg, s, overhead))
  {
    var s0 := InsertSideRow(s, 0);
    assert Fifo(s0);
    TakeSideFifo(cfg, s0, overhead);
  }

  lemma SummaryBlockFifo(cfg: Config, s: State, overhead: int, syncSize: nat)
    requires cfg.Valid() && Fifo(s)
    ensures Fifo(SummaryBlock(cfg, s, overhead, syncSize))
  {
    var tx := FirstTx(Sync, syncSize, s.mcRound, Total(s.summary));
    AddFlow(s.history.syncIn, s.history.syncOut, s.syncQueue, [tx]);
    assert InsertAll(s.syncQueue, [tx]) == InsertAll(Insert(s.syncQueue, tx), []);
    AddFlow(s.history.firstIn, s.history.firstOut, s.firstQueue, HostPayments(cfg, s.mcRound, cfg.hosts));
  }

  lemma ScRoundFifo(cfg: Config, s: State, overhead: int, syncSize: nat)
    requires cfg.Valid() && Fifo(s)
    ensures Fifo(ScRound(cfg, s, overhead, syncSize))
  {
    SummaryBlockFifo(cfg, s, overhead, syncSize);
    MetaBlockFifo(cfg, s, overhead);
  }

  lemma NextFifo(cfg: Config, s: State, e: Event)
    requires cfg.Valid() && Fifo(s)
    ensures Fifo(Next(cfg, s, e))
  {
    match e
    case MainRound(led, pay) =>
      var s1 := InsertRound(s);
      CollectFifo(cfg, s1, pay);
      TakeFifo(cfg, Collect(cfg, s1, pay));
    case SideRound(overhead, syncSize) =>
      ScRoundFifo(cfg, s, overhead, syncSize);
  }

  /** In every run, each queue's enqueued history is its taken history followed by its
      current contents. */
  lemma {:induction false} FifoInEveryRun(cfg: Config, durations: seq<int>, events: seq<Event>)
    requires cfg.Valid()
    ensures Fifo(Exec(cfg, Init(durations), events))
    decreases |events|
  {
    if events != [] {
      FifoInEveryRun(cfg, durations, events[..|events| - 1]);
      NextFifo(cfg, Exec(cfg, Init(durations), events[..|events| - 1]), events[|events| - 1]);
    }
  }

  /** A block takes the longest fitting prefix of the first 5000 rows of each queue. */
  lemma LongestPrefixTaken(cfg: Config, s: State, k: nat)
    requires k >= 1
    ensures var p := Pack(cfg, s);
      && (k <= |First(s.firstQueue)| ==>
           (Sum(FirstSizes(p.sync)) + Sum(FirstSizes(Values(First(s.firstQueue))[..k]))
              <= cfg.blockSize - cfg.blockOverhead - p.paySpace
            <==> k <= |p.txs|))
      && (k <= |First(s.secondQueue)| ==>
           (100 * Sum(PaySizes(Values(First(s.secondQueue))[..k]))
              <= cfg.payPercent * (cfg.blockSize - cfg.blockOverhead)
            <==> k <= |p.pays|))
  {
    var p := Pack(cfg, s);
    var rows, pays := Values(First(s.firstQueue)), Values(First(s.secondQueue));
    if k <= |rows| {
      assert FirstSizes(rows)[..k] == FirstSizes(rows[..k]);
      var budget := cfg.blockSize - cfg.blockOverhead - p.paySpace;
      LongestFittingPrefix(FirstSizes(rows), Sum(FirstSizes(p.sync)), budget, k);
    }
    if k <= |pays| {
      assert PaySizes(pays)[..k] == PaySizes(pays[..k]);
      LongestFittingPrefix(PaySizes(pays), 0, PayBudget(cfg), k);
    }
  }

  /** Payments stay within their percentage; the block stays within its size exactly
      when the popped sync transaction fits the share the payments leave. */
  lemma BlockBounds(cfg: Config, s: State)
    ensures var p := Pack(cfg, s);
      && (p.pays != [] ==> 100 * p.paySpace <= cfg.payPercent * (cfg.blockSize - cfg.blockOverhead))
      && (p.txSpace + p.paySpace + cfg.blockOverhead <= cfg.blockSize
          <==> Sum(FirstSizes(p.sync)) <= cfg.blockSize - cfg.blockOverhead - p.paySpace)
  {
    var p := Pack(cfg, s);
    if p.pays != [] {
      LongestPrefixTaken(cfg, s, |p.pays|);
    }
    if p.txs != [] {
      LongestPrefixTaken(cfg, s, |p.txs|);
    }
  }

  /** The size limit can be broken: nothing tests a sync transaction before it is added. */
  lemma OversizedSyncOverflowsBlock(cfg: Config, s: State)
    requires s.syncQueue != [] && s.syncQueue[0].value.size > cfg.blockSize - cfg.blockOverhead
    ensures var p := Pack(cfg, s); p.txSpace + p.paySpace + cfg.blockOverhead > cfg.blockSize
  {
    BlockBounds(cfg, s);
    var x := s.syncQueue[0].value;
    assert FirstSizes([x]) == [x.size] && Sum([x.size]) == x.size + Sum([]);
  }

  /** A meta block takes the longest fitting prefix of the first 5000 queued proofs. */
  lemma LongestSidePrefixTaken(cfg: Config, s: State, overhead: int, k: nat)
    requires 1 <= k <= |First(s.scQueue)|
    ensures Sum(PorSizes(Values(First(s.scQueue))[..k])) + overhead <= cfg.scBlockSize
            <==> k <= |SidePack(cfg, s, overhead)|
  {
    var rows := Values(First(s.scQueue));
    assert PorSizes(rows)[..k] == PorSizes(rows[..k]);
    LongestFittingPrefix(PorSizes(rows), 0, cfg.scBlockSize - overhead, k);
  }
}
