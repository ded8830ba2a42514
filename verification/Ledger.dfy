/**
The two-chain ledger kept by the root node: the tables, and each section that runs
under `BCLock` as a function from one ledger state to the next.
*/
module Ledger {
  import opened Tables
  import opened Packing

  datatype Kind = Propose | Commit | StoragePayment | Por | Sync

  /** A row of FirstQueue or SyncTxQueue; for a Sync transaction `agr` is the number of
      proofs it summarises. */
  datatype FirstTx = FirstTx(kind: Kind, size: nat, issued: int, agr: int)

  datatype PayTx = PayTx(size: nat, issued: int)

  datatype PorTx = PorTx(size: nat, issuedSc: int, agr: int, epoch: int)

  /** A row of MarketMatching; row i has ServAgrId i + 1. */
  datatype Agreement = Agreement(duration: int, started: int, published: bool, txIssued: bool)

  datatype RoundRow = RoundRow(
    number: int, blockSize: int, regPay: int, pors: int, storagePays: int, proposes: int, commits: int,
    totalTxs: int, syncTxs: int, scPor: int, regFull: bool, blockFull: bool)

  /** A row of the side chain's round table; its numbers start again with every epoch. */
  datatype SideRow = SideRow(number: int, blockSize: int, pors: int, full: bool, queueFill: int, mcRound: int)

  datatype Config = Config(
    simState: int,
    blockSize: int, blockOverhead: int, payPercent: int,
    scBlockSize: int,
    proposeSize: nat, commitSize: nat, storagePaySize: nat, porSize: nat, paySize: nat,
    mcRoundPerEpoch: int, scRoundPerEpoch: int, mcRoundDuration: int, scRoundDuration: int,
    storagePaymentEpoch: int, hosts: nat, contractsPerServer: nat)
  {
    /** The divisors the code uses without a test. */
    predicate Valid() {
      mcRoundPerEpoch > 0 && scRoundPerEpoch > 0 && scRoundDuration > 0 && mcRoundDuration >= 0
    }

    /** The side-chain round number that carries the summary block. */
    function SummaryRound(): int
      requires Valid()
    {
      mcRoundPerEpoch * (mcRoundDuration / scRoundDuration)
    }
  }

  /** What has happened so far; no decision depends on it. */
  datatype History = History(
    firstIn: seq<FirstTx>, firstOut: seq<FirstTx>,
    secondIn: seq<PayTx>, secondOut: seq<PayTx>,
    syncIn: seq<FirstTx>, syncOut: seq<FirstTx>,
    scIn: seq<PorTx>, scOut: seq<PorTx>,
    firstWaits: int, firstLengths: int, secondWaits: int, secondLengths: int,
    expired: seq<int>, committed: seq<int>,
    metaBlocks: nat, summaryBlocks: nat,
    sideFull: seq<bool>)    // for every side-chain round: its block had no room for a queued proof

  datatype State = State(
    mcRound: int, scRound: int,
    agreements: seq<Agreement>,
    firstQueue: seq<Row<FirstTx>>, secondQueue: seq<Row<PayTx>>, syncQueue: seq<Row<FirstTx>>,
    scQueue: seq<Row<PorTx>>,
    rounds: seq<RoundRow>, sideRounds: seq<SideRow>,
    summary: map<int, int>,
    firstWait: int, secondWait: int, sideWait: int,
    history: History)

  function EmptyRow(number: int): RoundRow {
    RoundRow(number, 0, 0, 0, 0, 0, 0, 0, 0, 0, false, false)
  }

  /** The ledger after initialisation: every agreement active since round 0. */
  function Init(durations: seq<int>): State {
    var n := |durations|;
    State(1, 1, seq(n, i requires 0 <= i < n => Agreement(durations[i], 0, true, true)),
          [], [], [], [], [EmptyRow(0), EmptyRow(1)], [], map[], 0, 0, 0,
          History([], [], [], [], [], [], [], [], 0, 0, 0, 0, seq(n, _ => 0), seq(n, _ => 0), 0, 0, []))
  }

  // ------------------------------------------------------------ collecting transactions

  predicate Issues(a: Agreement) {
    !a.published && !a.txIssued
  }

  predicate Expires(round: int, a: Agreement) {
    round - a.started > a.duration && a.published && a.txIssued
  }

  predicate Proves(round: int, a: Agreement) {
    !Issues(a) && !Expires(round, a) && a.published && round - a.started <= a.duration
  }

  function Collected(round: int, a: Agreement): Agreement {
    if Issues(a) then a.(txIssued := true)
    else if Expires(round, a) then a.(published := false, txIssued := false)
    else a
  }

  /** What row i of MarketMatching adds to the main chain's first queue. */
  function FirstTxsOf(cfg: Config, round: int, i: nat, a: Agreement): seq<FirstTx> {
    if Issues(a) then
      [FirstTx(Propose, cfg.proposeSize, round, i + 1), FirstTx(Commit, cfg.commitSize, round, i + 1)]
    else if Expires(round, a) then
      if cfg.storagePaymentEpoch == 0 then [FirstTx(StoragePayment, cfg.storagePaySize, round, i + 1)] else []
    else if Proves(round, a) && cfg.simState == 1 then
      [FirstTx(Por, cfg.porSize, round, i + 1)]
    else []
  }

  function PorTxsOf(cfg: Config, round: int, scRound: int, i: nat, a: Agreement): seq<PorTx>
    requires cfg.Valid()
  {
    if Proves(round, a) && cfg.simState == 2 then
      var epoch := if round != 1 then (round - 2) / cfg.mcRoundPerEpoch else -1;
      var issuedSc := (scRound - 1) % cfg.scRoundPerEpoch;
      [PorTx(cfg.porSize, if issuedSc == 0 then cfg.scRoundPerEpoch else issuedSc, i + 1, epoch)]
    else []
  }

  function AllFirstTxs(cfg: Config, round: int, agreements: seq<Agreement>, n: nat): seq<FirstTx>
    requires n <= |agreements|
  {
    if n == 0 then [] else
      AllFirstTxs(cfg, round, agreements, n - 1) + FirstTxsOf(cfg, round, n - 1, agreements[n - 1])
  }

  function AllPorTxs(cfg: Config, round: int, scRound: int, agreements: seq<Agreement>, n: nat): seq<PorTx>
    requires cfg.Valid() && n <= |agreements|
  {
    if n == 0 then [] else
      AllPorTxs(cfg, round, scRound, agreements, n - 1) + PorTxsOf(cfg, round, scRound, n - 1, agreements[n - 1])
  }

  function Payments(cfg: Config, round: int, n: nat): seq<PayTx> {
    seq(n, _ => PayTx(cfg.paySize, round))
  }

  /** updateMainChainBCTransactionQueueCollect; `pay` is the number of regular payments drawn. */
  function Collect(cfg: Config, s: State, pay: nat): State
    requires cfg.Valid()
  {
    var n := |s.agreements|;
    var first := AllFirstTxs(cfg, s.mcRound, s.agreements, n);
    var pors := AllPorTxs(cfg, s.mcRound, s.scRound, s.agreements, n);
    var pays := Payments(cfg, s.mcRound, pay);
    s.(agreements := seq(n, i requires 0 <= i < n => Collected(s.mcRound, s.agreements[i])),
       firstQueue := InsertAll(s.firstQueue, first),
       scQueue := InsertAll(s.scQueue, pors),
       secondQueue := InsertAll(s.secondQueue, pays),
       history := s.history.(
         firstIn := s.history.firstIn + first,
         scIn := s.history.scIn + pors,
         secondIn := s.history.secondIn + pays,
         expired := CountExpired(s.mcRound, s.agreements, s.history.expired)))
  }

  function CountExpired(round: int, agreements: seq<Agreement>, counts: seq<int>): seq<int> {
    seq(|counts|, i requires 0 <= i < |counts| =>
      counts[i] + if i < |agreements| && !Issues(agreements[i]) && Expires(round, agreements[i]) then 1 else 0)
  }

  // ------------------------------------------------------------ filling a main-chain block

  function FirstSizes(txs: seq<FirstTx>): (r: seq<nat>)
    ensures |r| == |txs|
  {
    seq(|txs|, i requires 0 <= i < |txs| => txs[i].size)
  }

  function PaySizes(txs: seq<PayTx>): (r: seq<nat>)
    ensures |r| == |txs|
  {
    seq(|txs|, i requires 0 <= i < |txs| => txs[i].size)
  }

  /** The rounds a list of transactions has waited, added up. */
  function Waits<T>(round: int, txs: seq<T>, issued: T -> int): int {
    if txs == [] then 0 else Waits(round, txs[..|txs| - 1], issued) + (round - issued(txs[|txs| - 1]))
  }

  function FirstIssued(tx: FirstTx): int { tx.issued }

  function PayIssued(tx: PayTx): int { tx.issued }

  function FirstWaits(round: int, txs: seq<FirstTx>): int {
    Waits(round, txs, FirstIssued)
  }

  function PayWaits(round: int, txs: seq<PayTx>): int {
    Waits(round, txs, PayIssued)
  }

  /** How many commit transactions for agreement `id` a list holds. */
  function CommitsOf(txs: seq<FirstTx>, id: int): nat {
    if txs == [] then 0 else
      CommitsOf(txs[..|txs| - 1], id) + (if txs[|txs| - 1].kind.Commit? && txs[|txs| - 1].agr == id then 1 else 0)
  }

  function CountKind(txs: seq<FirstTx>, kind: Kind): nat {
    if txs == [] then 0 else
      CountKind(txs[..|txs| - 1], kind) + (if txs[|txs| - 1].kind == kind then 1 else 0)
  }

  /** The proofs summarised by the Sync transactions of a list. */
  function SyncPors(txs: seq<FirstTx>): int {
    if txs == [] then 0 else
      SyncPors(txs[..|txs| - 1]) + (if txs[|txs| - 1].kind.Sync? then txs[|txs| - 1].agr else 0)
  }

  /** Publishing the agreements whose commit transaction entered the block. */
  function Publish(round: int, agreements: seq<Agreement>, taken: seq<FirstTx>): (r: seq<Agreement>)
    ensures |r| == |agreements|
  {
    seq(|agreements|, i requires 0 <= i < |agreements| =>
      if CommitsOf(taken, i + 1) > 0 then agreements[i].(published := true, started := round) else agreements[i])
  }

  /** The regular payments and other transactions that enter the block of this round. */
  datatype Packed = Packed(
    pays: seq<PayTx>, regFull: bool, paySpace: int,
    sync: seq<FirstTx>, txs: seq<FirstTx>, blockFull: bool, txSpace: int)

  function PayBudget(cfg: Config): int {
    (cfg.payPercent * (cfg.blockSize - cfg.blockOverhead)) / 100
  }

  function PayPack(cfg: Config, queue: seq<Row<PayTx>>): (txs: seq<PayTx>)
    ensures |txs| <= |First(queue)|
  {
    var rows := Values(First(queue));
    rows[..FitCount(PaySizes(rows), 0, PayBudget(cfg))]
  }

  function SyncPack(queue: seq<Row<FirstTx>>): seq<FirstTx> {
    if queue == [] then [] else [queue[0].value]
  }

  function FirstPack(queue: seq<Row<FirstTx>>, used: int, budget: int): (txs: seq<FirstTx>)
    ensures |txs| <= |First(queue)|
  {
    var rows := Values(First(queue));
    rows[..FitCount(FirstSizes(rows), used, budget)]
  }

  /** The content of the next block. */
  function Pack(cfg: Config, s: State): Packed {
    var pays := PayPack(cfg, s.secondQueue);
    var paySpace := Sum(PaySizes(pays));
    var sync := SyncPack(s.syncQueue);
    var used := Sum(FirstSizes(sync));
    var txs := FirstPack(s.firstQueue, used, cfg.blockSize - cfg.blockOverhead - paySpace);
    Packed(pays, |pays| < |First(s.secondQueue)|, paySpace,
           sync, txs, |txs| < |First(s.firstQueue)|, used + Sum(FirstSizes(txs)))
  }

  /** Proofs in a main-chain block are counted in the simulation without a side chain only. */
  function CountedPors(cfg: Config, txs: seq<FirstTx>): nat {
    if cfg.simState == 1 then CountKind(txs, Por) else 0
  }

  function Filled(cfg: Config, p: Packed, r: RoundRow): RoundRow {
    r.(blockSize := p.txSpace + p.paySpace + cfg.blockOverhead,
       regPay := |p.pays|,
       pors := CountedPors(cfg, p.txs),
       storagePays := CountKind(p.txs, StoragePayment),
       proposes := CountKind(p.txs, Propose),
       commits := CountKind(p.txs, Commit),
       totalTxs := CountedPors(cfg, p.txs) + CountKind(p.txs, StoragePayment) + CountKind(p.txs, Propose)
                   + CountKind(p.txs, Commit) + |p.pays| + |p.sync| + CountKind(p.txs, Sync),
       syncTxs := |p.sync| + CountKind(p.txs, Sync),
       scPor := SumAgr(p.sync) + SyncPors(p.txs),
       regFull := r.regFull || p.regFull,
       blockFull := r.blockFull || p.blockFull)
  }

  /** The popped sync transaction counts whatever its name. */
  function SumAgr(txs: seq<FirstTx>): int {
    if txs == [] then 0 else SumAgr(txs[..|txs| - 1]) + txs[|txs| - 1].agr
  }

  function UpdateRows(rounds: seq<RoundRow>, number: int, f: RoundRow -> RoundRow): (r: seq<RoundRow>)
    ensures |r| == |rounds|
  {
    seq(|rounds|, i requires 0 <= i < |rounds| => if rounds[i].number == number then f(rounds[i]) else rounds[i])
  }

  function FillRows(cfg: Config, rounds: seq<RoundRow>, number: int, p: Packed): seq<RoundRow> {
    UpdateRows(rounds, number, r => Filled(cfg, p, r))
  }

  /** The state after block content `p` has been taken. */
  function Apply(cfg: Config, s: State, p: Packed): State
    requires |p.pays| <= |s.secondQueue| && |p.sync| <= |s.syncQueue| && |p.txs| <= |s.firstQueue|
  {
    var firstWait := FirstWaits(s.mcRound, p.txs);
    var secondWait := PayWaits(s.mcRound, p.pays);
    s.(secondQueue := s.secondQueue[|p.pays|..],
       syncQueue := s.syncQueue[|p.sync|..],
       firstQueue := s.firstQueue[|p.txs|..],
       agreements := Publish(s.mcRound, s.agreements, p.txs),
       rounds := FillRows(cfg, s.rounds, s.mcRound, p),
       firstWait := firstWait,
       secondWait := secondWait,
       history := s.history.(
         firstOut := s.history.firstOut + p.txs,
         secondOut := s.history.secondOut + p.pays,
         syncOut := s.history.syncOut + p.sync,
         firstWaits := s.history.firstWaits + firstWait,
         secondWaits := s.history.secondWaits + secondWait,
         committed := CountCommitted(p.txs, s.history.committed)))
  }

  /** updateMainChainBCTransactionQueueTake */
  function Take(cfg: Config, s: State): State {
    Apply(cfg, s, Pack(cfg, s))
  }

  function CountCommitted(taken: seq<FirstTx>, counts: seq<int>): seq<int> {
    seq(|counts|, i requires 0 <= i < |counts| => counts[i] + CommitsOf(taken, i + 1))
  }

  // ------------------------------------------------------------ one main-chain round

  /** updateBCPowerRound: the row of the next round. */
  function InsertRound(s: State): State {
    s.(rounds := s.rounds + [EmptyRow(s.mcRound + 1)])
  }

  /** readBCAndSendtoOthers: the round is over. */
  function AdvanceRound(s: State): State {
    s.(mcRound := s.mcRound + 1,
       history := s.history.(
         firstLengths := s.history.firstLengths + |s.firstQueue|,
         secondLengths := s.history.secondLengths + |s.secondQueue|))
  }

  /** The BCLock section of a round; a leaderless round takes nothing. */
  function McRound(cfg: Config, s: State, led: bool, pay: nat): State
    requires cfg.Valid()
  {
    var s1 := Collect(cfg, InsertRound(s), pay);
    AdvanceRound(if led then Take(cfg, s1) else s1)
  }

  // ------------------------------------------------------------ side-chain rounds

  function PorSizes(txs: seq<PorTx>): (r: seq<nat>)
    ensures |r| == |txs|
  {
    seq(|txs|, i requires 0 <= i < |txs| => txs[i].size)
  }

  function AddPors(summary: map<int, int>, txs: seq<PorTx>): map<int, int> {
    if txs == [] then summary else
      var m := AddPors(summary, txs[..|txs| - 1]);
      var id := txs[|txs| - 1].agr;
      m[id := (if id in m then m[id] else 0) + 1]
  }

  function PorPack(queue: seq<Row<PorTx>>, budget: int): (txs: seq<PorTx>)
    ensures |txs| <= |First(queue)|
  {
    var rows := Values(First(queue));
    rows[..FitCount(PorSizes(rows), 0, budget)]
  }

  /** The proofs that enter the next meta block. */
  function SidePack(cfg: Config, s: State, overhead: int): (txs: seq<PorTx>)
    ensures |txs| <= |s.scQueue|
  {
    PorPack(s.scQueue, cfg.scBlockSize - overhead)
  }

  /** updateSideChainBCRound */
  function InsertSideRow(s: State, size: int): State {
    s.(sideRounds := s.sideRounds + [SideRow(s.scRound, size, 0, false, 0, s.mcRound)])
  }

  /** SideChainRoundTableSetBlockSpaceIsFull marks every row with the round's number. */
  function MarkFull(rows: seq<SideRow>, number: int): (r: seq<SideRow>)
    ensures |r| == |rows|
  {
    seq(|rows|, i requires 0 <= i < |rows| => if rows[i].number == number then rows[i].(full := true) else rows[i])
  }

  /** SideChainRoundTableSetFinalRoundInfo writes into the last row with the round's number. */
  function SetLast(rows: seq<SideRow>, number: int, size: int, pors: int, queueFill: int): seq<SideRow> {
    if rows == [] then []
    else
      var n := |rows| - 1;
      if rows[n].number == number then rows[n := rows[n].(blockSize := size, pors := pors, queueFill := queueFill)]
      else SetLast(rows[..n], number, size, pors, queueFill) + [rows[n]]
  }

  /** Division of integers as the code does it, towards zero. */
  function TruncDiv(a: int, b: int): int
    requires b > 0
  {
    if a >= 0 then a / b else -((-a) / b)
  }

  /** The wait of a proof, in the protocol's mixture of units. */
  function SideWaitOf(cfg: Config, mcRound: int, scRound: int, tx: PorTx): int
    requires cfg.Valid()
  {
    scRound - tx.issuedSc + (TruncDiv(mcRound - 2, cfg.mcRoundPerEpoch) - tx.epoch) * cfg.mcRoundDuration
  }

  function SideWaits(cfg: Config, mcRound: int, scRound: int, txs: seq<PorTx>): int
    requires cfg.Valid()
  {
    if txs == [] then 0
    else
      SideWaits(cfg, mcRound, scRound, txs[..|txs| - 1]) + SideWaitOf(cfg, mcRound, scRound, txs[|txs| - 1])
  }

  /** The round table after a meta block with `count` of `offered` proofs. */
  function MetaRows(rows: seq<SideRow>, number: int, size: int, count: nat, offered: nat): seq<SideRow> {
    SetLast(if count < offered then MarkFull(rows, number) else rows, number, size, count, offered - count)
  }

  /** updateSideChainBCTransactionQueueTake */
  function TakeSide(cfg: Config, s: State, overhead: int): State
    requires cfg.Valid()
  {
    var txs := SidePack(cfg, s, overhead);
    s.(scQueue := s.scQueue[|txs|..],
       summary := AddPors(s.summary, txs),
       sideWait := SideWaits(cfg, s.mcRound, s.scRound, txs),
       sideRounds := MetaRows(s.sideRounds, s.scRound, Sum(PorSizes(txs)) + overhead, |txs|, |First(s.scQueue)|),
       history := s.history.(scOut := s.history.scOut + txs))
  }

  ghost function SumOver<K>(m: map<K, int>, keys: set<K>): int
    requires keys <= m.Keys
  {
    if keys == {} then 0 else
      var k :| k in keys;
      m[k] + SumOver(m, keys - {k})
  }

  ghost function Total<K>(m: map<K, int>): int {
    SumOver(m, m.Keys)
  }

  /** syncMainChainBCTransactionQueueCollect: the summary is emptied into one sync
      transaction of `size` bytes. */
  ghost function SyncCollect(s: State, size: nat): State {
    var tx := FirstTx(Sync, size, s.mcRound, Total(s.summary));
    s.(summary := map k | k in s.summary :: 0,
       syncQueue := Insert(s.syncQueue, tx),
       history := s.history.(syncIn := s.history.syncIn + [tx]))
  }

  function HostPayments(cfg: Config, round: int, n: nat): seq<FirstTx> {
    if n == 0 then [] else
      HostPayments(cfg, round, n - 1) +
      seq(cfg.contractsPerServer, _ => FirstTx(StoragePayment, cfg.storagePaySize, round, n))
  }

  /** StoragePaymentMainChainBCTransactionQueueCollect */
  function StoragePayments(cfg: Config, s: State): State {
    var txs := HostPayments(cfg, s.mcRound, cfg.hosts);
    s.(firstQueue := InsertAll(s.firstQueue, txs),
       history := s.history.(firstIn := s.history.firstIn + txs))
  }

  predicate PaysStorageNow(cfg: Config, s: State)
    requires cfg.Valid()
  {
    cfg.storagePaymentEpoch != 0 && (s.mcRound / cfg.mcRoundPerEpoch) % cfg.storagePaymentEpoch == 0
  }

  /** The end of an epoch: the sync transaction, storage payments if due, the table's row. */
  ghost function SummaryBlock(cfg: Config, s: State, overhead: int, syncSize: nat): State
    requires cfg.Valid()
  {
    var s1 := SyncCollect(s, syncSize);
    var s2 := if PaysStorageNow(cfg, s) then StoragePayments(cfg, s1) else s1;
    var s3 := InsertSideRow(s2, overhead + syncSize);
    s3.(scRound := 1,
        history := s3.history.(
          summaryBlocks := s3.history.summaryBlocks + 1, sideFull := s3.history.sideFull + [false]))
  }

  function MetaBlock(cfg: Config, s: State, overhead: int): State
    requires cfg.Valid()
  {
    var full := |SidePack(cfg, s, overhead)| < |First(s.scQueue)|;
    var s1 := TakeSide(cfg, InsertSideRow(s, 0), overhead);
    s1.(scRound := s.scRound + 1,
        history := s1.history.(
          metaBlocks := s1.history.metaBlocks + 1, sideFull := s1.history.sideFull + [full]))
  }

  /** SideChainRootPostNewRound: a summary block in the last round of an epoch, a meta
      block otherwise.  `overhead` is the size of an empty block with its
      signature, `syncSize` the size of the summary transaction. */
  ghost function ScRound(cfg: Config, s: State, overhead: int, syncSize: nat): State
    requires cfg.Valid()
  {
    if s.scRound == cfg.SummaryRound() then SummaryBlock(cfg, s, overhead, syncSize)
    else MetaBlock(cfg, s, overhead)
  }

  /** What a side-chain round leaves alone, and the one thing it may do to the first queue. */
  lemma ScRoundElsewhere(cfg: Config, s: State, overhead: int, syncSize: nat)
    requires cfg.Valid()
    ensures var t := ScRound(cfg, s, overhead, syncSize);
      && t.mcRound == s.mcRound && t.agreements == s.agreements && t.rounds == s.rounds
      && t.secondQueue == s.secondQueue
      && (t.firstQueue == s.firstQueue || t.firstQueue == StoragePayments(cfg, s).firstQueue)
      && t.history.firstWaits == s.history.firstWaits && t.history.firstLengths == s.history.firstLengths
      && t.history.secondWaits == s.history.secondWaits && t.history.secondLengths == s.history.secondLengths
      && t.history.expired == s.history.expired && t.history.committed == s.history.committed
      && t.history.firstOut == s.history.firstOut && t.history.secondOut == s.history.secondOut
      && t.history.syncOut == s.history.syncOut
  {
  }

  // ------------------------------------------------------------ runs

  datatype Event =
    | MainRound(led: bool, pay: nat)
    | SideRound(overhead: int, syncSize: nat)

  ghost function Next(cfg: Config, s: State, e: Event): State
    requires cfg.Valid()
  {
    match e
    case MainRound(led, pay) => McRound(cfg, s, led, pay)
    case SideRound(overhead, syncSize) => ScRound(cfg, s, overhead, syncSize)
  }

  /** The sections under BCLock, in any order. */
  ghost function Exec(cfg: Config, s: State, events: seq<Event>): State
    requires cfg.Valid()
    decreases |events|
  {
    if events == [] then s else Next(cfg, Exec(cfg, s, events[..|events| - 1]), events[|events| - 1])
  }
}
