/**
What each section of the ledger does, in terms of the rows that come and go: which
transactions an agreement's state brings into the queues, what a block's rows change, and
that no agreement outlives its duration.
*/
module LedgerEffects {
  import opened Packing
  import opened Tables
  import opened Ledger
  import opened LedgerFifo

  /** The transactions of a list that are about agreement `id`. */
  ghost function About<T>(txs: seq<T>, agr: T -> int, id: int): seq<T> {
    if txs == [] then []
    else About(txs[..|txs| - 1], agr, id) + if agr(txs[|txs| - 1]) == id then [txs[|txs| - 1]] else []
  }

  ghost function AgrOfFirst(tx: FirstTx): int {
    tx.agr
  }

  ghost function AgrOfPor(tx: PorTx): int {
    tx.agr
  }

  /** The rows that a table has gained at its end. */
  ghost function Gained<T>(before: seq<Row<T>>, after: seq<Row<T>>): seq<T>
    requires |before| <= |after|
  {
    Values(after)[|before|..]
  }

  lemma {:induction false} AboutAppend<T>(a: seq<T>, b: seq<T>, agr: T -> int, id: int)
    ensures About(a + b, agr, id) == About(a, agr, id) + About(b, agr, id)
    decreases |b|
  {
    if b == [] {
      assert a + b == a;
    } else {
      assert (a + b)[..|a + b| - 1] == a + b[..|b| - 1];
      AboutAppend(a, b[..|b| - 1], agr, id);
    }
  }

  lemma NothingAdded<T>(txs: seq<T>)
    ensures [] + txs == txs && txs + [] == txs
  {
  }

  lemma {:induction false} AboutAll<T>(txs: seq<T>, agr: T -> int, id: int)
    requires forall k :: 0 <= k < |txs| ==> agr(txs[k]) == id
    ensures About(txs, agr, id) == txs
    decreases |txs|
  {
    if txs == [] {
    } else {
      AboutAll(txs[..|txs| - 1], agr, id);
    }
  }

  lemma {:induction false} AboutNone<T>(txs: seq<T>, agr: T -> int, id: int)
    requires forall k :: 0 <= k < |txs| ==> agr(txs[k]) != id
    ensures About(txs, agr, id) == []
    decreases |txs|
  {
    if txs == [] {
    } else {
      AboutNone(txs[..|txs| - 1], agr, id);
    }
  }

  // ---------------------------------------------------------------- collecting

  /** The first `n` lists, one after the other. */
  ghost function Flat<T>(rows: seq<seq<T>>, n: nat): seq<T>
    requires n <= |rows|
  {
    if n == 0 then [] else Flat(rows, n - 1) + rows[n - 1]
  }

  /** Row k holds transactions about agreement k + 1 only. */
  ghost predicate RowsAbout<T>(rows: seq<seq<T>>, agr: T -> int) {
    forall k, x :: 0 <= k < |rows| && 0 <= x < |rows[k]| ==> agr(rows[k][x]) == k + 1
  }

  lemma AboutOneRow<T>(row: seq<T>, agr: T -> int, k: nat, i: nat)
    requires forall x :: 0 <= x < |row| ==> agr(row[x]) == k + 1
    ensures About(row, agr, i + 1) == if i == k then row else []
  {
    if i == k {
      AboutAll(row, agr, i + 1);
    } else {
      AboutNone(row, agr, i + 1);
    }
  }

  /** Of the first `n` rows only row i is about agreement i + 1. */
  lemma ChosenOnce<T>(before: seq<T>, last: seq<T>, own: seq<T>, n: nat, i: nat)
    requires 1 <= n && before == (if i < n - 1 then own else []) && last == if i == n - 1 then own else []
    ensures before + last == if i < n then own else []
  {
  }

  lemma {:induction false} AboutRow<T>(rows: seq<seq<T>>, agr: T -> int, n: nat, i: nat)
    requires RowsAbout(rows, agr) && n <= |rows| && i < |rows|
    ensures About(Flat(rows, n), agr, i + 1) == if i < n then rows[i] else []
  {
    if n == 0 {
    } else {
      AboutRow(rows, agr, n - 1, i);
      AboutOneRow(rows[n - 1], agr, n - 1, i);
      AboutAppend(Flat(rows, n - 1), rows[n - 1], agr, i + 1);
      ChosenOnce(About(Flat(rows, n - 1), agr, i + 1), About(rows[n - 1], agr, i + 1), rows[i], n, i);
    }
  }

  /** Only transactions about the first `n` agreements. */
  ghost predicate AboutSome<T>(txs: seq<T>, agr: T -> int, n: nat) {
    forall k :: 0 <= k < |txs| ==> 1 <= agr(txs[k]) <= n
  }

  lemma {:induction false} FlatAboutSome<T>(rows: seq<seq<T>>, agr: T -> int, n: nat)
    requires RowsAbout(rows, agr) && n <= |rows|
    ensures AboutSome(Flat(rows, n), agr, n)
  {
    if n == 0 {
    } else {
      FlatAboutSome(rows, agr, n - 1);
    }
  }

  ghost function FirstRows(cfg: Config, round: int, agreements: seq<Agreement>): (rows: seq<seq<FirstTx>>)
    ensures |rows| == |agreements| && RowsAbout(rows, AgrOfFirst)
    ensures forall k :: 0 <= k < |rows| ==> rows[k] == FirstTxsOf(cfg, round, k, agreements[k])
  {
    seq(|agreements|, k requires 0 <= k < |agreements| => FirstTxsOf(cfg, round, k, agreements[k]))
  }

  ghost function PorRows(cfg: Config, round: int, scRound: int, agreements: seq<Agreement>): (rows: seq<seq<PorTx>>)
    requires cfg.Valid()
    ensures |rows| == |agreements| && RowsAbout(rows, AgrOfPor)
    ensures forall k :: 0 <= k < |rows| ==> rows[k] == PorTxsOf(cfg, round, scRound, k, agreements[k])
  {
    seq(|agreements|, k requires 0 <= k < |agreements| => PorTxsOf(cfg, round, scRound, k, agreements[k]))
  }

  lemma {:induction false} FirstIsFlat(cfg: Config, round: int, agreements: seq<Agreement>, n: nat)
    requires n <= |agreements|
    ensures AllFirstTxs(cfg, round, agreements, n) == Flat(FirstRows(cfg, round, agreements), n)
  {
    if n == 0 {
    } else {
      FirstIsFlat(cfg, round, agreements, n - 1);
    }
  }

  lemma {:induction false} PorsAreFlat(cfg: Config, round: int, scRound: int, agreements: seq<Agreement>, n: nat)
    requires cfg.Valid() && n <= |agreements|
    ensures AllPorTxs(cfg, round, scRound, agreements, n) == Flat(PorRows(cfg, round, scRound, agreements), n)
  {
    if n == 0 {
    } else {
      PorsAreFlat(cfg, round, scRound, agreements, n - 1);
    }
  }

  /** The proof of agreement `id` that the side chain's queue gets. */
  ghost predicate IsProofOf(cfg: Config, s: State, id: int, tx: PorTx)
    requires cfg.Valid()
  {
    && tx.size == cfg.porSize && tx.agr == id
    && tx.epoch == (if s.mcRound == 1 then -1 else (s.mcRound - 2) / cfg.mcRoundPerEpoch)
    && 1 <= tx.issuedSc <= cfg.scRoundPerEpoch
    && tx.issuedSc % cfg.scRoundPerEpoch == (s.scRound - 1) % cfg.scRoundPerEpoch
  }

  /** Inserting rows gains exactly them. */
  lemma InsertGains<T>(queue: seq<Row<T>>, txs: seq<T>)
    requires Ordered(queue)
    ensures queue <= InsertAll(queue, txs) && Gained(queue, InsertAll(queue, txs)) == txs
  {
    InsertAllKeeps(queue, txs);
  }

  /** The rows that collecting adds: at the end of each table, and about the agreements there are. */
  lemma CollectAppends(cfg: Config, s: State, pay: nat)
    requires cfg.Valid() && Fifo(s)
    ensures var t := Collect(cfg, s, pay);
      && s.firstQueue <= t.firstQueue && s.scQueue <= t.scQueue && s.secondQueue <= t.secondQueue
      && AboutSome(Gained(s.firstQueue, t.firstQueue), AgrOfFirst, |s.agreements|)
      && AboutSome(Gained(s.scQueue, t.scQueue), AgrOfPor, |s.agreements|)
      && |Gained(s.secondQueue, t.secondQueue)| == pay
      && (forall k :: 0 <= k < pay ==> Gained(s.secondQueue, t.secondQueue)[k] == PayTx(cfg.paySize, s.mcRound))
      && t == s.(agreements := t.agreements, firstQueue := t.firstQueue, scQueue := t.scQueue,
                 secondQueue := t.secondQueue, history := t.history)
  {
    var n := |s.agreements|;
    InsertGains(s.firstQueue, AllFirstTxs(cfg, s.mcRound, s.agreements, n));
    InsertGains(s.scQueue, AllPorTxs(cfg, s.mcRound, s.scRound, s.agreements, n));
    InsertGains(s.secondQueue, Payments(cfg, s.mcRound, pay));
    FirstIsFlat(cfg, s.mcRound, s.agreements, n);
    PorsAreFlat(cfg, s.mcRound, s.scRound, s.agreements, n);
    FlatAboutSome(FirstRows(cfg, s.mcRound, s.agreements), AgrOfFirst, n);
    FlatAboutSome(PorRows(cfg, s.mcRound, s.scRound, s.agreements), AgrOfPor, n);
  }

  lemma CollectedRows(cfg: Config, s: State, pay: nat, i: nat)
    requires cfg.Valid() && Fifo(s) && i < |s.agreements|
    ensures var t := Collect(cfg, s, pay);
      && |s.firstQueue| <= |t.firstQueue| && |s.scQueue| <= |t.scQueue|
      && About(Gained(s.firstQueue, t.firstQueue), AgrOfFirst, i + 1)
           == FirstTxsOf(cfg, s.mcRound, i, s.agreements[i])
      && About(Gained(s.scQueue, t.scQueue), AgrOfPor, i + 1)
           == PorTxsOf(cfg, s.mcRound, s.scRound, i, s.agreements[i])
  {
    var n := |s.agreements|;
    InsertGains(s.firstQueue, AllFirstTxs(cfg, s.mcRound, s.agreements, n));
    InsertGains(s.scQueue, AllPorTxs(cfg, s.mcRound, s.scRound, s.agreements, n));
    FirstIsFlat(cfg, s.mcRound, s.agreements, n);
    PorsAreFlat(cfg, s.mcRound, s.scRound, s.agreements, n);
    AboutRow(FirstRows(cfg, s.mcRound, s.agreements), AgrOfFirst, n, i);
    AboutRow(PorRows(cfg, s.mcRound, s.scRound, s.agreements), AgrOfPor, n, i);
  }

  /** What agreement `i` becomes and adds to the queues when transactions are collected. */
  ghost predicate CollectedAs(
    cfg: Config, s: State, id: int, a: Agreement, b: Agreement, mine: seq<FirstTx>, proofs: seq<PorTx>)
    requires cfg.Valid()
  {
    var within := s.mcRound - a.started <= a.duration;
    && b.duration == a.duration && b.started == a.started
    && (!a.published && !a.txIssued ==>
        && !b.published && b.txIssued && proofs == []
        && mine == [FirstTx(Propose, cfg.proposeSize, s.mcRound, id), FirstTx(Commit, cfg.commitSize, s.mcRound, id)])
    && (a.published && a.txIssued && !within ==>
        && !b.published && !b.txIssued && proofs == []
        && mine == if cfg.storagePaymentEpoch == 0
                   then [FirstTx(StoragePayment, cfg.storagePaySize, s.mcRound, id)] else [])
    && (a.published && within ==>
        && b == a
        && mine == (if cfg.simState == 1 then [FirstTx(Por, cfg.porSize, s.mcRound, id)] else [])
        && |proofs| == (if cfg.simState == 2 then 1 else 0)
        && (cfg.simState == 2 ==> IsProofOf(cfg, s, id, proofs[0])))
    && (a.published != a.txIssued && !(a.published && within) ==> b == a && mine == [] && proofs == [])
  }

  lemma OneCollected(cfg: Config, s: State, i: nat, a: Agreement)
    requires cfg.Valid()
    ensures CollectedAs(cfg, s, i + 1, a, Collected(s.mcRound, a), FirstTxsOf(cfg, s.mcRound, i, a),
                        PorTxsOf(cfg, s.mcRound, s.scRound, i, a))
  {
  }

  /**
  What collecting does for one agreement. Expired and nothing issued: it is proposed and
  committed, in this order. Active beyond its duration: it expires, and is paid for at once
  exactly if storage is not paid by epochs. Published within its duration: it stays as it
  is and adds one proof to the queue of the simulated chain. In all other cases nothing
  happens.
  */
  lemma CollectExactly(cfg: Config, s: State, pay: nat, i: nat)
    requires cfg.Valid() && Fifo(s) && i < |s.agreements|
    ensures var t := Collect(cfg, s, pay);
      && |t.agreements| == |s.agreements| && |s.firstQueue| <= |t.firstQueue| && |s.scQueue| <= |t.scQueue|
      && CollectedAs(cfg, s, i + 1, s.agreements[i], t.agreements[i],
                     About(Gained(s.firstQueue, t.firstQueue), AgrOfFirst, i + 1),
                     About(Gained(s.scQueue, t.scQueue), AgrOfPor, i + 1))
  {
    CollectedRows(cfg, s, pay, i);
    OneCollected(cfg, s, i, s.agreements[i]);
  }

  // ---------------------------------------------------------------- no agreement outlives its duration

  /** In the round just over, an agreement still active was within its duration or has begun in it. */
  ghost predicate InTime(s: State, i: nat)
    requires i < |s.agreements|
  {
    var a, last := s.agreements[i], s.mcRound - 1;
    a.published && a.txIssued ==> last - a.started <= a.duration || a.started == last
  }

  ghost predicate AllInTime(s: State) {
    forall i :: 0 <= i < |s.agreements| ==> InTime(s, i)
  }

  ghost predicate HadMainRound(events: seq<Event>) {
    exists k :: 0 <= k < |events| && events[k].MainRound?
  }

  lemma MainRoundInTime(cfg: Config, s: State, led: bool, pay: nat)
    requires cfg.Valid()
    ensures AllInTime(McRound(cfg, s, led, pay))
  {
    var s1 := Collect(cfg, InsertRound(s), pay);
    var t := McRound(cfg, s, led, pay);
    forall i | 0 <= i < |t.agreements| ensures InTime(t, i) {
      assert t.agreements[i].started == s.mcRound || t.agreements[i] == s1.agreements[i];
    }
  }

  /**
  In every run, once there has been a main-chain round: no agreement is active beyond its
  duration, but for one that was committed in the last round whatever its duration is.
  */
  lemma {:induction false} NeverOverdue(cfg: Config, durations: seq<int>, events: seq<Event>)
    requires cfg.Valid() && HadMainRound(events)
    ensures AllInTime(Exec(cfg, Init(durations), events))
    decreases |events|
  {
    var before, last := events[..|events| - 1], events[|events| - 1];
    var s := Exec(cfg, Init(durations), before);
    match last
    case MainRound(led, pay) =>
      MainRoundInTime(cfg, s, led, pay);
    case SideRound(overhead, syncSize) =>
      var k :| 0 <= k < |events| && events[k].MainRound?;
      assert before[k].MainRound?;
      NeverOverdue(cfg, durations, before);
      ScRoundElsewhere(cfg, s, overhead, syncSize);
      var t := Exec(cfg, Init(durations), events);
      forall i | 0 <= i < |t.agreements| ensures InTime(t, i) {
        assert InTime(s, i);
      }
  }

  // ---------------------------------------------------------------- filling a main-chain block

  /** The c-th of these transactions commits agreement `id`. */
  ghost predicate CommitsAt(txs: seq<FirstTx>, c: int, id: int) {
    0 <= c < |txs| && txs[c].kind.Commit? && txs[c].agr == id
  }

  ghost predicate IsCommitted(txs: seq<FirstTx>, id: int) {
    exists c :: CommitsAt(txs, c, id)
  }

  lemma {:induction false} CommitsExist(txs: seq<FirstTx>, id: int)
    ensures CommitsOf(txs, id) > 0 <==> IsCommitted(txs, id)
    decreases |txs|
  {
    if txs == [] {
    } else {
      var k := |txs| - 1;
      CommitsExist(txs[..k], id);
      assert forall c :: 0 <= c < k ==> (CommitsAt(txs[..k], c, id) <==> CommitsAt(txs, c, id));
      assert CommitsAt(txs, k, id) <==> txs[k].kind.Commit? && txs[k].agr == id;
      assert IsCommitted(txs, id) <==> IsCommitted(txs[..k], id) || CommitsAt(txs, k, id);
    }
  }

  /** The positions of the transactions of one kind. */
  ghost function OfKind(txs: seq<FirstTx>, kind: Kind): set<int> {
    set c | 0 <= c < |txs| && txs[c].kind == kind
  }

  lemma OfKindStep(txs: seq<FirstTx>, kind: Kind)
    requires txs != []
    ensures var k := |txs| - 1;
            OfKind(txs, kind) == OfKind(txs[..k], kind) + (if txs[k].kind == kind then {k} else {})
            && k !in OfKind(txs[..k], kind)
  {
  }

  lemma {:induction false} CountIsNumber(txs: seq<FirstTx>, kind: Kind)
    ensures CountKind(txs, kind) == |OfKind(txs, kind)|
    decreases |txs|
  {
    if txs == [] {
      assert OfKind(txs, kind) == {};
    } else {
      CountIsNumber(txs[..|txs| - 1], kind);
      OfKindStep(txs, kind);
    }
  }

  /** `k` is how many rows of a table a block takes if at most 5000 are read and `fits` limits the prefixes. */
  ghost predicate TakesLongest<T>(queue: seq<Row<T>>, k: nat, fits: nat -> bool) {
    && k <= |queue| && k <= 5000
    && forall m: nat :: 1 <= m <= |queue| && m <= 5000 ==> (fits(m) <==> m <= k)
  }

  ghost function SizeOfPays(s: State, m: nat): int {
    if m <= |s.secondQueue| then Sum(PaySizes(Values(s.secondQueue)[..m])) else 0
  }

  ghost function SizeOfFirst(s: State, m: nat): int {
    if m <= |s.firstQueue| then Sum(FirstSizes(Values(s.firstQueue)[..m])) else 0
  }

  /**
  What a led block takes: the oldest sync transaction, if there is one; the longest run of
  regular payments within their percentage of the block; and the longest run of other
  transactions within what all these leave, never more than 5000 of either.
  */
  lemma TakeExactly(cfg: Config, s: State) returns (txs: nat, pays: nat)
    requires Fifo(s)
    ensures txs <= |s.firstQueue| && pays <= |s.secondQueue|
    ensures var t := Take(cfg, s);
      && t.firstQueue == s.firstQueue[txs..] && t.secondQueue == s.secondQueue[pays..]
      && t.syncQueue == (if s.syncQueue == [] then [] else s.syncQueue[1..])
      && t.scQueue == s.scQueue && t.mcRound == s.mcRound && t.scRound == s.scRound
    ensures TakesLongest(s.secondQueue, pays, (m: nat) =>
      100 * SizeOfPays(s, m) <= cfg.payPercent * (cfg.blockSize - cfg.blockOverhead))
    ensures var sync := if s.syncQueue == [] then 0 else s.syncQueue[0].value.size;
      TakesLongest(s.firstQueue, txs, (m: nat) =>
        SizeOfFirst(s, m) + sync + SizeOfPays(s, pays) + cfg.blockOverhead <= cfg.blockSize)
    ensures var t := Take(cfg, s);
      && t.firstWait == t.history.firstWaits - s.history.firstWaits
      && t.secondWait == t.history.secondWaits - s.history.secondWaits
  {
    var p := Pack(cfg, s);
    txs, pays := |p.txs|, |p.pays|;
    PackTakesPrefixes(cfg, s);
    SyncSpace(s);
    forall m: nat | 1 <= m <= |s.firstQueue| && m <= 5000
      ensures SizeOfFirst(s, m) + Sum(FirstSizes(p.sync)) + p.paySpace + cfg.blockOverhead <= cfg.blockSize
         <==> m <= txs
    {
      FirstPrefix(s.firstQueue, m);
      LongestPrefixTaken(cfg, s, m);
    }
    forall m: nat | 1 <= m <= |s.secondQueue| && m <= 5000
      ensures 100 * SizeOfPays(s, m) <= cfg.payPercent * (cfg.blockSize - cfg.blockOverhead) <==> m <= pays
    {
      FirstPrefix(s.secondQueue, m);
      LongestPrefixTaken(cfg, s, m);
    }
    FirstPrefix(s.secondQueue, pays);
    assert p.paySpace == SizeOfPays(s, pays);
  }

  lemma SyncSpace(s: State)
    ensures Sum(FirstSizes(SyncPack(s.syncQueue))) == if s.syncQueue == [] then 0 else s.syncQueue[0].value.size
  {
    if s.syncQueue == [] {
      assert FirstSizes(SyncPack(s.syncQueue)) == [];
    } else {
      var x := s.syncQueue[0].value;
      assert FirstSizes([x]) == [x.size] && Sum([x.size]) == x.size + Sum([]);
    }
  }

  /** Exactly the agreements whose commit is taken begin again, in the current round. */
  lemma CommitsExactly(cfg: Config, s: State, i: nat)
    requires Fifo(s) && i < |s.agreements|
    ensures var t := Take(cfg, s);
      && |t.agreements| == |s.agreements| && |t.firstQueue| <= |s.firstQueue|
      && var taken := Values(s.firstQueue)[..|s.firstQueue| - |t.firstQueue|];
         t.agreements[i] == if IsCommitted(taken, i + 1)
                            then s.agreements[i].(published := true, started := s.mcRound) else s.agreements[i]
  {
    PackTakesPrefixes(cfg, s);
    var taken := Pack(cfg, s).txs;
    ValuesSplit(s.firstQueue, |taken|);
    assert Values(s.firstQueue)[..|taken|] == taken;
    CommitsExist(taken, i + 1);
  }

  /** What the round's row says of the block: how many transactions of each kind it holds. */
  lemma RowCountsExactly(cfg: Config, s: State)
    requires Fifo(s) && 0 <= s.mcRound < |s.rounds| && forall k :: 0 <= k < |s.rounds| ==> s.rounds[k].number == k
    ensures var t := Take(cfg, s);
      && |t.rounds| == |s.rounds| && |t.firstQueue| <= |s.firstQueue| && |t.secondQueue| <= |s.secondQueue|
      && (forall k :: 0 <= k < |s.rounds| && k != s.mcRound ==> t.rounds[k] == s.rounds[k])
      && var r, taken := t.rounds[s.mcRound], Values(s.firstQueue)[..|s.firstQueue| - |t.firstQueue|];
         && r.number == s.mcRound && r.regPay == |s.secondQueue| - |t.secondQueue|
         && r.storagePays == |OfKind(taken, StoragePayment)|
         && r.proposes == |OfKind(taken, Propose)| && r.commits == |OfKind(taken, Commit)|
         && r.pors == (if cfg.simState == 1 then |OfKind(taken, Por)| else 0)
         && r.syncTxs == |OfKind(taken, Sync)| + (if s.syncQueue == [] then 0 else 1)
  {
    PackTakesPrefixes(cfg, s);
    var txs := Pack(cfg, s).txs;
    FirstPrefix(s.firstQueue, |txs|);
    assert Values(s.firstQueue)[..|txs|] == txs;
    CountIsNumber(txs, StoragePayment);
    CountIsNumber(txs, Propose);
    CountIsNumber(txs, Commit);
    CountIsNumber(txs, Por);
    CountIsNumber(txs, Sync);
  }

  /** Its size, and whether it left out something it could have read. */
  lemma RowSizeExactly(cfg: Config, s: State)
    requires Fifo(s) && 0 <= s.mcRound < |s.rounds| && s.rounds[s.mcRound].number == s.mcRound
    ensures var t := Take(cfg, s);
      && |t.rounds| == |s.rounds| && |t.firstQueue| <= |s.firstQueue| && |t.secondQueue| <= |s.secondQueue|
      && var r, past := t.rounds[s.mcRound], s.rounds[s.mcRound];
         var txs, pays := |s.firstQueue| - |t.firstQueue|, |s.secondQueue| - |t.secondQueue|;
         && r.blockSize == SizeOfFirst(s, txs) + SizeOfPays(s, pays) + cfg.blockOverhead
                           + (if s.syncQueue == [] then 0 else s.syncQueue[0].value.size)
         && (r.blockFull <==> past.blockFull || (txs < |s.firstQueue| && txs < 5000))
         && (r.regFull <==> past.regFull || (pays < |s.secondQueue| && pays < 5000))
  {
    PackTakesPrefixes(cfg, s);
    var p := Pack(cfg, s);
    SyncSpace(s);
    FirstPrefix(s.firstQueue, |p.txs|);
    FirstPrefix(s.secondQueue, |p.pays|);
  }

  // ---------------------------------------------------------------- the side chain

  ghost function SizeOfPors(s: State, m: nat): int {
    if m <= |s.scQueue| then Sum(PorSizes(Values(s.scQueue)[..m])) else 0
  }

  ghost function SumIssued(txs: seq<PorTx>): int {
    if txs == [] then 0 else SumIssued(txs[..|txs| - 1]) + txs[|txs| - 1].issuedSc
  }

  ghost function SumEpochs(txs: seq<PorTx>): int {
    if txs == [] then 0 else SumEpochs(txs[..|txs| - 1]) + txs[|txs| - 1].epoch
  }

  lemma {:induction false} SideWaitsAre(cfg: Config, mcRound: int, scRound: int, txs: seq<PorTx>, epoch: int)
    requires cfg.Valid()
    requires epoch == if mcRound >= 2 then (mcRound - 2) / cfg.mcRoundPerEpoch
                      else -((2 - mcRound) / cfg.mcRoundPerEpoch)
    ensures SideWaits(cfg, mcRound, scRound, txs)
         == |txs| * scRound - SumIssued(txs) + (|txs| * epoch - SumEpochs(txs)) * cfg.mcRoundDuration
    decreases |txs|
  {
    if txs == [] {
    } else {
      var k := |txs| - 1;
      SideWaitsAre(cfg, mcRound, scRound, txs[..k], epoch);
      var d, e := cfg.mcRoundDuration, txs[k].epoch;
      var x := k * epoch - SumEpochs(txs[..k]);
      assert (x + (epoch - e)) * d == x * d + (epoch - e) * d;
      assert |txs| * epoch - SumEpochs(txs) == x + (epoch - e);
      assert |txs| * scRound == k * scRound + scRound;
    }
  }

  /** An entry of the summary; an agreement without one has nothing reported yet. */
  ghost function Reported(summary: map<int, int>, id: int): int {
    if id in summary then summary[id] else 0
  }

  lemma {:induction false} AddPorsCounts(summary: map<int, int>, txs: seq<PorTx>, id: int)
    ensures Reported(AddPors(summary, txs), id) == Reported(summary, id) + |About(txs, AgrOfPor, id)|
    ensures id in AddPors(summary, txs) <==> id in summary || About(txs, AgrOfPor, id) != []
    decreases |txs|
  {
    if txs == [] {
    } else {
      AddPorsCounts(summary, txs[..|txs| - 1], id);
    }
  }

  /**
  What a meta block takes: the longest run of queued proofs that fits the block, never more
  than 5000. Each proof is counted for its agreement, and the wait mixes side-chain rounds
  with whole epochs as the configuration has them.
  */
  lemma TakeSideExactly(cfg: Config, s: State, overhead: int) returns (k: nat)
    requires cfg.Valid()
    ensures k <= |s.scQueue|
    ensures TakesLongest(s.scQueue, k, (m: nat) => SizeOfPors(s, m) + overhead <= cfg.scBlockSize)
    ensures var t, taken := TakeSide(cfg, s, overhead), Values(s.scQueue)[..k];
      && t.scQueue == s.scQueue[k..]
      && (forall id :: Reported(t.summary, id) == Reported(s.summary, id) + |About(taken, AgrOfPor, id)|)
      && (forall id :: id in t.summary <==> id in s.summary || About(taken, AgrOfPor, id) != [])
    ensures var t, taken := TakeSide(cfg, s, overhead), Values(s.scQueue)[..k];
      var epoch := if s.mcRound >= 2 then (s.mcRound - 2) / cfg.mcRoundPerEpoch
                   else -((2 - s.mcRound) / cfg.mcRoundPerEpoch);
      t.sideWait == k * s.scRound - SumIssued(taken) + (k * epoch - SumEpochs(taken)) * cfg.mcRoundDuration
  {
    var txs := SidePack(cfg, s, overhead);
    k := |txs|;
    forall m: nat | 1 <= m <= |s.scQueue| && m <= 5000
      ensures SizeOfPors(s, m) + overhead <= cfg.scBlockSize <==> m <= k
    {
      FirstPrefix(s.scQueue, m);
      LongestSidePrefixTaken(cfg, s, overhead, m);
    }
    FirstPrefix(s.scQueue, k);
    assert txs == Values(s.scQueue)[..k];
    forall id {
      AddPorsCounts(s.summary, txs, id);
    }
    SideWaitsAre(cfg, s.mcRound, s.scRound, txs,
                 if s.mcRound >= 2 then (s.mcRound - 2) / cfg.mcRoundPerEpoch
                 else -((2 - s.mcRound) / cfg.mcRoundPerEpoch));
  }

  ghost function PaymentsTo(cfg: Config, round: int, host: int): seq<FirstTx> {
    seq(cfg.contractsPerServer, _ => FirstTx(StoragePayment, cfg.storagePaySize, round, host))
  }

  lemma {:induction false} HostsPaid(cfg: Config, round: int, n: nat, host: nat)
    requires 1 <= host
    ensures About(HostPayments(cfg, round, n), AgrOfFirst, host)
         == if host <= n then PaymentsTo(cfg, round, host) else []
  {
    if n == 0 {
    } else {
      HostsPaid(cfg, round, n - 1, host);
      var own := PaymentsTo(cfg, round, n);
      assert HostPayments(cfg, round, n) == HostPayments(cfg, round, n - 1) + own;
      AboutAppend(HostPayments(cfg, round, n - 1), own, AgrOfFirst, host);
      NothingAdded(PaymentsTo(cfg, round, host));
      if host == n {
        AboutAll(own, AgrOfFirst, host);
      } else {
        AboutNone(own, AgrOfFirst, host);
      }
    }
  }

  lemma {:induction false} OnlyHostsPaid(cfg: Config, round: int, n: nat)
    ensures AboutSome(HostPayments(cfg, round, n), AgrOfFirst, n)
  {
    if n == 0 {
    } else {
      OnlyHostsPaid(cfg, round, n - 1);
    }
  }

  /**
  What the end of an epoch does: the summary is emptied into one sync transaction, and every
  host gets one storage payment per contract exactly if the epoch is a multiple of the
  configured period.
  */
  lemma SummaryExactly(cfg: Config, s: State, overhead: int, syncSize: nat, host: nat)
    requires cfg.Valid() && Fifo(s) && 1 <= host <= cfg.hosts
    ensures var t := SummaryBlock(cfg, s, overhead, syncSize);
      && t.scRound == 1 && t.scQueue == s.scQueue && t.summary.Keys == s.summary.Keys
      && (forall id :: id in t.summary ==> t.summary[id] == 0)
      && s.syncQueue <= t.syncQueue
      && Gained(s.syncQueue, t.syncQueue) == [FirstTx(Sync, syncSize, s.mcRound, Total(s.summary))]
      && t.sideRounds == s.sideRounds + [SideRow(s.scRound, overhead + syncSize, 0, false, 0, s.mcRound)]
      && s.firstQueue <= t.firstQueue
      && var gained := Gained(s.firstQueue, t.firstQueue);
         var due := cfg.storagePaymentEpoch != 0 && (s.mcRound / cfg.mcRoundPerEpoch) % cfg.storagePaymentEpoch == 0;
         if due then
           && AboutSome(gained, AgrOfFirst, cfg.hosts)
           && About(gained, AgrOfFirst, host) == PaymentsTo(cfg, s.mcRound, host)
         else gained == []
  {
    var txs := HostPayments(cfg, s.mcRound, cfg.hosts);
    InsertGains(s.firstQueue, txs);
    HostsPaid(cfg, s.mcRound, cfg.hosts, host);
    OnlyHostsPaid(cfg, s.mcRound, cfg.hosts);
    var t := SummaryBlock(cfg, s, overhead, syncSize);
    assert Gained(s.syncQueue, t.syncQueue) == [FirstTx(Sync, syncSize, s.mcRound, Total(s.summary))];
  }
}
