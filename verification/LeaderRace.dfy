/**
The root node's race for the leadership of a main-chain round.

Leader announcements, the timer for leaderless rounds and the round-advance
section run as separate goroutines over `MCRoundNumber`, `HasLeader`, the mutex
`MCPLock` and the mutex `BCLock`.  Every single read and write of a shared
variable is one step here, so that the unlocked reset of `HasLeader` and the
unlocked guards of `RootPreNewRound` interleave freely with everything else.
*/
module LeaderRace {

  /** A `NewLeader` message: who announced (only the leaderless timer announces
      for the root itself) and for which round. */
  datatype Announcement = Announcement(fromRoot: bool, round: int)

  /** How a round was closed: by the start-up code, with an empty block, or by a leader. */
  datatype Kind = Boot | Leaderless | Led

  datatype Win = Win(round: int, kind: Kind, byRoot: bool)

  /** One goroutine (or queued message) of the root, by program point. */
  datatype Thread =
    // MainChainNewLeaderChan and the Dispatch case
    | Queued(m: Announcement)
    | RoundMatched(m: Announcement)
    // the goroutine: lock section, then the sleep
    | Spawned(m: Announcement)
    | Holding(m: Announcement)
    | Winning(m: Announcement)
    | Claimed(m: Announcement)
    | Sleeping(m: Announcement)
    // the guards of RootPreNewRound, one conjunct at a time
    | CheckingEmpty(m: Announcement, k: nat)
    | CheckingLeader(m: Announcement, k: nat)
    // the guarded section
    | Passed(kind: Kind)
    | BcHeld(kind: Kind)
    | RowInserted(kind: Kind)
    | Incremented(kind: Kind)
    | ResetDone
    | Announced
    // startTimer
    | TimerArmed(r: int)
    | TimerHolding(r: int)
    | TimerRoundMatched(r: int)
    | TimerNoLeader(r: int)
    | TimerClaimed(r: int)
    | TimerSent(r: int)
    | Done

  const FREE := -1

  datatype State = State(
    round: int,             // MCRoundNumber of the root
    hasLeader: bool,        // MCLeader.HasLeader
    mcLock: int,            // index of the holder of MCPLock, or FREE
    bcLock: int,            // index of the holder of BCLock, or FREE
    threads: seq<Thread>,
    rows: seq<int>,         // RoundNumber column of RoundTable
    wins: seq<Win>,         // history: every entry into the guarded section
    told: int,              // largest MCRoundNumber any other node can have reached
    simRounds: int)         // SimulationRounds

  datatype Step =
    | Announce(r: int)      // a node that was told about round r announces itself for r
    | Act(i: nat)           // thread i performs its next read or write

  function Init(simRounds: int): State {
    State(1, false, FREE, FREE, [Passed(Boot)], [0, 1], [Win(1, Boot, true)], 1, simRounds)
  }

  /** `t` becomes the program point of thread `i`. */
  function Goto(s: State, i: nat, t: Thread): State
    requires i < |s.threads|
  {
    s.(threads := s.threads[i := t])
  }

  function Spawn(s: State, t: Thread): State {
    s.(threads := s.threads + [t])
  }

  function Enter(s: State, i: nat, kind: Kind, byRoot: bool): State
    requires i < |s.threads|
  {
    Goto(s, i, Passed(kind)).(wins := s.wins + [Win(s.round, kind, byRoot)])
  }

  /** The Dispatch case and the goroutine it starts. */
  function ActAnnouncement(s: State, i: nat): State
    requires i < |s.threads|
  {
    match s.threads[i]
    case Queued(m) =>
      Goto(s, i, if m.round == s.round then RoundMatched(m) else Done)
    case RoundMatched(m) =>
      Goto(s, i, if !s.hasLeader || m.fromRoot then Spawned(m) else Done)
    case Spawned(m) =>
      if s.mcLock != FREE then s else Goto(s, i, Holding(m)).(mcLock := i)
    case Holding(m) =>
      if s.hasLeader && !m.fromRoot then Goto(s, i, Done).(mcLock := FREE) else Goto(s, i, Winning(m))
    case Winning(m) =>
      Goto(s, i, Claimed(m)).(hasLeader := true)
    case Claimed(m) =>
      Goto(s, i, Sleeping(m)).(mcLock := FREE)
    case Sleeping(m) =>
      Goto(s, i, CheckingEmpty(m, 0))
    case _ => s
  }

  /** The conjunct of a guard that a checking thread reads next. */
  predicate NextConjunct(s: State, t: Thread)
    requires t.CheckingEmpty? || t.CheckingLeader?
  {
    match t
    case CheckingEmpty(m, k) =>
      if k == 0 then m.fromRoot else if k == 1 then s.round != 1
      else if k == 2 then s.hasLeader else m.round == s.round
    case CheckingLeader(m, k) =>
      if k == 0 then m.round == s.round else if k == 1 then s.round != 1 else s.hasLeader
  }

  /** The two guards of RootPreNewRound. */
  function ActGuard(s: State, i: nat): State
    requires i < |s.threads|
  {
    match s.threads[i]
    case CheckingEmpty(m, k) =>
      if !NextConjunct(s, s.threads[i]) then Goto(s, i, CheckingLeader(m, 0))
      else if k < 3 then Goto(s, i, CheckingEmpty(m, k + 1))
      else Enter(s, i, Leaderless, m.fromRoot)
    case CheckingLeader(m, k) =>
      if !NextConjunct(s, s.threads[i]) then Goto(s, i, Done)
      else if k < 2 then Goto(s, i, CheckingLeader(m, k + 1))
      else Enter(s, i, Led, m.fromRoot)
    case _ => s
  }

  /** The guarded section: row insertion, round increment, unlocked reset,
      NewRound messages, next timer. */
  function ActAdvance(s: State, i: nat): State
    requires i < |s.threads|
  {
    match s.threads[i]
    case Passed(kind) =>
      if s.bcLock != FREE then s else Goto(s, i, BcHeld(kind)).(bcLock := i)
    case BcHeld(kind) =>
      Goto(s, i, RowInserted(kind)).(rows := s.rows + [s.round + 1])
    case RowInserted(kind) =>
      if s.round == s.simRounds then Goto(s, i, Done).(round := s.round + 1, bcLock := FREE)
      else Goto(s, i, Incremented(kind)).(round := s.round + 1)
    case Incremented(kind) =>
      Goto(s, i, ResetDone).(hasLeader := false)
    case ResetDone =>
      Goto(s, i, Announced).(told := s.told + 1)
    case Announced =>
      Spawn(Goto(s, i, Done).(bcLock := FREE), TimerArmed(s.round))
    case _ => s
  }

  /** startTimer. */
  function ActTimer(s: State, i: nat): State
    requires i < |s.threads|
  {
    match s.threads[i]
    case TimerArmed(r) =>
      if s.mcLock != FREE then s else Goto(s, i, TimerHolding(r)).(mcLock := i)
    case TimerHolding(r) =>
      if s.round == r then Goto(s, i, TimerRoundMatched(r)) else Goto(s, i, Done).(mcLock := FREE)
    case TimerRoundMatched(r) =>
      if !s.hasLeader then Goto(s, i, TimerNoLeader(r)) else Goto(s, i, Done).(mcLock := FREE)
    case TimerNoLeader(r) =>
      Goto(s, i, TimerClaimed(r)).(hasLeader := true)
    case TimerClaimed(r) =>
      Spawn(Goto(s, i, TimerSent(r)), Queued(Announcement(true, s.round)))
    case TimerSent(r) =>
      Goto(s, i, Done).(mcLock := FREE)
    case _ => s
  }

  /** One step; a step that is not enabled leaves the state unchanged. */
  function Next(s: State, step: Step): State {
    match step
    case Announce(r) =>
      if 2 <= r <= s.told then Spawn(s, Queued(Announcement(false, r))) else s
    case Act(i) =>
      if i >= |s.threads| then s
      else
        match s.threads[i]
        case Queued(_) | RoundMatched(_) | Spawned(_) | Holding(_) | Winning(_) | Claimed(_) | Sleeping(_) =>
          ActAnnouncement(s, i)
        case CheckingEmpty(_, _) | CheckingLeader(_, _) => ActGuard(s, i)
        case Passed(_) | BcHeld(_) | RowInserted(_) | Incremented(_) | ResetDone | Announced =>
          ActAdvance(s, i)
        case _ => ActTimer(s, i)
  }

  /** The state after a run: any sequence of steps is a run. */
  function Exec(s: State, steps: seq<Step>): State
    decreases |steps|
  {
    if steps == [] then s else Next(Exec(s, steps[..|steps| - 1]), steps[|steps| - 1])
  }

  // ---------------------------------------------------------------- invariant

  predicate HasMessage(t: Thread) {
    t.Queued? || t.RoundMatched? || t.Spawned? || t.Holding? || t.Winning? || t.Claimed? ||
    t.Sleeping? || t.CheckingEmpty? || t.CheckingLeader?
  }

  predicate IsTimer(t: Thread) {
    t.TimerArmed? || t.TimerHolding? || t.TimerRoundMatched? || t.TimerNoLeader? || t.TimerClaimed? ||
    t.TimerSent?
  }

  /** Holds MCPLock at this program point. */
  predicate InMcSection(t: Thread) {
    t.Holding? || t.Winning? || t.Claimed? || t.TimerHolding? || t.TimerRoundMatched? ||
    t.TimerNoLeader? || t.TimerClaimed? || t.TimerSent?
  }

  /** Holds BCLock at this program point. */
  predicate InBcSection(t: Thread) {
    t.BcHeld? || t.RowInserted? || t.Incremented? || t.ResetDone? || t.Announced?
  }

  predicate Advancing(t: Thread) {
    t.Passed? || t.BcHeld? || t.RowInserted? || t.Incremented?
  }

  /** The thread owns the current round: it is closing it, or it still can. */
  predicate Owner(round: int, t: Thread) {
    || Advancing(t)
    || t.TimerClaimed?
    || (HasMessage(t) && t.m.round == round &&
        (t.m.fromRoot || t.Claimed? || t.Sleeping? || t.CheckingEmpty? || t.CheckingLeader?))
  }

  predicate UniqueOwner(s: State) {
    forall i, j | 0 <= i < |s.threads| && 0 <= j < |s.threads| ::
      Owner(s.round, s.threads[i]) && Owner(s.round, s.threads[j]) ==> i == j
  }

  predicate Booting(s: State) {
    |s.threads| == 1 && Advancing(s.threads[0]) && s.threads[0].kind.Boot? && s.told == 1
  }

  /** What a thread may assume about the shared variables, by program point. */
  datatype View = View(round: int, hasLeader: bool, told: int, won: nat, booting: bool)

  function ViewOf(s: State): View {
    View(s.round, s.hasLeader, s.told, |s.wins|, Booting(s))
  }

  predicate PointOk(v: View, t: Thread, hasMc: bool, hasBc: bool) {
    && (InMcSection(t) <==> hasMc)
    && (InBcSection(t) <==> hasBc)
    && (HasMessage(t) ==> 2 <= t.m.round <= v.round && (!t.m.fromRoot ==> t.m.round <= v.told))
    && (IsTimer(t) ==> 2 <= t.r <= v.round)
    && (Owner(v.round, t) ==> v.hasLeader || v.booting)
    && ((t.Winning? && !t.m.fromRoot) || t.TimerNoLeader? ==> !v.hasLeader)
    && (HasMessage(t) && t.m.fromRoot ==> t.m.round == v.round && !t.CheckingLeader?)
    && (t.CheckingLeader? && 1 <= t.k ==> t.m.round == v.round)
    && (t.CheckingEmpty? && 1 <= t.k ==> t.m.fromRoot)
    && (Advancing(t) ==> (t.Incremented? <==> v.won == v.round - 1))
    && (t.Incremented? || t.ResetDone? || t.Announced? ==> 2 <= v.round)
    && (InBcSection(t) ==> v.told == if t.Incremented? || t.ResetDone? then v.round - 1 else v.round)
  }

  predicate ThreadOk(s: State, i: nat)
    requires i < |s.threads|
  {
    PointOk(ViewOf(s), s.threads[i], s.mcLock == i, s.bcLock == i)
  }

  /** Rounds are won once each and in order. */
  predicate HistoryOk(wins: seq<Win>) {
    && (forall k :: 0 <= k < |wins| ==> wins[k].round == k + 1)
    && (forall k :: 0 <= k < |wins| ==> (wins[k].kind.Boot? <==> k == 0))
    && (forall k :: 1 <= k < |wins| ==> (wins[k].kind.Leaderless? <==> wins[k].byRoot))
  }

  predicate SomeAdvancing(threads: seq<Thread>) {
    exists i :: 0 <= i < |threads| && Advancing(threads[i])
  }

  predicate Iota(rows: seq<int>) {
    forall k :: 0 <= k < |rows| ==> rows[k] == k
  }

  predicate LedgerOk(s: State)
    requires s.bcLock == FREE || 0 <= s.bcLock < |s.threads|
  {
    && Iota(s.rows)
    && |s.rows| == s.round + (if s.bcLock != FREE && s.threads[s.bcLock].RowInserted? then 2 else 1)
    && s.round - 1 <= |s.wins| <= s.round
    && (|s.wins| == s.round ==> SomeAdvancing(s.threads))
    && HistoryOk(s.wins)
  }

  /** After the last round nobody owns anything any more. */
  predicate Finished(s: State) {
    && (forall i :: 0 <= i < |s.threads| ==> !Owner(s.round, s.threads[i]))
    && (s.hasLeader || (s.threads == [Done] && s.told == 1))
  }

  predicate Inv(s: State) {
    && 1 <= s.round
    && (s.mcLock == FREE || 0 <= s.mcLock < |s.threads|)
    && (s.bcLock == FREE || 0 <= s.bcLock < |s.threads|)
    && (|| s.told == s.round
        || (s.told == s.round - 1 && s.bcLock != FREE)
        || (s.told == s.round - 1 && Finished(s)))
    && (forall i :: 0 <= i < |s.threads| ==> ThreadOk(s, i))
    && UniqueOwner(s)
    && LedgerOk(s)
  }

  lemma InitInv(simRounds: int)
    ensures Inv(Init(simRounds))
  {
    assert Init(simRounds).threads[0].Passed?;
  }

  /** Thread `i` moves on without touching any shared variable but the locks. */
  predicate QuietStep(s: State, i: nat, s': State) {
    && i < |s.threads| == |s'.threads|
    && s' == Goto(s, i, s'.threads[i]).(mcLock := s'.mcLock, bcLock := s'.bcLock)
    && s.threads[i] != Done
    && (s'.mcLock == s.mcLock || (s.mcLock in {FREE, i as int} && s'.mcLock in {FREE, i as int}))
    && (|| s'.bcLock == s.bcLock
        || (s.bcLock == FREE && s'.bcLock == i)
        || (s.bcLock == i && s'.bcLock == FREE && s.told == s.round))
    && PointOk(ViewOf(s), s'.threads[i], s'.mcLock == i, s'.bcLock == i)
    && (Owner(s.round, s'.threads[i]) ==> Owner(s.round, s.threads[i]))
    && Advancing(s'.threads[i]) == Advancing(s.threads[i])
    && (Advancing(s.threads[i]) ==> s'.threads[i].kind == s.threads[i].kind)
    && !s'.threads[i].RowInserted? && !s.threads[i].RowInserted?
  }

  lemma QuietAnnouncement(s: State, i: nat)
    requires i < |s.threads| && ThreadOk(s, i)
    requires HasMessage(s.threads[i]) && !s.threads[i].Winning?
    requires !s.threads[i].CheckingEmpty? && !s.threads[i].CheckingLeader?
    ensures ActAnnouncement(s, i) == s || QuietStep(s, i, ActAnnouncement(s, i))
  {
  }

  lemma QuietGuard(s: State, i: nat)
    requires i < |s.threads| && ThreadOk(s, i)
    requires s.threads[i].CheckingEmpty? || s.threads[i].CheckingLeader?
    requires ActGuard(s, i).wins == s.wins
    ensures QuietStep(s, i, ActGuard(s, i))
  {
  }

  lemma QuietTimer(s: State, i: nat)
    requires i < |s.threads| && ThreadOk(s, i)
    requires IsTimer(s.threads[i]) && !s.threads[i].TimerNoLeader? && !s.threads[i].TimerClaimed?
    ensures ActTimer(s, i) == s || QuietStep(s, i, ActTimer(s, i))
  {
  }

  lemma QuietInv(s: State, i: nat, s': State)
    requires Inv(s) && QuietStep(s, i, s')
    ensures Inv(s')
  {
    assert ThreadOk(s, i);
    assert ViewOf(s') == ViewOf(s);
    forall j | 0 <= j < |s'.threads| ensures ThreadOk(s', j) {
      assert ThreadOk(s, j);
    }
    AdvancingKept(s, s');
  }

  lemma AdvancingKept(s: State, s': State)
    requires |s.threads| <= |s'.threads|
    requires forall j :: 0 <= j < |s.threads| && Advancing(s.threads[j]) ==> Advancing(s'.threads[j])
    ensures SomeAdvancing(s.threads) ==> SomeAdvancing(s'.threads)
  {
    if SomeAdvancing(s.threads) {
      var j :| 0 <= j < |s.threads| && Advancing(s.threads[j]);
      assert Advancing(s'.threads[j]);
    }
  }

  /** Writing `HasLeader = true`: at that moment nobody else owns the round. */
  lemma WinningInv(s: State, i: nat)
    requires Inv(s) && i < |s.threads| && s.threads[i].Winning?
    ensures Inv(ActAnnouncement(s, i))
  {
    var s' := ActAnnouncement(s, i);
    assert ThreadOk(s, i);
    assert !Booting(s);
    forall j | 0 <= j < |s'.threads|
      ensures ThreadOk(s', j)
      ensures Owner(s'.round, s'.threads[i]) && Owner(s'.round, s'.threads[j]) ==> i == j
    {
      assert ThreadOk(s, j);
    }
    AdvancingKept(s, s');
  }

  lemma GuardInv(s: State, i: nat)
    requires Inv(s) && i < |s.threads| && (s.threads[i].CheckingEmpty? || s.threads[i].CheckingLeader?)
    ensures Inv(ActGuard(s, i))
  {
    assert ThreadOk(s, i);
    var m := s.threads[i].m;
    if ActGuard(s, i).wins == s.wins {
      QuietGuard(s, i);
      QuietInv(s, i, ActGuard(s, i));
    } else {
      EnterInv(s, i, if m.fromRoot then Leaderless else Led);
    }
  }

  /** Entering the guarded section: the round has not been won before. */
  lemma EnterInv(s: State, i: nat, kind: Kind)
    requires Inv(s) && i < |s.threads| && (s.threads[i].CheckingEmpty? || s.threads[i].CheckingLeader?)
    requires s.threads[i].m.round == s.round
    requires kind == if s.threads[i].m.fromRoot then Leaderless else Led
    ensures Inv(Enter(s, i, kind, s.threads[i].m.fromRoot))
  {
    var s' := Enter(s, i, kind, s.threads[i].m.fromRoot);
    assert ThreadOk(s, i);
    assert Owner(s.round, s.threads[i]);
    assert forall j :: 0 <= j < |s.threads| ==> !Advancing(s.threads[j]);
    forall j | 0 <= j < |s'.threads| ensures ThreadOk(s', j) {
      assert ThreadOk(s, j);
    }
    assert Advancing(s'.threads[i]);
  }

  lemma AdvanceInv(s: State, i: nat)
    requires Inv(s) && i < |s.threads|
    ensures Inv(ActAdvance(s, i))
  {
    assert ThreadOk(s, i);
    match s.threads[i]
    case Passed(kind) => if s.bcLock == FREE { QuietInv(s, i, ActAdvance(s, i)); }
    case BcHeld(kind) => BcHeldInv(s, i);
    case RowInserted(kind) => IncrementInv(s, i);
    case Incremented(kind) => ResetInv(s, i);
    case ResetDone => ResetDoneInv(s, i);
    case Announced => AnnouncedInv(s, i);
    case _ =>
  }

  lemma BcHeldInv(s: State, i: nat)
    requires Inv(s) && i < |s.threads| && s.threads[i].BcHeld?
    ensures Inv(ActAdvance(s, i))
  {
    var s' := ActAdvance(s, i);
    assert ThreadOk(s, i);
    forall j | 0 <= j < |s'.threads| ensures ThreadOk(s', j) {
      assert ThreadOk(s, j);
    }
    assert Advancing(s'.threads[i]);
  }

  /** The round increment: nobody can own the new round yet. */
  lemma IncrementInv(s: State, i: nat)
    requires Inv(s) && i < |s.threads| && s.threads[i].RowInserted?
    ensures Inv(ActAdvance(s, i))
  {
    var s' := ActAdvance(s, i);
    assert ThreadOk(s, i);
    forall j | 0 <= j < |s'.threads| ensures ThreadOk(s', j) && (j != i ==> !Owner(s'.round, s'.threads[j])) {
      assert ThreadOk(s, j);
      assert j != i ==> !Owner(s.round, s.threads[j]);
    }
  }

  /** The unlocked reset: the resetting thread was the only owner. */
  lemma ResetInv(s: State, i: nat)
    requires Inv(s) && i < |s.threads| && s.threads[i].Incremented?
    ensures Inv(ActAdvance(s, i))
  {
    var s' := ActAdvance(s, i);
    assert ThreadOk(s, i);
    forall j | 0 <= j < |s'.threads| ensures ThreadOk(s', j) && !Owner(s'.round, s'.threads[j]) {
      assert ThreadOk(s, j);
      assert j != i ==> !Owner(s.round, s.threads[j]);
    }
  }

  lemma ResetDoneInv(s: State, i: nat)
    requires Inv(s) && i < |s.threads| && s.threads[i].ResetDone?
    ensures Inv(ActAdvance(s, i))
  {
    var s' := ActAdvance(s, i);
    assert ThreadOk(s, i);
    forall j | 0 <= j < |s'.threads| ensures ThreadOk(s', j) {
      assert ThreadOk(s, j);
    }
    AdvancingKept(s, s');
  }

  lemma AnnouncedInv(s: State, i: nat)
    requires Inv(s) && i < |s.threads| && s.threads[i].Announced?
    ensures Inv(ActAdvance(s, i))
  {
    assert ThreadOk(s, i);
    var s1 := Goto(s, i, Done).(bcLock := FREE);
    QuietInv(s, i, s1);
    SpawnInv(s1, TimerArmed(s.round));
  }

  /** A new goroutine or message that does not own the round. */
  lemma SpawnInv(s: State, t: Thread)
    requires Inv(s) && !Owner(s.round, t) && PointOk(ViewOf(s), t, false, false) && 2 <= s.told
    ensures Inv(Spawn(s, t))
  {
    var s' := Spawn(s, t);
    assert ViewOf(s') == ViewOf(s);
    forall j | 0 <= j < |s'.threads| ensures ThreadOk(s', j) {
      if j < |s.threads| { assert ThreadOk(s, j); }
    }
    AdvancingKept(s, s');
  }

  lemma TimerNoLeaderInv(s: State, i: nat)
    requires Inv(s) && i < |s.threads| && s.threads[i].TimerNoLeader?
    ensures Inv(ActTimer(s, i))
  {
    var s' := ActTimer(s, i);
    assert ThreadOk(s, i);
    assert !Booting(s);
    forall j | 0 <= j < |s'.threads| ensures ThreadOk(s', j) && (j != i ==> !Owner(s'.round, s'.threads[j])) {
      assert ThreadOk(s, j);
    }
    assert forall j :: 0 <= j < |s.threads| ==> !Advancing(s'.threads[j]) && !Advancing(s.threads[j]);
  }

  lemma TimerClaimedInv(s: State, i: nat)
    requires Inv(s) && i < |s.threads| && s.threads[i].TimerClaimed?
    ensures Inv(ActTimer(s, i))
  {
    var s' := ActTimer(s, i);
    assert ThreadOk(s, i);
    forall j | 0 <= j < |s'.threads|
      ensures ThreadOk(s', j) && (j < |s.threads| ==> !Owner(s'.round, s'.threads[j]))
    {
      if j < |s.threads| { assert ThreadOk(s, j); }
    }
    assert forall j :: 0 <= j < |s.threads| ==> !Advancing(s.threads[j]);
  }

  lemma NextInv(s: State, step: Step)
    requires Inv(s)
    ensures Inv(Next(s, step))
  {
    if step.Announce? {
      if 2 <= step.r <= s.told { SpawnInv(s, Queued(Announcement(false, step.r))); }
    } else if step.i < |s.threads| {
      ActInv(s, step.i);
    }
  }

  lemma ActInv(s: State, i: nat)
    requires Inv(s) && i < |s.threads|
    ensures Inv(Next(s, Act(i)))
  {
    var t, s' := s.threads[i], Next(s, Act(i));
    assert ThreadOk(s, i);
    if t.Winning? {
      WinningInv(s, i);
    } else if t.CheckingEmpty? || t.CheckingLeader? {
      GuardInv(s, i);
    } else if HasMessage(t) {
      QuietAnnouncement(s, i);
      if s' != s { QuietInv(s, i, s'); }
    } else if t.TimerNoLeader? {
      TimerNoLeaderInv(s, i);
    } else if t.TimerClaimed? {
      TimerClaimedInv(s, i);
    } else if IsTimer(t) {
      QuietTimer(s, i);
      if s' != s { QuietInv(s, i, s'); }
    } else {
      AdvanceInv(s, i);
    }
  }

  lemma {:induction false} RunInv(simRounds: int, steps: seq<Step>)
    ensures Inv(Exec(Init(simRounds), steps))
    decreases |steps|
  {
    if steps == [] {
      InitInv(simRounds);
    } else {
      RunInv(simRounds, steps[..|steps| - 1]);
      NextInv(Exec(Init(simRounds), steps[..|steps| - 1]), steps[|steps| - 1]);
    }
  }

  // ---------------------------------------------------------------- main results

  /** Over every interleaving, each round is won at most once, in order, by the
      timer exactly when it is closed with an empty block, and the round table has
      exactly one row for every round number. */
  lemma SingleWinner(simRounds: int, steps: seq<Step>)
    ensures var s := Exec(Init(simRounds), steps);
      && (forall k :: 0 <= k < |s.wins| ==> s.wins[k].round == k + 1)
      && (forall k :: 1 <= k < |s.wins| ==> (s.wins[k].kind.Leaderless? <==> s.wins[k].byRoot) && !s.wins[k].kind.Boot?)
      && s.round - 1 <= |s.wins| <= s.round
      && (forall k :: 0 <= k < |s.rows| ==> s.rows[k] == k)
      && s.round + 1 <= |s.rows| <= s.round + 2
  {
    RunInv(simRounds, steps);
  }

  // ------------------------------------------------------------------ stalls

  /** `HasLeader` is set but nobody can close the round. */
  predicate Ownerless(s: State) {
    && s.hasLeader
    && (forall i :: 0 <= i < |s.threads| ==> !Owner(s.round, s.threads[i]))
  }

  /** The last round of the simulation has been closed. */
  predicate Ended(s: State) {
    1 <= s.simRounds < s.round
  }

  /** A round that was to be simulated is claimed, and nobody can close it. */
  predicate Stalled(s: State) {
    Ownerless(s) && !Ended(s)
  }

  /** A stall is permanent: no continuation ever closes the round. */
  lemma {:induction false} StallIsPermanent(s: State, steps: seq<Step>)
    requires Inv(s) && Stalled(s)
    ensures var s' := Exec(s, steps); Inv(s') && Stalled(s') && s'.round == s.round && s'.wins == s.wins
    decreases |steps|
  {
    if steps != [] {
      var t := Exec(s, steps[..|steps| - 1]);
      StallIsPermanent(s, steps[..|steps| - 1]);
      NextInv(t, steps[|steps| - 1]);
      OwnerlessNext(t, steps[|steps| - 1]);
      SimRoundsKept(t, steps[|steps| - 1]);
    }
  }

  lemma SimRoundsKept(s: State, step: Step)
    ensures Next(s, step).simRounds == s.simRounds
  {
  }

  lemma OwnerlessNext(s: State, step: Step)
    requires Inv(s) && Ownerless(s)
    ensures var s' := Next(s, step); Ownerless(s') && s'.round == s.round && s'.wins == s.wins
  {
    if step.Act? && step.i < |s.threads| {
      assert ThreadOk(s, step.i);
      OwnerlessAct(s, step.i);
    }
  }

  lemma OwnerlessAct(s: State, i: nat)
    requires i < |s.threads| && ThreadOk(s, i) && !Owner(s.round, s.threads[i]) && s.hasLeader
    ensures var s' := Next(s, Act(i));
      && s'.hasLeader && s'.round == s.round && s'.wins == s.wins
      && |s.threads| <= |s'.threads|
      && (forall j :: 0 <= j < |s.threads| && j != i ==> s'.threads[j] == s.threads[j])
      && !Owner(s.round, s'.threads[i])
      && (forall j :: |s.threads| <= j < |s'.threads| ==> !Owner(s.round, s'.threads[j]))
  {
  }

  /** What ending means: the counter stops behind the last round, and nobody owns that number. */
  predicate EndOk(s: State, simRounds: int) {
    && s.simRounds == simRounds
    && (1 <= simRounds ==> s.round <= simRounds + 1)
    && (Ended(s) ==> Finished(s))
  }

  lemma NextEnd(s: State, simRounds: int, step: Step)
    requires Inv(s) && EndOk(s, simRounds)
    ensures EndOk(Next(s, step), simRounds)
  {
    SimRoundsKept(s, step);
    if Ended(s) {
      if s.hasLeader { OwnerlessNext(s, step); }
    } else if step.Act? && step.i < |s.threads| && s.threads[step.i].RowInserted? {
      assert ThreadOk(s, step.i);
      NextInv(s, step);
    } else {
      RoundKept(s, step);
    }
  }

  lemma RoundKept(s: State, step: Step)
    requires step.Act? && step.i < |s.threads| ==> !s.threads[step.i].RowInserted?
    ensures Next(s, step).round == s.round
  {
  }

  lemma {:induction false} RunEnd(simRounds: int, steps: seq<Step>)
    ensures EndOk(Exec(Init(simRounds), steps), simRounds)
    decreases |steps|
  {
    if steps != [] {
      RunInv(simRounds, steps[..|steps| - 1]);
      RunEnd(simRounds, steps[..|steps| - 1]);
      NextEnd(Exec(Init(simRounds), steps[..|steps| - 1]), simRounds, steps[|steps| - 1]);
    }
  }

  /**
  The end of the simulation and a stall are different things: at the end every round
  has been closed, while a stalled round is one that was to be simulated and is missing.
  */
  lemma EndIsNoStall(simRounds: int, steps: seq<Step>)
    ensures var s := Exec(Init(simRounds), steps);
      && (Ended(s) ==> |s.wins| == simRounds && s.round == simRounds + 1)
      && (Stalled(s) ==> |s.wins| == s.round - 1 && (1 <= simRounds ==> s.round <= simRounds))
  {
    RunInv(simRounds, steps);
    RunEnd(simRounds, steps);
  }

  /** The lock section sets `HasLeader` for an announcement of an earlier round. */
  predicate LateClaim(s: State, step: Step) {
    step.Act? && step.i < |s.threads| && s.threads[step.i].Winning? && s.threads[step.i].m.round < s.round
  }

  /** An owner that acts leaves an owner behind, unless it resets the flag or ends the simulation. */
  lemma OwnerStays(s: State, i: nat)
    requires Inv(s) && i < |s.threads| && Owner(s.round, s.threads[i])
    requires !s.threads[i].Incremented?
    requires s.threads[i].RowInserted? ==> s.round != s.simRounds
    ensures var s' := Next(s, Act(i));
      exists j :: 0 <= j < |s'.threads| && Owner(s'.round, s'.threads[j])
  {
    assert ThreadOk(s, i);
    var s' := Next(s, Act(i));
    if s.threads[i].TimerClaimed? {
      assert Owner(s'.round, s'.threads[|s.threads|]);
    } else {
      assert Owner(s'.round, s'.threads[i]);
    }
  }

  /** A step of a thread that is not the owner leaves the owner where it is. */
  lemma OwnerElsewhere(s: State, i: nat, j: nat)
    requires Inv(s) && i < |s.threads| && j < |s.threads| && i != j && Owner(s.round, s.threads[j])
    ensures var s' := Next(s, Act(i)); j < |s'.threads| && Owner(s'.round, s'.threads[j])
  {
    assert !Owner(s.round, s.threads[i]);
    RoundKept(s, Act(i));
    ActLocal(s, i);
  }

  /** All threads but `i` stand where they stood. */
  predicate Elsewhere(s: State, i: nat, s': State) {
    && |s.threads| <= |s'.threads|
    && forall j :: 0 <= j < |s.threads| && j != i ==> s'.threads[j] == s.threads[j]
  }

  lemma AnnouncementLocal(s: State, i: nat)
    requires i < |s.threads|
    ensures Elsewhere(s, i, ActAnnouncement(s, i))
  {
  }

  lemma GuardLocal(s: State, i: nat)
    requires i < |s.threads|
    ensures Elsewhere(s, i, ActGuard(s, i))
  {
  }

  lemma AdvanceLocal(s: State, i: nat)
    requires i < |s.threads|
    ensures Elsewhere(s, i, ActAdvance(s, i))
  {
  }

  lemma TimerLocal(s: State, i: nat)
    requires i < |s.threads|
    ensures Elsewhere(s, i, ActTimer(s, i))
  {
  }

  lemma ActLocal(s: State, i: nat)
    requires i < |s.threads|
    ensures Elsewhere(s, i, Next(s, Act(i)))
  {
    AnnouncementLocal(s, i);
    GuardLocal(s, i);
    AdvanceLocal(s, i);
    TimerLocal(s, i);
  }

  /** Claims that are not late make their thread the owner. */
  lemma ClaimOwns(s: State, step: Step)
    requires Inv(s) && !LateClaim(s, step)
    requires !s.hasLeader && Next(s, step).hasLeader
    ensures !Ownerless(Next(s, step))
  {
    var i := step.i;
    assert ThreadOk(s, i);
    assert Owner(Next(s, step).round, Next(s, step).threads[i]);
  }

  lemma OwnerRemains(s: State, step: Step, j: nat)
    requires Inv(s) && j < |s.threads| && Owner(s.round, s.threads[j])
    requires s.hasLeader && Next(s, step).hasLeader && !Ended(Next(s, step))
    requires s.simRounds < 1 || s.round <= s.simRounds
    ensures !Ownerless(Next(s, step))
  {
    if step.Act? && step.i < |s.threads| {
      assert ThreadOk(s, step.i);
      if step.i == j {
        OwnerStays(s, j);
      } else {
        OwnerElsewhere(s, step.i, j);
      }
    } else {
      assert Owner(s.round, Next(s, step).threads[j]);
    }
  }

  /** Late claims need two closed rounds, and an end still to come. */
  lemma LateClaimBefore(s: State, simRounds: int, step: Step)
    requires Inv(s) && EndOk(s, simRounds) && LateClaim(s, step)
    ensures 3 <= s.round && !Ended(s)
  {
    assert ThreadOk(s, step.i);
  }

  lemma LateClaimStalls(s: State, simRounds: int, step: Step)
    requires Inv(s) && EndOk(s, simRounds) && LateClaim(s, step)
    ensures Stalled(Next(s, step))
  {
    var i := step.i;
    var s' := Next(s, step);
    assert ThreadOk(s, i);
    forall j | 0 <= j < |s'.threads| ensures !Owner(s'.round, s'.threads[j]) {
      assert ThreadOk(s, j);
    }
  }

  /**
  The only way into a stall, in every run: the lock section does not read the round
  again, so an announcer of an earlier round that passed the Dispatch test in time but
  gets the lock late claims the current round.  Only safety can be promised.
  */
  lemma StallsExactly(simRounds: int, steps: seq<Step>, step: Step)
    requires !Stalled(Exec(Init(simRounds), steps))
    ensures Stalled(Exec(Init(simRounds), steps + [step])) <==> LateClaim(Exec(Init(simRounds), steps), step)
  {
    var s := Exec(Init(simRounds), steps);
    ExecStep(Init(simRounds), steps, step);
    RunInv(simRounds, steps);
    RunEnd(simRounds, steps);
    RunEnd(simRounds, steps + [step]);
    if LateClaim(s, step) {
      LateClaimStalls(s, simRounds, step);
    } else if Next(s, step).hasLeader && !Ended(Next(s, step)) {
      StaysOpen(s, simRounds, step);
    }
  }

  lemma StaysOpen(s: State, simRounds: int, step: Step)
    requires Inv(s) && EndOk(s, simRounds) && !Stalled(s) && !LateClaim(s, step)
    requires Next(s, step).hasLeader && !Ended(Next(s, step))
    ensures !Ownerless(Next(s, step))
  {
    if !s.hasLeader {
      ClaimOwns(s, step);
    } else if !Ended(s) {
      var j :| 0 <= j < |s.threads| && Owner(s.round, s.threads[j]);
      OwnerRemains(s, step, j);
    } else {
      OwnerlessNext(s, step);
      SimRoundsKept(s, step);
      assert false;
    }
  }

  // ------------------------------------------------------------ mutual exclusion

  /** Between the guards and the end of the guarded section. */
  predicate Inside(t: Thread) {
    t.Passed? || InBcSection(t)
  }

  predicate PastReset(t: Thread) {
    t.ResetDone? || t.Announced?
  }

  /**
  At most one goroutine stands between the guards and the reset of `HasLeader`, and
  at most one holds `BCLock`.  Two can be inside the section: then one of them has
  done the reset and still holds the lock, and the other waits for it.
  */
  lemma MutualExclusion(simRounds: int, steps: seq<Step>, i: nat, j: nat)
    requires var s := Exec(Init(simRounds), steps);
      i < |s.threads| && j < |s.threads| && i != j && Inside(s.threads[i]) && Inside(s.threads[j])
    ensures var s := Exec(Init(simRounds), steps); var t, u := s.threads[i], s.threads[j];
      && !(Advancing(t) && Advancing(u))
      && ((PastReset(t) && s.bcLock == i && u.Passed?) || (PastReset(u) && s.bcLock == j && t.Passed?))
  {
    RunInv(simRounds, steps);
    var s := Exec(Init(simRounds), steps);
    assert ThreadOk(s, i) && ThreadOk(s, j);
  }

  /**
  Of the guards' conjuncts only the first can fail, in every run: whoever announces for the
  root passes the empty block's guard, and whoever announces for the current round the other.
  */
  lemma OnlyFirstTestFails(simRounds: int, steps: seq<Step>, i: nat)
    requires var s := Exec(Init(simRounds), steps);
      i < |s.threads| && (s.threads[i].CheckingEmpty? || s.threads[i].CheckingLeader?) && 1 <= s.threads[i].k
    ensures var s := Exec(Init(simRounds), steps);
      s.round != 1 && s.hasLeader && s.threads[i].m.round == s.round && NextConjunct(s, s.threads[i])
  {
    RunInv(simRounds, steps);
    assert ThreadOk(Exec(Init(simRounds), steps), i);
  }

  // ------------------------------------------------------------ the timer

  /** This thread is on its way to claim the current round, or to start the timer that will. */
  predicate WillClaim(round: int, t: Thread) {
    || Advancing(t) || PastReset(t)
    || ((t.TimerArmed? || t.TimerHolding? || t.TimerRoundMatched? || t.TimerNoLeader?) && t.r == round)
  }

  predicate Awake(s: State) {
    !s.hasLeader && !Ended(s) ==> exists i :: 0 <= i < |s.threads| && WillClaim(s.round, s.threads[i])
  }

  /** The thread itself moves on towards the claim. */
  lemma ClaimerMoves(s: State, j: nat)
    requires Inv(s) && j < |s.threads| && WillClaim(s.round, s.threads[j]) && !s.hasLeader
    requires !Next(s, Act(j)).hasLeader && !Ended(Next(s, Act(j)))
    ensures Awake(Next(s, Act(j)))
  {
    assert ThreadOk(s, j);
    var s' := Next(s, Act(j));
    if s.threads[j].Announced? {
      assert WillClaim(s'.round, s'.threads[|s.threads|]);
    } else {
      assert WillClaim(s'.round, s'.threads[j]);
    }
  }

  /** Any other thread leaves it where it is, unless it closes the round. */
  lemma ClaimerStays(s: State, i: nat, j: nat)
    requires Inv(s) && i < |s.threads| && j < |s.threads| && i != j && WillClaim(s.round, s.threads[j])
    requires !Ended(Next(s, Act(i)))
    ensures Awake(Next(s, Act(i)))
  {
    var s' := Next(s, Act(i));
    ActLocal(s, i);
    if s.threads[i].RowInserted? {
      assert ThreadOk(s, i);
      assert WillClaim(s'.round, s'.threads[i]);
    } else {
      RoundKept(s, Act(i));
      assert WillClaim(s'.round, s'.threads[j]);
    }
  }

  /** The flag is cleared by the reset only, on the way to the next timer. */
  lemma ResetWakes(s: State, step: Step)
    requires Inv(s) && s.hasLeader && !Next(s, step).hasLeader
    ensures Awake(Next(s, step))
  {
    assert WillClaim(Next(s, step).round, Next(s, step).threads[step.i]);
  }

  lemma NextAwake(s: State, simRounds: int, step: Step)
    requires Inv(s) && EndOk(s, simRounds) && Awake(s)
    ensures Awake(Next(s, step))
  {
    var s' := Next(s, step);
    NextEnd(s, simRounds, step);
    NextInv(s, step);
    if s.hasLeader && !s'.hasLeader {
      ResetWakes(s, step);
    } else if !s'.hasLeader && !Ended(s') {
      NotEndedBefore(s, step);
      var j :| 0 <= j < |s.threads| && WillClaim(s.round, s.threads[j]);
      if step.Act? && step.i < |s.threads| {
        if step.i == j {
          ClaimerMoves(s, j);
        } else {
          ClaimerStays(s, step.i, j);
        }
      } else {
        assert WillClaim(s'.round, s'.threads[j]);
      }
    }
  }

  lemma NotEndedBefore(s: State, step: Step)
    ensures Ended(s) ==> Ended(Next(s, step))
  {
    SimRoundsKept(s, step);
    if step.Act? && step.i < |s.threads| && s.threads[step.i].RowInserted? {
    } else {
      RoundKept(s, step);
    }
  }

  /**
  Announcements are not needed: in every run, as long as nobody has claimed a round that
  is to be simulated, its timer is running and will claim it, or the section that starts
  this timer has not been left.
  */
  lemma {:induction false} TimerNeverForgotten(simRounds: int, steps: seq<Step>)
    ensures var s := Exec(Init(simRounds), steps);
      !s.hasLeader && !Ended(s) ==> exists i :: 0 <= i < |s.threads| && WillClaim(s.round, s.threads[i])
    decreases |steps|
  {
    if steps == [] {
      assert WillClaim(1, Init(simRounds).threads[0]);
    } else {
      var past := steps[..|steps| - 1];
      TimerNeverForgotten(simRounds, past);
      RunInv(simRounds, past);
      RunEnd(simRounds, past);
      NextAwake(Exec(Init(simRounds), past), simRounds, steps[|steps| - 1]);
    }
  }

  // ------------------------------------------------------------------- two runs

  /** A step added to a run. */
  lemma ExecStep(s: State, steps: seq<Step>, step: Step)
    ensures Exec(s, steps + [step]) == Next(Exec(s, steps), step)
  {
    assert (steps + [step])[..|steps|] == steps;
  }

  /** Thread `i` acts `n` times. */
  function Acts(s: State, i: nat, n: nat): State
    decreases n
  {
    if n == 0 then s else Acts(Next(s, Act(i)), i, n - 1)
  }

  lemma {:induction false} ThenActs(s: State, steps: seq<Step>, i: nat, n: nat) returns (longer: seq<Step>)
    ensures Exec(s, longer) == Acts(Exec(s, steps), i, n)
    decreases n
  {
    if n == 0 {
      longer := steps;
    } else {
      ExecStep(s, steps, Act(i));
      longer := ThenActs(s, steps + [Act(i)], i, n - 1);
    }
  }

  lemma ThenAnnounce(s: State, steps: seq<Step>, r: int) returns (longer: seq<Step>)
    ensures Exec(s, longer) == Next(Exec(s, steps), Announce(r))
  {
    ExecStep(s, steps, Announce(r));
    longer := steps + [Announce(r)];
  }

  lemma {:induction false} ActsAdd(s: State, i: nat, m: nat, n: nat)
    ensures Acts(s, i, m + n) == Acts(Acts(s, i, m), i, n)
    decreases m
  {
    if m == 0 {
    } else {
      ActsAdd(Next(s, Act(i)), i, m - 1, n);
    }
  }

  /** From the guards to the reset, when nobody else holds `BCLock`. */
  lemma ActsToReset(s: State, i: nat)
    requires i < |s.threads| && s.threads[i].Passed? && s.bcLock == FREE && s.round != s.simRounds
    ensures Acts(s, i, 4)
      == Goto(s, i, ResetDone)
        .(bcLock := i, round := s.round + 1, hasLeader := false, rows := s.rows + [s.round + 1])
  {
    var s1 := Next(s, Act(i));
    var s2 := Next(s1, Act(i));
    var s3 := Next(s2, Act(i));
    assert s3 == Goto(s, i, Incremented(s.threads[i].kind))
      .(bcLock := i, round := s.round + 1, rows := s.rows + [s.round + 1]);
    assert Acts(s3, i, 1) == Next(s3, Act(i)) == Acts(s1, i, 3);
  }

  /** From the announcement to the sleep, when the lock and the round are free. */
  lemma ActsToClaim(s: State, i: nat, m: Announcement)
    requires i < |s.threads| && s.threads[i] == Queued(m) && !m.fromRoot && m.round == s.round
    requires s.mcLock == FREE && !s.hasLeader
    ensures Acts(s, i, 2) == Goto(s, i, Spawned(m))
    ensures Acts(s, i, 6) == Goto(s, i, Sleeping(m)).(hasLeader := true)
  {
    var s1 := Next(s, Act(i));
    var s2 := Next(s1, Act(i));
    assert Acts(s1, i, 1) == s2 == Goto(s, i, Spawned(m));
    var s3 := Next(s2, Act(i));
    var s4 := Next(s3, Act(i));
    var s5 := Next(s4, Act(i));
    assert s5 == Goto(s, i, Claimed(m)).(hasLeader := true, mcLock := i);
    assert Acts(s5, i, 1) == Next(s5, Act(i)) == Acts(s3, i, 3);
    ActsAdd(s, i, 2, 4);
    assert Acts(s2, i, 4) == Acts(s3, i, 3);
  }

  /** The Dispatch test: a goroutine is started only for the current round, and only if it is not claimed yet. */
  lemma DispatchTest(s: State, i: nat, m: Announcement)
    requires i < |s.threads| && s.threads[i] == Queued(m)
    ensures Acts(s, i, 2)
         == Goto(s, i, if m.round == s.round && (m.fromRoot || !s.hasLeader) then Spawned(m) else Done)
  {
    var s1 := Next(s, Act(i));
    assert Acts(s1, i, 1) == Next(s1, Act(i));
  }

  /** A timer that gets the lock of another round than its own ends. */
  lemma StaleTimerEnds(s: State, i: nat, r: int)
    requires i < |s.threads| && s.threads[i] == TimerArmed(r) && s.mcLock == FREE && r != s.round
    ensures Acts(s, i, 2) == Goto(s, i, Done)
  {
    var s1 := Next(s, Act(i));
    assert s1 == Goto(s, i, TimerHolding(r)).(mcLock := i);
    assert Acts(s1, i, 1) == Next(s1, Act(i));
  }

  lemma TimerReads(s: State, i: nat, r: int)
    requires i < |s.threads| && s.threads[i] == TimerArmed(r) && s.mcLock == FREE && r == s.round
    ensures Acts(s, i, 2) == Goto(s, i, TimerRoundMatched(r)).(mcLock := i)
  {
    var s1 := Next(s, Act(i));
    assert s1 == Goto(s, i, TimerHolding(r)).(mcLock := i);
    assert Acts(s1, i, 1) == Next(s1, Act(i));
  }

  /** The timer's second test: of an unclaimed round it claims it and announces the root, otherwise it ends. */
  lemma TimerDecides(s: State, i: nat, r: int)
    requires i < |s.threads| && s.threads[i] == TimerRoundMatched(r)
    ensures s.hasLeader ==> Acts(s, i, 1) == Goto(s, i, Done).(mcLock := FREE)
    ensures !s.hasLeader ==> Acts(s, i, 2) == Goto(s, i, TimerClaimed(r)).(hasLeader := true)
  {
    var s1 := Next(s, Act(i));
    assert Acts(s1, i, 0) == s1;
    assert Acts(s1, i, 1) == Next(s1, Act(i));
  }

  lemma TimerAnnounces(s: State, i: nat, r: int)
    requires i < |s.threads| && s.threads[i] == TimerClaimed(r)
    ensures Acts(s, i, 2) == Spawn(Goto(s, i, Done), Queued(Announcement(true, s.round))).(mcLock := FREE)
  {
    var s1 := Next(s, Act(i));
    assert Acts(s1, i, 1) == Next(s1, Act(i));
  }

  /** From the sleep through the guards. */
  lemma ActsToPass(s: State, i: nat, m: Announcement)
    requires i < |s.threads| && s.threads[i] == Sleeping(m) && !m.fromRoot && m.round == s.round != 1
    requires s.hasLeader
    ensures Acts(s, i, 5) == Enter(s, i, Led, false)
  {
    var s1 := Next(s, Act(i));
    var s2 := Next(s1, Act(i));
    var s3 := Next(s2, Act(i));
    assert s3 == Goto(s, i, CheckingLeader(m, 1));
    var s4 := Next(s3, Act(i));
    assert Acts(s4, i, 1) == Next(s4, Act(i)) == Acts(s2, i, 3);
    assert Acts(s1, i, 4) == Acts(s2, i, 3);
  }

  /** One more goroutine, behind the guards. */
  function WithLeader(t: State): State {
    Spawn(t, Passed(Led)).(hasLeader := true, wins := t.wins + [Win(t.round, Led, false)])
  }

  /** A fresh announcement for the current round, up to the guarded section. */
  lemma ThenLead(s: State, steps: seq<Step>) returns (longer: seq<Step>)
    requires var t := Exec(s, steps); 2 <= t.round == t.told && t.mcLock == FREE && !t.hasLeader
    ensures Exec(s, longer) == WithLeader(Exec(s, steps))
  {
    var t := Exec(s, steps);
    var m, i := Announcement(false, t.round), |t.threads|;
    longer := ThenAnnounce(s, steps, t.round);
    var t1 := Spawn(t, Queued(m));
    longer := ThenActs(s, longer, i, 6);
    ActsToClaim(t1, i, m);
    var t2 := Goto(t1, i, Sleeping(m)).(hasLeader := true);
    longer := ThenActs(s, longer, i, 5);
    ActsToPass(t2, i, m);
  }

  const BOOT_WIN := Win(1, Boot, true)

  /** The start-up code closes round 1 and still holds `BCLock`. */
  lemma FirstRound(simRounds: int) returns (steps: seq<Step>)
    requires simRounds != 1
    ensures Exec(Init(simRounds), steps)
      == State(2, false, FREE, 0, [Announced], [0, 1, 2], [BOOT_WIN], 2, simRounds)
  {
    var s0 := Init(simRounds);
    steps := ThenActs(s0, [], 0, 4);
    ActsToReset(s0, 0);
    var s4 := State(2, false, FREE, 0, [ResetDone], [0, 1, 2], [BOOT_WIN], 1, simRounds);
    assert Exec(s0, steps) == s4;
    ExecStep(s0, steps, Act(0));
    steps := steps + [Act(0)];
  }

  /** Two goroutines inside the section: a run that leads there. */
  lemma SecondInside(simRounds: int) returns (steps: seq<Step>)
    requires simRounds != 1
    ensures Exec(Init(simRounds), steps).threads == [Announced, Passed(Led)]
  {
    var first := FirstRound(simRounds);
    steps := ThenLead(Init(simRounds), first);
  }

  /** A stall is reached unless the simulation ends after one or two rounds. */
  lemma StallReached(simRounds: int) returns (steps: seq<Step>)
    requires simRounds != 1 && simRounds != 2
    ensures Stalled(Exec(Init(simRounds), steps))
  {
    var s0 := Init(simRounds);
    var m := Announcement(false, 2);
    steps := FirstRound(simRounds);
    ExecStep(s0, steps, Act(0));
    steps := steps + [Act(0)];
    var s1 := State(2, false, FREE, FREE, [Done, TimerArmed(2)], [0, 1, 2], [BOOT_WIN], 2, simRounds);
    assert Exec(s0, steps) == s1;
    steps := ThenAnnounce(s0, steps, 2);
    var s2 := Spawn(s1, Queued(m));
    steps := ThenActs(s0, steps, 2, 2);
    ActsToClaim(s2, 2, m);
    var s3 := Spawn(s1, Spawned(m));
    assert Exec(s0, steps) == s3;
    steps := ThenLead(s0, steps);
    var s4 := Exec(s0, steps);
    steps := ThenActs(s0, steps, 3, 4);
    ActsToReset(s4, 3);
    var s5 := Exec(s0, steps);
    assert s5.threads == [Done, TimerArmed(2), Spawned(m), ResetDone] && s5.round == 3 && !s5.hasLeader;
    steps := LateClaimOf(simRounds, steps, 2);
  }

  const LEADER_OF_TWO := Announcement(false, 2)

  /** A leader has claimed round 2, whose timer has not looked yet. */
  lemma ClaimedInTime(simRounds: int) returns (steps: seq<Step>)
    requires simRounds != 1
    ensures Exec(Init(simRounds), steps)
      == State(2, true, FREE, FREE, [Done, TimerArmed(2), Sleeping(LEADER_OF_TWO)], [0, 1, 2], [BOOT_WIN], 2, simRounds)
  {
    var s0 := Init(simRounds);
    steps := FirstRound(simRounds);
    ExecStep(s0, steps, Act(0));
    steps := steps + [Act(0)];
    var s1 := State(2, false, FREE, FREE, [Done, TimerArmed(2)], [0, 1, 2], [BOOT_WIN], 2, simRounds);
    assert Exec(s0, steps) == s1;
    steps := ThenAnnounce(s0, steps, 2);
    var s2 := Spawn(s1, Queued(LEADER_OF_TWO));
    steps := ThenActs(s0, steps, 2, 6);
    ActsToClaim(s2, 2, LEADER_OF_TWO);
  }

  /** The leader closes round 2 after the timer's first test. */
  lemma ClosedBetweenTests(simRounds: int) returns (steps: seq<Step>)
    requires simRounds != 1 && simRounds != 2
    ensures Exec(Init(simRounds), steps)
      == State(3, false, 1, 2, [Done, TimerRoundMatched(2), ResetDone], [0, 1, 2, 3],
               [BOOT_WIN, Win(2, Led, false)], 2, simRounds)
  {
    var s0 := Init(simRounds);
    steps := ClaimedInTime(simRounds);
    var s1 := Exec(s0, steps);
    steps := ThenActs(s0, steps, 1, 2);
    TimerReads(s1, 1, 2);
    var s2 := Exec(s0, steps);
    assert s2.threads == [Done, TimerRoundMatched(2), Sleeping(LEADER_OF_TWO)];
    steps := ThenActs(s0, steps, 2, 5);
    ActsToPass(s2, 2, LEADER_OF_TWO);
    var s3 := Exec(s0, steps);
    assert s3.threads == [Done, TimerRoundMatched(2), Passed(Led)];
    steps := ThenActs(s0, steps, 2, 4);
    ActsToReset(s3, 2);
  }

  /**
  The timer's two tests are not one: a round can be closed between them, and then the timer
  of a round that is over claims the next one, which has not had its time.
  */
  lemma TimerClaimsNextRound(simRounds: int) returns (steps: seq<Step>)
    requires simRounds != 1 && simRounds != 2
    ensures var s := Exec(Init(simRounds), steps);
      |s.threads| == 3 && s.threads[1] == TimerClaimed(2) && s.round == 3 && s.hasLeader
  {
    steps := ClosedBetweenTests(simRounds);
    var s := Exec(Init(simRounds), steps);
    steps := ThenActs(Init(simRounds), steps, 1, 2);
    TimerDecides(s, 1, 2);
  }

  /** A late announcer that gets the lock of a round nobody has claimed yet. */
  lemma LateClaimOf(simRounds: int, steps: seq<Step>, i: nat) returns (longer: seq<Step>)
    requires var s := Exec(Init(simRounds), steps);
      && i < |s.threads| && s.threads[i].Spawned? && !s.threads[i].m.fromRoot && s.threads[i].m.round < s.round
      && s.mcLock == FREE && !s.hasLeader
    ensures Stalled(Exec(Init(simRounds), longer))
  {
    var s0 := Init(simRounds);
    var s := Exec(s0, steps);
    var s1 := Goto(s, i, Holding(s.threads[i].m)).(mcLock := i);
    var s2 := Goto(s1, i, Winning(s.threads[i].m));
    ExecStep(s0, steps, Act(i));
    assert Exec(s0, steps + [Act(i)]) == s1;
    ExecStep(s0, steps + [Act(i)], Act(i));
    longer := steps + [Act(i)] + [Act(i)];
    assert Exec(s0, longer) == s2;
    StallsExactly(simRounds, longer, Act(i));
    longer := longer + [Act(i)];
  }

  /** In a simulation of one or two rounds no run stalls. */
  lemma {:induction false} ShortRunsNeverStall(simRounds: int, steps: seq<Step>)
    requires simRounds == 1 || simRounds == 2
    ensures !Stalled(Exec(Init(simRounds), steps))
    decreases |steps|
  {
    if steps != [] {
      var past, step := steps[..|steps| - 1], steps[|steps| - 1];
      ShortRunsNeverStall(simRounds, past);
      assert past + [step] == steps;
      StallsExactly(simRounds, past, step);
      var s := Exec(Init(simRounds), past);
      RunInv(simRounds, past);
      RunEnd(simRounds, past);
      if LateClaim(s, step) { LateClaimBefore(s, simRounds, step); }
    }
  }
}
