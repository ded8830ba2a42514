/**
 * The side chain's committee. The root keeps a queue of tree nodes: every main
 * chain leader is moved to its front, and at the end of an epoch the queue is
 * cut to its first `window - 1` entries, whose first entry leads the next epoch
 * (MainAndSideChain/SideChainProtocol(ChainBoost).go).
 *
 * No lock protects the queue. Moving a leader to its front, closing an epoch and
 * handling the message of a new epoch run in different goroutines, so every read
 * and every write of the queue is one event here.
 */
module Committee {

  import opened Sequences
  import opened Wrappers

  type NodeId = nat

  // ---------------------------------------------------------------- the queue

  /** `list` without any occurrence of `x`, order kept. */
  function Without(list: seq<NodeId>, x: NodeId): seq<NodeId> {
    if list == [] then []
    else (if list[0] == x then [] else [list[0]]) + Without(list[1..], x)
  }

  function MoveToFront(list: seq<NodeId>, x: NodeId): seq<NodeId> {
    [x] + Without(list, x)
  }

  /** Where the search loop stops: the first position of `x`, or the length. */
  function Position(list: seq<NodeId>, x: NodeId): (t: nat)
    ensures t <= |list| && x !in list[..t] && (t < |list| ==> list[t] == x)
  {
    if list == [] || list[0] == x then 0
    else
      var t := Position(list[1..], x);
      assert list[..t + 1] == [list[0]] + list[1..][..t];
      t + 1
  }

  /**
   * How far the call of UpdateSideChainCommittee for leader `x` has come. The search
   * loop looks at the queue as it was when the loop began; everything after it reads
   * the queue again, entry by entry when the queue is rebuilt.
   */
  datatype Update =
    | Idle
    | Searched(x: NodeId, t: nat)
    | Extending(x: NodeId)
    | Measuring(x: NodeId)
    | Rebuilding(x: NodeId, len: nat, i: int, kept: seq<NodeId>)
    | Keeping(x: NodeId, len: nat, i: int, kept: seq<NodeId>)
    | Moved(x: NodeId, list: seq<NodeId>)

  datatype State = State(
    members: seq<NodeId>,          // CommitteeNodesTreeNodeID of the root
    nextLeader: NodeId,
    sent: seq<NodeId>,             // the list in the last message to a side chain leader
    cut: Option<seq<NodeId>>,      // the cut queue between being taken and being stored
    update: Update,
    crashed: bool,                 // an index or slice was out of range
    history: seq<NodeId>)          // every leader whose update is complete

  /**
   * NewLeader: an update begins; LeaderRace.MutualExclusion is why there is only one at
   * a time. Continue: its next access. TakeCut and StoreCut: closing an epoch, which
   * also sends the cut; the message sent then starts the next epoch, so that epochs are
   * closed one at a time. SelfDelivery: the root is the next leader itself, and handling
   * its own message overwrites the queue. Events that cannot happen change nothing.
   */
  datatype Event = NewLeader(x: NodeId) | Continue | TakeCut | StoreCut | SelfDelivery

  function Proceed(s: State): State {
    if s.crashed then s
    else
      match s.update
      case Idle => s
      case Searched(x, t) => s.(update := if t != |s.members| then Measuring(x) else Extending(x))
      case Extending(x) => s.(update := Moved(x, [x] + s.members))
      case Measuring(x) => s.(update := Rebuilding(x, |s.members|, |s.members| - 1, []))
      case Rebuilding(x, len, i, kept) =>
        if i < 0 then s.(update := Moved(x, [x] + kept))
        else if i >= |s.members| then s.(crashed := true)
        else s.(update := if s.members[i] != x then Keeping(x, len, i, kept) else Rebuilding(x, len, i - 1, kept))
      case Keeping(x, len, i, kept) =>
        if 0 <= i < |s.members| then s.(update := Rebuilding(x, len, i - 1, [s.members[i]] + kept))
        else s.(crashed := true)
      case Moved(x, list) => s.(members := list, history := s.history + [x], update := Idle)
  }

  function Next(window: nat, s: State, e: Event): State {
    if s.crashed then s
    else
      match e
      case NewLeader(x) => if s.update.Idle? then s.(update := Searched(x, Position(s.members, x))) else s
      case Continue => Proceed(s)
      case TakeCut =>
        if s.cut.Some? then s
        else if 1 <= window <= |s.members| + 1 then s.(cut := Some(s.members[..window - 1]))
        else s.(crashed := true)
      case StoreCut =>
        if s.cut.None? then s
        else if s.cut.value == [] then s.(crashed := true)
        else s.(nextLeader := s.cut.value[0], members := s.cut.value, sent := s.cut.value, cut := None)
      case SelfDelivery => s.(members := s.sent)
  }

  function Exec(window: nat, s: State, events: seq<Event>): State {
    if events == [] then s
    else Next(window, Exec(window, s, events[..|events| - 1]), events[|events| - 1])
  }

  /** The first committee counts as announced in reverse, so that its first entry is its latest. */
  ghost predicate Initial(window: nat, s: State) {
    && 2 <= window == |s.members| && Distinct(s.members)
    && s == State(s.members, s.members[0], s.members, None, Idle, false, Reversed(s.members))
  }

  lemma {:induction false} WithoutMembers(list: seq<NodeId>, x: NodeId, y: NodeId)
    ensures y in Without(list, x) <==> y in list && y != x
  {
    if list == [] {
    } else {
      WithoutMembers(list[1..], x, y);
      assert list == [list[0]] + list[1..];
    }
  }

  lemma DistinctBehind(v: NodeId, list: seq<NodeId>)
    requires Distinct(list) && v !in list
    ensures Distinct([v] + list)
  {
  }

  lemma {:induction false} WithoutKeepsDistinct(list: seq<NodeId>, x: NodeId)
    requires Distinct(list)
    ensures Distinct(Without(list, x))
    ensures |Without(list, x)| == if x in list then |list| - 1 else |list|
  {
    if list == [] {
      assert Without(list, x) == [];
    } else {
      var rest := list[1..];
      WithoutKeepsDistinct(rest, x);
      assert list[0] !in rest;
      if list[0] == x {
        assert Without(list, x) == Without(rest, x);
      } else {
        WithoutMembers(rest, x, list[0]);
        DistinctBehind(list[0], Without(rest, x));
        assert x in list <==> x in rest;
      }
    }
  }

  lemma WithoutDistinct(list: seq<NodeId>, x: NodeId)
    requires Distinct(list)
    ensures Distinct(MoveToFront(list, x))
    ensures |Without(list, x)| == if x in list then |list| - 1 else |list|
  {
    WithoutKeepsDistinct(list, x);
    WithoutMembers(list, x, x);
    DistinctBehind(x, Without(list, x));
  }

  lemma {:induction false} WithoutPrefix(short: seq<NodeId>, long: seq<NodeId>, x: NodeId)
    requires short <= long
    ensures Without(short, x) <= Without(long, x)
  {
    if short == [] {
      assert Without(short, x) == [];
    } else {
      assert short[1..] <= long[1..];
      WithoutPrefix(short[1..], long[1..], x);
      PrefixBehind(if short[0] == x then [] else [short[0]], Without(short[1..], x), Without(long[1..], x));
    }
  }

  lemma PrefixBehind(head: seq<NodeId>, short: seq<NodeId>, long: seq<NodeId>)
    requires short <= long
    ensures head + short <= head + long
  {
  }

  // ------------------------------------------------- the never-truncated list

  /** All nodes of a history, latest first: what the queue would be if never cut. */
  function Recency(history: seq<NodeId>): seq<NodeId> {
    if history == [] then []
    else MoveToFront(Recency(history[..|history| - 1]), history[|history| - 1])
  }

  function LastIndex(history: seq<NodeId>, y: NodeId): int {
    if history == [] then -1
    else if history[|history| - 1] == y then |history| - 1
    else LastIndex(history[..|history| - 1], y)
  }

  ghost predicate LatestFirst(history: seq<NodeId>, list: seq<NodeId>) {
    forall i, j :: 0 <= i < j < |list| ==> LastIndex(history, list[i]) > LastIndex(history, list[j])
  }

  lemma {:induction false} LastIndexBound(history: seq<NodeId>, y: NodeId)
    ensures -1 <= LastIndex(history, y) < |history|
    ensures y in history <==> LastIndex(history, y) >= 0
    ensures y in history ==> history[LastIndex(history, y)] == y
  {
    if history == [] {
    } else {
      var n := |history| - 1;
      LastIndexBound(history[..n], y);
      assert history == history[..n] + [history[n]];
    }
  }

  lemma {:induction false} WithoutLatestFirst(history: seq<NodeId>, list: seq<NodeId>, x: NodeId)
    requires LatestFirst(history, list)
    ensures LatestFirst(history, Without(list, x))
  {
    if list == [] {
    } else {
      assert forall i :: 0 <= i < |list[1..]| ==> list[1..][i] == list[i + 1];
      WithoutLatestFirst(history, list[1..], x);
      var rest := Without(list[1..], x);
      forall j | 0 <= j < |rest| ensures LastIndex(history, list[0]) > LastIndex(history, rest[j]) {
        WithoutMembers(list[1..], x, rest[j]);
      }
    }
  }

  /**
   * `Recency` is what its name says: it lists exactly the nodes of the history,
   * each once, ordered by their last occurrence, latest first.
   */
  lemma {:induction false} RecencyIsByLastOccurrence(history: seq<NodeId>)
    ensures Distinct(Recency(history))
    ensures forall y :: y in Recency(history) <==> y in history
    ensures LatestFirst(history, Recency(history))
  {
    if history == [] {
    } else {
      var n := |history| - 1;
      var past, x := history[..n], history[n];
      assert history == past + [x];
      RecencyIsByLastOccurrence(past);
      var before := Recency(past);
      WithoutDistinct(before, x);
      WithoutLatestFirst(past, before, x);
      var rest := Without(before, x);
      forall y ensures y in Recency(history) <==> y in history {
        WithoutMembers(before, x, y);
      }
      forall j | 0 <= j < |rest|
        ensures LastIndex(history, rest[j]) == LastIndex(past, rest[j]) < n
      {
        WithoutMembers(before, x, rest[j]);
        LastIndexBound(past, rest[j]);
      }
    }
  }

  function Reversed(s: seq<NodeId>): seq<NodeId> {
    if s == [] then [] else Reversed(s[1..]) + [s[0]]
  }

  /** A first committee counts as announced in reverse, so that its first entry is its latest. */
  lemma {:induction false} RecencyOfReversed(s: seq<NodeId>)
    requires Distinct(s)
    ensures Recency(Reversed(s)) == s
  {
    if s == [] {
    } else {
      RecencyOfReversed(s[1..]);
      var h := Reversed(s);
      assert h[..|h| - 1] == Reversed(s[1..]);
      WithoutAbsent(s[1..], s[0]);
    }
  }

  lemma {:induction false} WithoutAbsent(list: seq<NodeId>, x: NodeId)
    requires x !in list
    ensures Without(list, x) == list
  {
    if list == [] {
    } else {
      WithoutAbsent(list[1..], x);
    }
  }

  // ---------------------------------------------------------- an update's accesses

  predicate InLoop(u: Update) {
    u.Rebuilding? || u.Keeping?
  }

  /** The entry the rebuild reads next exists. */
  predicate InRange(s: State) {
    InLoop(s.update) ==> s.update.i < |s.members|
  }

  /**
   * What an update relies on: all it has read were entries of `base`, or of a prefix of
   * it, and what it is going to write has at least `low` entries.
   */
  ghost predicate UpdateOk(s: State, base: seq<NodeId>, low: nat) {
    match s.update
    case Idle => true
    case Searched(x, t) => t <= |base| && x !in base[..t]
    case Extending(x) => x !in s.members
    case Measuring(x) => true
    case Rebuilding(x, len, i, kept) =>
      low <= len <= |base| && -1 <= i < len && kept == Without(base[i + 1..len], x)
    case Keeping(x, len, i, kept) =>
      low <= len <= |base| && 0 <= i < len && kept == Without(base[i + 1..len], x) && base[i] != x
    case Moved(x, list) => low <= |list| && list <= MoveToFront(base, x)
  }

  /** While the queue is a prefix of `base`, an update reads what it would read there. */
  lemma ProceedOk(s: State, base: seq<NodeId>, low: nat)
    requires Distinct(base) && s.members <= base && low <= |s.members|
    requires !s.crashed && InRange(s) && UpdateOk(s, base, low)
    ensures var t := Proceed(s); !t.crashed && InRange(t)
    ensures !s.update.Moved? ==> UpdateOk(Proceed(s), base, low)
  {
    match s.update
    case Idle =>
    case Searched(x, t) => SearchedOk(s, base, low);
    case Extending(x) => ExtendingOk(s, base, low);
    case Measuring(x) => MeasuringOk(s, base, low);
    case Moved(x, list) =>
    case _ => LoopOk(s, base, low);
  }

  lemma SearchedOk(s: State, base: seq<NodeId>, low: nat)
    requires s.members <= base && !s.crashed && s.update.Searched? && UpdateOk(s, base, low)
    ensures var t := Proceed(s); !t.crashed && InRange(t) && UpdateOk(t, base, low)
  {
    assert base[..|s.members|] == s.members;
  }

  lemma ExtendingOk(s: State, base: seq<NodeId>, low: nat)
    requires s.members <= base && low <= |s.members|
    requires !s.crashed && s.update.Extending? && UpdateOk(s, base, low)
    ensures var t := Proceed(s); !t.crashed && InRange(t) && UpdateOk(t, base, low)
  {
    WithoutAbsent(s.members, s.update.x);
    WithoutPrefix(s.members, base, s.update.x);
  }

  lemma MeasuringOk(s: State, base: seq<NodeId>, low: nat)
    requires s.members <= base && low <= |s.members| && !s.crashed && s.update.Measuring?
    ensures var t := Proceed(s); !t.crashed && InRange(t) && UpdateOk(t, base, low)
  {
    var n := |s.members|;
    assert base[n..n] == [] && Without([], s.update.x) == [];
    if n == 0 {
      assert base[0..0] == [];
    }
  }

  lemma LoopOk(s: State, base: seq<NodeId>, low: nat)
    requires Distinct(base) && s.members <= base && InLoop(s.update)
    requires !s.crashed && InRange(s) && UpdateOk(s, base, low)
    ensures var t := Proceed(s); !t.crashed && InRange(t) && UpdateOk(t, base, low)
  {
    var x, len, i := s.update.x, s.update.len, s.update.i;
    if i >= 0 {
      assert s.members[i] == base[i];
      RebuildStep(base, len, i, x);
    } else {
      RebuildDone(base, len, x);
    }
  }

  lemma RebuildStep(base: seq<NodeId>, len: nat, i: nat, x: NodeId)
    requires i < len <= |base|
    ensures Without(base[i..len], x)
            == if base[i] == x then Without(base[i + 1..len], x) else [base[i]] + Without(base[i + 1..len], x)
  {
    WithoutStep(base[..len], i, x);
    assert base[..len][i..] == base[i..len] && base[..len][i + 1..] == base[i + 1..len];
  }

  lemma RebuildDone(base: seq<NodeId>, len: nat, x: NodeId)
    requires Distinct(base) && len <= |base|
    ensures var list := [x] + Without(base[0..len], x);
            len <= |list| && list <= MoveToFront(base, x)
  {
    WithoutPrefix(base[0..len], base, x);
    WithoutDistinct(base[0..len], x);
  }

  /** `n` accesses without anything in between. */
  function Accesses(s: State, n: nat): State
    decreases n
  {
    if n == 0 then s else Accesses(Proceed(s), n - 1)
  }

  /** An undisturbed update moves the leader to the front. */
  lemma UndisturbedUpdate(window: nat, s: State, x: NodeId) returns (n: nat)
    requires !s.crashed && s.update.Idle?
    ensures Accesses(Next(window, s, NewLeader(x)), n)
         == s.(members := MoveToFront(s.members, x), history := s.history + [x])
    ensures n <= 2 * |s.members| + 4
  {
    var s1 := Next(window, s, NewLeader(x));
    var s2 := Proceed(s1);
    var s3 := Proceed(s2);
    if s1.update.t == |s.members| {
      assert s.members[..s1.update.t] == s.members;
      WithoutAbsent(s.members, x);
      n := 4;
      assert Accesses(s3, 1) == Proceed(s3) == Accesses(s2, 2);
    } else {
      var k := UndisturbedRebuild(s3, x, |s.members| - 1, []);
      n := k + 2;
    }
  }

  lemma {:induction false} UndisturbedRebuild(s: State, x: NodeId, i: int, kept: seq<NodeId>) returns (n: nat)
    requires s.update == Rebuilding(x, |s.members|, i, kept) && !s.crashed
    requires -1 <= i < |s.members| && kept == Without(s.members[i + 1..], x)
    ensures Accesses(s, n)
         == s.(members := MoveToFront(s.members, x), history := s.history + [x], update := Idle)
    ensures n <= 2 * (i + 1) + 2
    decreases i + 1
  {
    var s1 := Proceed(s);
    if i == -1 {
      assert s.members[0..] == s.members;
      n := 2;
      assert Accesses(s1, 1) == Proceed(s1);
    } else {
      WithoutStep(s.members, i, x);
      if s.members[i] == x {
        n := UndisturbedRebuild(s1, x, i - 1, kept);
        n := n + 1;
      } else {
        n := UndisturbedRebuild(Proceed(s1), x, i - 1, [s.members[i]] + kept);
        assert Accesses(s1, n + 1) == Accesses(Proceed(s1), n);
        n := n + 2;
      }
    }
  }

  // -------------------------------------------------------- when nothing is lost

  /**
   * The queue is a prefix of the never-truncated recency list, so that nobody who will
   * matter later is missing, and no index is out of range.
   */
  ghost predicate Fine(s: State) {
    !s.crashed && s.members <= Recency(s.history) && InRange(s)
  }

  /** Overwriting the queue with `list` only cuts it, and not below what a rebuild reads next. */
  predicate OnlyCuts(s: State, list: seq<NodeId>) {
    list <= s.members && (InLoop(s.update) ==> s.update.i < |list|)
  }

  /** The condition on an event: if it overwrites the queue, it only cuts it. */
  predicate Harmless(s: State, e: Event) {
    && (e.StoreCut? && s.cut.Some? ==> OnlyCuts(s, s.cut.value))
    && (e.SelfDelivery? ==> OnlyCuts(s, s.sent))
  }

  /** What holds beside `Fine` as long as nothing is lost. */
  ghost predicate Sound(window: nat, s: State) {
    && 2 <= window && Fine(s)
    && window - 1 <= |s.sent| <= |s.members|
    && (s.cut.Some? ==> |s.cut.value| == window - 1)
    && UpdateOk(s, Recency(s.history), |s.sent|)
  }

  lemma InitialSound(window: nat, s: State)
    requires Initial(window, s)
    ensures Sound(window, s)
  {
    RecencyOfReversed(s.members);
  }

  lemma SoundNext(window: nat, s: State, e: Event)
    requires Sound(window, s) && Harmless(s, e)
    ensures Sound(window, Next(window, s, e))
  {
    match e
    case NewLeader(x) => if s.update.Idle? { PositionInPrefix(s.members, Recency(s.history), x); }
    case Continue => SoundProceed(window, s);
    case StoreCut => if s.cut.Some? { CutKeepsUpdate(s, Next(window, s, e), Recency(s.history)); }
    case SelfDelivery => CutKeepsUpdate(s, Next(window, s, e), Recency(s.history));
    case TakeCut =>
  }

  lemma SoundProceed(window: nat, s: State)
    requires Sound(window, s)
    ensures Sound(window, Proceed(s))
  {
    RecencyIsByLastOccurrence(s.history);
    ProceedOk(s, Recency(s.history), |s.sent|);
    if s.update.Moved? {
      RecencyStep(s.history, s.update.x);
    } else {
      OnlyMovedWrites(s);
    }
  }

  lemma OnlyMovedWrites(s: State)
    requires !s.update.Moved?
    ensures var t := Proceed(s);
            t == s.(update := t.update, crashed := t.crashed)
  {
  }

  lemma PositionInPrefix(list: seq<NodeId>, base: seq<NodeId>, x: NodeId)
    requires list <= base
    ensures x !in base[..Position(list, x)]
  {
    assert base[..Position(list, x)] == list[..Position(list, x)];
  }

  lemma RecencyStep(history: seq<NodeId>, x: NodeId)
    ensures Recency(history + [x]) == MoveToFront(Recency(history), x)
  {
    assert (history + [x])[..|history|] == history;
  }

  /** An update survives a cut of the queue. */
  lemma CutKeepsUpdate(s: State, t: State, base: seq<NodeId>)
    requires s.update == t.update && t.members <= s.members && |t.sent| <= |s.sent|
    requires UpdateOk(s, base, |s.sent|)
    ensures UpdateOk(t, base, |t.sent|)
  {
    if s.update.Extending? { AbsentFromPrefix(t.members, s.members, s.update.x); }
  }

  lemma AbsentFromPrefix(short: seq<NodeId>, long: seq<NodeId>, x: NodeId)
    requires short <= long && x !in long
    ensures x !in short
  {
    assert forall i :: 0 <= i < |short| ==> short[i] == long[i];
  }

  /** Exactly the harmless events keep the queue a prefix and its indexes in range. */
  lemma FineExactlyIfHarmless(window: nat, s: State, e: Event)
    requires Sound(window, s)
    ensures Fine(Next(window, s, e)) <==> Harmless(s, e)
  {
    if Harmless(s, e) {
      SoundNext(window, s, e);
    } else if Fine(Next(window, s, e)) {
      PrefixesCompare(Next(window, s, e).members, s.members, Recency(s.history));
    }
  }

  lemma PrefixesCompare(short: seq<NodeId>, long: seq<NodeId>, all: seq<NodeId>)
    requires short <= all && long <= all && |short| <= |long|
    ensures short <= long
  {
    assert short == all[..|short|] == long[..|short|];
  }

  ghost predicate FineAt(window: nat, s: State, events: seq<Event>, k: nat)
    requires k <= |events|
  {
    Fine(Exec(window, s, events[..k]))
  }

  predicate HarmlessAt(window: nat, s: State, events: seq<Event>, k: nat)
    requires k < |events|
  {
    Harmless(Exec(window, s, events[..k]), events[k])
  }

  ghost predicate AlwaysFine(window: nat, s: State, events: seq<Event>) {
    forall k :: 0 <= k <= |events| ==> FineAt(window, s, events, k)
  }

  ghost predicate AlwaysHarmless(window: nat, s: State, events: seq<Event>) {
    forall k :: 0 <= k < |events| ==> HarmlessAt(window, s, events, k)
  }

  /** The beginning of a run is a run. */
  lemma Beginning(window: nat, s: State, events: seq<Event>, n: nat)
    requires n <= |events|
    ensures forall k :: 0 <= k <= n ==> FineAt(window, s, events[..n], k) == FineAt(window, s, events, k)
    ensures forall k :: 0 <= k < n ==> HarmlessAt(window, s, events[..n], k) == HarmlessAt(window, s, events, k)
  {
    forall k | 0 <= k <= n ensures events[..n][..k] == events[..k] {
    }
  }

  lemma {:induction false} HarmlessRunsAreSound(window: nat, s: State, events: seq<Event>)
    requires Initial(window, s) && AlwaysHarmless(window, s, events)
    ensures Sound(window, Exec(window, s, events))
  {
    if events == [] {
      InitialSound(window, s);
    } else {
      var n := |events| - 1;
      Beginning(window, s, events, n);
      HarmlessRunsAreSound(window, s, events[..n]);
      assert HarmlessAt(window, s, events, n);
      SoundNext(window, Exec(window, s, events[..n]), events[n]);
    }
  }

  /**
   * Over every run: the queue is a prefix of the recency list all the time, and no index
   * is ever out of range, exactly if every event that overwrites the queue, be it the
   * end of an epoch or a message to oneself, finds the list it writes at the queue's
   * front.
   */
  lemma QueueIsRecencyPrefix(window: nat, s: State, events: seq<Event>)
    requires Initial(window, s)
    ensures AlwaysFine(window, s, events) <==> AlwaysHarmless(window, s, events)
  {
    if AlwaysHarmless(window, s, events) {
      forall k: nat | k <= |events| ensures FineAt(window, s, events, k) {
        Beginning(window, s, events, k);
        HarmlessRunsAreSound(window, s, events[..k]);
      }
    } else {
      FirstHarm(window, s, events);
    }
  }

  /** The first harmful event of a run leaves the queue wrong. */
  lemma {:induction false} FirstHarm(window: nat, s: State, events: seq<Event>)
    requires Initial(window, s) && !AlwaysHarmless(window, s, events)
    ensures !AlwaysFine(window, s, events)
  {
    var n := |events| - 1;
    Beginning(window, s, events, n);
    if AlwaysHarmless(window, s, events[..n]) {
      LastHarm(window, s, events);
    } else {
      FirstHarm(window, s, events[..n]);
      var k: nat :| k <= n && !FineAt(window, s, events[..n], k);
      assert !FineAt(window, s, events, k);
    }
  }

  lemma LastHarm(window: nat, s: State, events: seq<Event>)
    requires Initial(window, s) && events != []
    requires AlwaysHarmless(window, s, events[..|events| - 1]) && !HarmlessAt(window, s, events, |events| - 1)
    ensures !FineAt(window, s, events, |events|)
  {
    var n := |events| - 1;
    HarmlessRunsAreSound(window, s, events[..n]);
    FineExactlyIfHarmless(window, Exec(window, s, events[..n]), events[n]);
    assert events[..|events|] == events;
  }

  /**
   * The committee taken for an epoch is then the `window - 1` most recent distinct
   * leaders: all of them were announced, and whoever was announced but is not
   * among them was last announced before every one of them.
   */
  lemma CommitteeIsMostRecent(window: nat, s: State, events: seq<Event>)
    requires Initial(window, s) && AlwaysHarmless(window, s, events)
    requires Exec(window, s, events).cut.None?
    ensures var h := Exec(window, s, events).history;
            var t := Next(window, Exec(window, s, events), TakeCut);
            && !t.crashed && t.cut.Some? && |t.cut.value| == window - 1
            && Distinct(t.cut.value) && LatestFirst(h, t.cut.value)
            && (forall y :: y in t.cut.value ==> y in h)
            && (forall y, z ::
                  y in h && y !in t.cut.value && z in t.cut.value ==> LastIndex(h, y) < LastIndex(h, z))
  {
    HarmlessRunsAreSound(window, s, events);
    var t := Exec(window, s, events);
    var h := t.history;
    var r := Recency(h);
    RecencyIsByLastOccurrence(h);
    var c := Next(window, t, TakeCut).cut.value;
    assert c == r[..window - 1];
    forall y, z | y in h && y !in c && z in c
      ensures LastIndex(h, y) < LastIndex(h, z)
    {
      assert y in r;
      var i := IndexBeyond(r, window - 1, y);
      var j := IndexIn(c, z);
      assert c[j] == r[j];
    }
  }

  lemma IndexIn(s: seq<NodeId>, y: NodeId) returns (i: nat)
    requires y in s
    ensures i < |s| && s[i] == y
  {
    i :| 0 <= i < |s| && s[i] == y;
  }

  lemma IndexBeyond(s: seq<NodeId>, k: nat, y: NodeId) returns (i: nat)
    requires k <= |s| && y in s && y !in s[..k]
    ensures k <= i < |s| && s[i] == y
  {
    assert s == s[..k] + s[k..];
    var j := IndexIn(s[k..], y);
    i := k + j;
  }

  /** The leader set when an epoch is closed without harm is the node announced last. */
  lemma NextLeaderIsLatest(window: nat, s: State, events: seq<Event>)
    requires Initial(window, s) && AlwaysHarmless(window, s, events + [StoreCut])
    requires Exec(window, s, events).cut.Some?
    ensures var t := Exec(window, s, events + [StoreCut]);
            t.history != [] && t.nextLeader == t.history[|t.history| - 1]
  {
    var all := events + [StoreCut];
    Beginning(window, s, all, |events|);
    assert all[..|events|] == events;
    HarmlessRunsAreSound(window, s, events);
    var t := Exec(window, s, events);
    assert HarmlessAt(window, s, all, |events|);
    RecencyIsByLastOccurrence(t.history);
    assert Recency(t.history) != [];
  }

  // ------------------------------------------------------- what holds in every run

  /** What makes every slice legal, leaders lost or not. */
  ghost predicate Safe(window: nat, s: State) {
    && 2 <= window && !s.crashed && InRange(s)
    && Distinct(s.members) && window - 1 <= |s.members|
    && Distinct(s.sent) && window - 1 <= |s.sent|
    && (s.cut.Some? ==> Distinct(s.cut.value) && |s.cut.value| == window - 1)
    && UpdateOk(s, s.members, window - 1)
  }

  /** No update is under way when the queue is overwritten. */
  predicate BetweenUpdates(s: State, e: Event) {
    (e.StoreCut? && s.cut.Some?) || e.SelfDelivery? ==> s.update.Idle?
  }

  lemma SafeNext(window: nat, s: State, e: Event)
    requires Safe(window, s) && BetweenUpdates(s, e)
    ensures Safe(window, Next(window, s, e))
  {
    match e
    case Continue => SafeProceed(window, s);
    case TakeCut => SafeTakeCut(window, s);
    case StoreCut =>
    case SelfDelivery =>
    case NewLeader(x) => if s.update.Idle? { PositionInPrefix(s.members, s.members, x); }
  }

  lemma SafeProceed(window: nat, s: State)
    requires Safe(window, s)
    ensures Safe(window, Proceed(s))
  {
    ProceedOk(s, s.members, window - 1);
    if s.update.Moved? {
      WithoutDistinct(s.members, s.update.x);
    } else {
      OnlyMovedWrites(s);
    }
  }

  lemma SafeTakeCut(window: nat, s: State)
    requires Safe(window, s)
    ensures Safe(window, Next(window, s, TakeCut))
  {
    if s.cut.None? {
      var cut := s.members[..window - 1];
      assert Next(window, s, TakeCut) == s.(cut := Some(cut));
      assert Distinct(cut);
    }
  }

  /**
   * In every run in which the queue is overwritten between updates only, leaders lost
   * or not: no duplicates, at least `window - 1` entries, and no index or slice out of
   * range.
   */
  lemma {:induction false} SafeInEveryRun(window: nat, s: State, events: seq<Event>)
    requires Initial(window, s)
    requires forall k :: 0 <= k < |events| ==> BetweenUpdates(Exec(window, s, events[..k]), events[k])
    ensures Safe(window, Exec(window, s, events))
  {
    if events == [] {
    } else {
      var n := |events| - 1;
      forall k | 0 <= k < n
        ensures BetweenUpdates(Exec(window, s, events[..n][..k]), events[..n][k])
      {
        assert events[..n][..k] == events[..k];
      }
      SafeInEveryRun(window, s, events[..n]);
      SafeNext(window, Exec(window, s, events[..n]), events[n]);
    }
  }

  // ------------------------------------------------------------------- calm runs

  lemma ExecStep(window: nat, s: State, events: seq<Event>, e: Event)
    ensures Exec(window, s, events + [e]) == Next(window, Exec(window, s, events), e)
  {
    assert (events + [e])[..|events|] == events;
  }

  /** A whole update, with so many accesses, or the end of an epoch, both steps back to back. */
  datatype Turn = Update(x: NodeId, accesses: nat) | Epoch

  function Continues(n: nat): seq<Event> {
    if n == 0 then [] else [Continue] + Continues(n - 1)
  }

  /** The events of a run that consists of turns. */
  function Script(turns: seq<Turn>): seq<Event> {
    if turns == [] then []
    else
      var past := Script(turns[..|turns| - 1]);
      match turns[|turns| - 1]
      case Update(x, n) => past + [NewLeader(x)] + Continues(n)
      case Epoch => past + [TakeCut] + [StoreCut]
  }

  function Leaders(turns: seq<Turn>): seq<NodeId> {
    if turns == [] then []
    else
      var turn := turns[|turns| - 1];
      Leaders(turns[..|turns| - 1]) + if turn.Update? then [turn.x] else []
  }

  /** Every update has enough accesses to come to its end; the queue grows by one entry a turn at most. */
  predicate Patient(window: nat, turns: seq<Turn>) {
    forall k :: 0 <= k < |turns| && turns[k].Update? ==> 2 * (window + k) + 4 <= turns[k].accesses
  }

  lemma Regroup<T>(a: seq<T>, b: seq<T>, c: seq<T>)
    ensures a + (b + c) == a + b + c
  {
  }

  lemma OneContinue(window: nat, s: State, events: seq<Event>)
    ensures Exec(window, s, events + [Continue]) == Accesses(Exec(window, s, events), 1)
  {
    ExecStep(window, s, events, Continue);
    var t := Exec(window, s, events);
    assert Accesses(t, 1) == Accesses(Proceed(t), 0);
  }

  lemma {:induction false} ExecContinues(window: nat, s: State, events: seq<Event>, n: nat)
    ensures Exec(window, s, events + Continues(n)) == Accesses(Exec(window, s, events), n)
    decreases n
  {
    if n == 0 {
      assert events + [] == events;
    } else {
      OneContinue(window, s, events);
      ExecContinues(window, s, events + [Continue], n - 1);
      AccessesAdd(Exec(window, s, events), 1, n - 1);
      Regroup(events, [Continue], Continues(n - 1));
    }
  }

  lemma {:induction false} AccessesAdd(s: State, m: nat, n: nat)
    ensures Accesses(s, m + n) == Accesses(Accesses(s, m), n)
    decreases m
  {
    if m == 0 {
    } else {
      AccessesAdd(Proceed(s), m - 1, n);
    }
  }

  lemma {:induction false} IdleAccesses(s: State, n: nat)
    requires s.update.Idle?
    ensures Accesses(s, n) == s
    decreases n
  {
    if n == 0 {
    } else {
      IdleAccesses(Proceed(s), n - 1);
    }
  }

  lemma OneMoreHarmless(window: nat, s: State, events: seq<Event>, e: Event)
    requires AlwaysHarmless(window, s, events) && Harmless(Exec(window, s, events), e)
    ensures AlwaysHarmless(window, s, events + [e])
  {
    Beginning(window, s, events + [e], |events|);
    assert (events + [e])[..|events|] == events;
  }

  lemma {:induction false} ContinuesHarmless(window: nat, s: State, events: seq<Event>, n: nat)
    requires AlwaysHarmless(window, s, events)
    ensures AlwaysHarmless(window, s, events + Continues(n))
    decreases n
  {
    if n == 0 {
      assert events + [] == events;
    } else {
      OneMoreHarmless(window, s, events, Continue);
      ContinuesHarmless(window, s, events + [Continue], n - 1);
      Regroup(events, [Continue], Continues(n - 1));
    }
  }

  /** Between two turns: nothing under way, and the leaders of the turns are the history. */
  ghost predicate Calm(window: nat, s: State, turns: seq<Turn>, t: State) {
    && t.update.Idle? && t.cut.None? && |t.members| <= window + |turns|
    && t.history == s.history + Leaders(turns)
  }

  /** An update with at least as many accesses as it needs. */
  lemma PatientUpdate(window: nat, t: State, x: NodeId, n: nat)
    requires !t.crashed && t.update.Idle? && 2 * |t.members| + 4 <= n
    ensures Accesses(Next(window, t, NewLeader(x)), n)
         == t.(members := MoveToFront(t.members, x), history := t.history + [x])
  {
    var m := UndisturbedUpdate(window, t, x);
    AccessesAdd(Next(window, t, NewLeader(x)), m, n - m);
    IdleAccesses(Accesses(Next(window, t, NewLeader(x)), m), n - m);
  }

  lemma UpdateTurn(window: nat, s: State, events: seq<Event>, x: NodeId, n: nat)
    requires AlwaysHarmless(window, s, events)
    requires var t := Exec(window, s, events); !t.crashed && t.update.Idle? && 2 * |t.members| + 4 <= n
    ensures AlwaysHarmless(window, s, events + [NewLeader(x)] + Continues(n))
    ensures var t := Exec(window, s, events);
            var u := Exec(window, s, events + [NewLeader(x)] + Continues(n));
            u == t.(members := MoveToFront(t.members, x), history := t.history + [x])
  {
    PatientUpdate(window, Exec(window, s, events), x, n);
    ExecStep(window, s, events, NewLeader(x));
    ExecContinues(window, s, events + [NewLeader(x)], n);
    OneMoreHarmless(window, s, events, NewLeader(x));
    ContinuesHarmless(window, s, events + [NewLeader(x)], n);
  }

  lemma EpochTurn(window: nat, s: State, events: seq<Event>)
    requires AlwaysHarmless(window, s, events) && Sound(window, Exec(window, s, events))
    requires Exec(window, s, events).update.Idle? && Exec(window, s, events).cut.None?
    ensures AlwaysHarmless(window, s, events + [TakeCut] + [StoreCut])
    ensures var t := Exec(window, s, events);
            var cut := t.members[..window - 1];
            Exec(window, s, events + [TakeCut] + [StoreCut]) == t.(nextLeader := cut[0], members := cut, sent := cut)
  {
    ExecStep(window, s, events, TakeCut);
    ExecStep(window, s, events + [TakeCut], StoreCut);
    OneMoreHarmless(window, s, events, TakeCut);
    OneMoreHarmless(window, s, events + [TakeCut], StoreCut);
  }

  lemma {:induction false} WithoutShorter(list: seq<NodeId>, x: NodeId)
    ensures |Without(list, x)| <= |list|
  {
    if list == [] {
    } else {
      WithoutShorter(list[1..], x);
    }
  }

  lemma {:induction false} TurnsAreHarmless(window: nat, s: State, turns: seq<Turn>)
    requires Initial(window, s) && Patient(window, turns)
    ensures AlwaysHarmless(window, s, Script(turns))
    ensures Calm(window, s, turns, Exec(window, s, Script(turns)))
  {
    if turns == [] {
      assert s.history + [] == s.history;
    } else {
      var n := |turns| - 1;
      var past, events := turns[..n], Script(turns[..n]);
      TurnsAreHarmless(window, s, past);
      HarmlessRunsAreSound(window, s, events);
      match turns[n] {
        case Update(x, accesses) =>
          UpdateTurn(window, s, events, x, accesses);
          WithoutShorter(Exec(window, s, events).members, x);
          assert s.history + Leaders(turns) == s.history + Leaders(past) + [x];
        case Epoch =>
          EpochTurn(window, s, events);
          assert Leaders(turns) == Leaders(past);
      }
    }
  }

  /**
   * Runs whose epochs are taken and stored back to back between whole updates, and whose
   * root never delivers to itself, lose nobody: the queue is a prefix of the recency list
   * all the time, and the end of an epoch leaves the most recent distinct leaders in it, led
   * by the latest. Nothing is asked of the states such a run goes through.
   */
  lemma CalmRunsLoseNobody(window: nat, s: State, turns: seq<Turn>)
    requires Initial(window, s) && Patient(window, turns)
    ensures AlwaysFine(window, s, Script(turns))
    ensures var t := Exec(window, s, Script(turns));
            && t.update.Idle? && t.cut.None? && t.history == Reversed(s.members) + Leaders(turns)
            && (turns != [] && turns[|turns| - 1].Epoch? ==>
                && t.history != [] && t.nextLeader == t.history[|t.history| - 1]
                && window - 1 <= |Recency(t.history)| && t.members == Recency(t.history)[..window - 1])
  {
    TurnsAreHarmless(window, s, turns);
    QueueIsRecencyPrefix(window, s, Script(turns));
    if turns != [] && turns[|turns| - 1].Epoch? {
      var past := turns[..|turns| - 1];
      TurnsAreHarmless(window, s, past);
      HarmlessRunsAreSound(window, s, Script(past));
      EpochTurn(window, s, Script(past));
      RecencyIsByLastOccurrence(Exec(window, s, Script(past)).history);
      var h := Exec(window, s, Script(past)).history;
      assert Recency(h) != [] && Recency(h)[0] == h[|h| - 1];
    }
  }

  // -------------------------------------------------------------- harmful overwrites

  lemma ThenUpdate(window: nat, s: State, events: seq<Event>, x: NodeId) returns (longer: seq<Event>)
    requires var t := Exec(window, s, events); !t.crashed && t.update.Idle?
    ensures var t := Exec(window, s, events);
            Exec(window, s, longer) == t.(members := MoveToFront(t.members, x), history := t.history + [x])
  {
    ExecStep(window, s, events, NewLeader(x));
    var n := UndisturbedUpdate(window, Exec(window, s, events), x);
    ExecContinues(window, s, events + [NewLeader(x)], n);
    longer := events + [NewLeader(x)] + Continues(n);
  }

  const FIRST := State([1, 2, 3], 1, [1, 2, 3], None, Idle, false, [3, 2, 1])

  lemma FirstIsInitial()
    ensures Initial(3, FIRST)
  {
    assert Reversed([1, 2, 3]) == [3, 2, 1] by {
      assert [1, 2, 3][1..] == [2, 3] && [2, 3][1..] == [3];
    }
  }

  lemma RecencyStartsWithLatest(past: seq<NodeId>, x: NodeId)
    ensures var r := Recency(past + [x]); r != [] && r[0] == x
  {
    assert (past + [x])[..|past|] == past;
  }

  /** Node 7 at the front of the first queue. */
  lemma SevenInFront(s: State)
    requires s.members == [1, 2] && s.history == [3, 2, 1] + [7]
    ensures !Fine(s)
  {
    RecencyStartsWithLatest([3, 2, 1], 7);
  }

  /** With a window of three, node 7 is announced while the cut is taken but not stored: it is lost. */
  lemma EpochCanLoseLeader() returns (events: seq<Event>)
    ensures Initial(3, FIRST)
    ensures var t := Exec(3, FIRST, events);
            t.members == [1, 2] && t.history == [3, 2, 1] + [7] && !Fine(t)
  {
    FirstIsInitial();
    ExecStep(3, FIRST, [], TakeCut);
    assert [1, 2, 3][..2] == [1, 2];
    events := ThenUpdate(3, FIRST, [] + [TakeCut], 7);
    var t := Exec(3, FIRST, events);
    assert t.cut == Some([1, 2]) && !t.crashed;
    ExecStep(3, FIRST, events, StoreCut);
    events := events + [StoreCut];
    SevenInFront(Exec(3, FIRST, events));
  }

  lemma FirstEpoch() returns (events: seq<Event>)
    ensures Exec(3, FIRST, events) == State([1, 2], 1, [1, 2], None, Idle, false, [3, 2, 1])
  {
    ExecStep(3, FIRST, [], TakeCut);
    assert [1, 2, 3][..2] == [1, 2];
    events := [] + [TakeCut];
    ExecStep(3, FIRST, events, StoreCut);
    events := events + [StoreCut];
  }

  /** The same when node 7 is announced before the root handles its own message. */
  lemma SelfDeliveryCanLoseLeader() returns (events: seq<Event>)
    ensures Initial(3, FIRST)
    ensures var t := Exec(3, FIRST, events);
            t.members == [1, 2] && t.history == [3, 2, 1] + [7] && !Fine(t)
  {
    FirstIsInitial();
    events := FirstEpoch();
    events := ThenUpdate(3, FIRST, events, 7);
    var t := Exec(3, FIRST, events);
    assert t.sent == [1, 2] && !t.crashed;
    ExecStep(3, FIRST, events, SelfDelivery);
    events := events + [SelfDelivery];
    SevenInFront(Exec(3, FIRST, events));
  }

  /** The cut is stored while an update rebuilds the queue: the entry it reads next is gone. */
  lemma RebuildCanCrash() returns (events: seq<Event>)
    ensures Exec(3, FIRST, events).crashed
  {
    events := [] + [TakeCut];
    ExecStep(3, FIRST, [], TakeCut);
    assert [1, 2, 3][..2] == [1, 2];
    ExecStep(3, FIRST, events, NewLeader(1));
    ExecContinues(3, FIRST, events + [NewLeader(1)], 2);
    events := events + [NewLeader(1)] + Continues(2);
    var taken := FIRST.(cut := Some([1, 2]));
    TwoAccesses(taken.(update := Searched(1, 0)));
    assert Exec(3, FIRST, events) == taken.(update := Rebuilding(1, 3, 2, []));
    ExecStep(3, FIRST, events, StoreCut);
    ExecStep(3, FIRST, events + [StoreCut], Continue);
    events := events + [StoreCut] + [Continue];
  }

  lemma TwoAccesses(s: State)
    ensures Accesses(s, 2) == Proceed(Proceed(s))
    ensures Accesses(s, 3) == Proceed(Proceed(Proceed(s)))
  {
    var s1 := Proceed(s);
    assert Accesses(s1, 1) == Proceed(s1);
    assert Accesses(Proceed(s1), 1) == Proceed(Proceed(s1));
    assert Accesses(s1, 2) == Accesses(Proceed(s1), 1);
  }

  lemma MoveSecond()
    ensures MoveToFront([1, 2], 2) == [2, 1]
  {
    assert [1, 2][1..] == [2];
    assert Without([2], 2) == [];
  }

  /**
   * The cut is stored while an update rebuilds a queue of two: leader 1 is skipped at both
   * places, the queue is left with one entry, and the end of the next epoch is out of range.
   */
  lemma QueueCanRunShort() returns (events: seq<Event>)
    ensures Exec(3, FIRST, events).members == [1] && !Exec(3, FIRST, events).crashed
    ensures Exec(3, FIRST, events + [TakeCut]).crashed
  {
    var s: State;
    events, s := SecondCutTaken();
    ExecStep(3, FIRST, events, NewLeader(1));
    var s1 := s.(update := Searched(1, 1));
    ExecContinues(3, FIRST, events + [NewLeader(1)], 3);
    events := events + [NewLeader(1)] + Continues(3);
    TwoAccesses(s1);
    ExecStep(3, FIRST, events, StoreCut);
    var s2 := State([1, 2], 1, [1, 2], None, Rebuilding(1, 2, 0, []), false, s.history);
    assert Exec(3, FIRST, events + [StoreCut]) == s2;
    ExecContinues(3, FIRST, events + [StoreCut], 3);
    events := events + [StoreCut] + Continues(3);
    TwoAccesses(s2);
    ExecStep(3, FIRST, events, TakeCut);
  }

  lemma SecondCutTaken() returns (events: seq<Event>, s: State)
    ensures s == State([2, 1], 1, [1, 2], Some([1, 2]), Idle, false, [3, 2, 1] + [2])
    ensures Exec(3, FIRST, events) == s
  {
    events := FirstEpoch();
    ExecStep(3, FIRST, events, TakeCut);
    events := events + [TakeCut];
    s := State([1, 2], 1, [1, 2], Some([1, 2]), Idle, false, [3, 2, 1]);
    assert [1, 2][..2] == [1, 2];
    assert Exec(3, FIRST, events) == s;
    events := ThenUpdate(3, FIRST, events, 2);
    MoveSecond();
    s := s.(members := [2, 1], history := [3, 2, 1] + [2]);
  }

  // ------------------------------------------------------- the first committee

  /** The distinct values of `draws` in order of first appearance. */
  function Firsts(draws: seq<nat>): seq<nat> {
    if draws == [] then []
    else
      var before := Firsts(draws[..|draws| - 1]);
      var d := draws[|draws| - 1];
      if d in before then before else before + [d]
  }

  function Residues(draws: seq<nat>, n: nat): seq<nat>
    requires 0 < n
  {
    seq(|draws|, i requires 0 <= i < |draws| => draws[i] % n)
  }

  lemma {:induction false} FirstsDistinct(draws: seq<nat>)
    ensures Distinct(Firsts(draws))
    ensures forall d :: d in Firsts(draws) <==> d in draws
  {
    if draws == [] {
    } else {
      FirstsDistinct(draws[..|draws| - 1]);
      assert draws == draws[..|draws| - 1] + [draws[|draws| - 1]];
    }
  }

  /** One more draw only ever extends the list. */
  lemma {:induction false} FirstsGrow(draws: seq<nat>, k: nat)
    requires k <= |draws|
    ensures Firsts(draws[..k]) <= Firsts(draws)
  {
    if k == |draws| {
      assert draws[..k] == draws;
    } else {
      var n := |draws| - 1;
      assert draws[..n][..k] == draws[..k];
      FirstsGrow(draws[..n], k);
    }
  }

  /**
   * The first committee is drawn from a stream of random numbers, a repeated
   * position being drawn again. `draws` is the finite part of the stream that is
   * available; `done` is false when it does not contain enough distinct positions
   * (the source would go on drawing).
   */
  method DrawCommittee(draws: seq<nat>, n: nat, window: nat) returns (r: seq<nat>, done: bool)
    requires 0 < n
    ensures done <==> window <= |Firsts(Residues(draws, n))|
    ensures done ==> r == Firsts(Residues(draws, n))[..window]
    ensures Distinct(r) && forall d :: d in r ==> d < n
  {
    r := [];
    ghost var all := Residues(draws, n);
    var i, next := 0, 0;
    while i < window && next < |draws|
      invariant 0 <= i <= window && next <= |draws|
      invariant |r| == i && r == Firsts(all[..next])
      invariant forall d :: d in r ==> d < n
      decreases |draws| - next
    {
      var d := draws[next] % n;
      assert all[..next + 1][..next] == all[..next];
      assert all[..next + 1][next] == d;
      if d !in r {
        r := r + [d];
      } else {
        i := i - 1;
      }
      next := next + 1;
      i := i + 1;
    }
    done := i == window;
    FirstsGrow(all, next);
    FirstsDistinct(all[..next]);
    assert next == |draws| ==> all[..next] == all;
  }

  // ------------------------------------------------------------ the root's node

  /** The position of the new leader in the queue, or its length. */
  method SearchLeader(members: seq<NodeId>, leader: NodeId) returns (t: nat)
    ensures t <= |members| && leader !in members[..t]
    ensures t < |members| ==> members[t] == leader
  {
    t := 0;
    while t < |members|
      invariant 0 <= t <= |members|
      invariant leader !in members[..t]
    {
      if members[t] == leader {
        return;
      }
      t := t + 1;
    }
  }

  /** Rebuilds the queue from its end without the leader. */
  method KeepOthers(members: seq<NodeId>, leader: NodeId) returns (kept: seq<NodeId>)
    ensures kept == Without(members, leader)
  {
    kept := [];
    var i := |members| - 1;
    while i >= 0
      invariant -1 <= i < |members|
      invariant kept == Without(members[i + 1..], leader)
    {
      WithoutStep(members, i, leader);
      if members[i] != leader {
        kept := [members[i]] + kept;
      }
      i := i - 1;
    }
    assert members[0..] == members;
  }

  /** Searches the queue for the new leader, then rebuilds or extends it. */
  method MovedToFront(members: seq<NodeId>, leader: NodeId) returns (moved: seq<NodeId>)
    ensures moved == MoveToFront(members, leader)
  {
    var t := SearchLeader(members, leader);
    if t != |members| {
      var kept := KeepOthers(members, leader);
      moved := [leader] + kept;
    } else {
      assert members[..t] == members;
      WithoutAbsent(members, leader);
      moved := [leader] + members;
    }
  }

  lemma WithoutStep(list: seq<NodeId>, i: nat, x: NodeId)
    requires i < |list|
    ensures Without(list[i..], x)
            == if list[i] == x then Without(list[i + 1..], x) else [list[i]] + Without(list[i + 1..], x)
  {
    assert list[i..][1..] == list[i + 1..];
  }

  class Root {
    const window: nat
    var members: seq<NodeId>
    var nextLeader: NodeId
    var sent: seq<NodeId>
    ghost var history: seq<NodeId>

    /** The state when no update is under way; `cut` is the local variable of the closing goroutine. */
    ghost function View(cut: Option<seq<NodeId>>): State
      reads this
    {
      State(members, nextLeader, sent, cut, Idle, false, history)
    }

    /** `drawn` holds the positions drawn for the first committee in the tree's node list. */
    constructor (window: nat, drawn: seq<nat>, list: seq<NodeId>)
      requires 0 < window == |drawn|
      requires Distinct(drawn) && Distinct(list)
      requires forall i :: 0 <= i < |drawn| ==> drawn[i] < |list|
      ensures this.window == window
      ensures |members| == window && forall i :: 0 <= i < window ==> members[i] == list[drawn[i]]
      ensures 2 <= window ==> Initial(window, View(None))
    {
      this.window := window;
      var m: seq<NodeId> := [];
      var i := 0;
      while i < window
        invariant 0 <= i <= window && |m| == i
        invariant forall k :: 0 <= k < i ==> m[k] == list[drawn[k]]
      {
        var d := drawn[i];
        m := m + [list[d]];
        i := i + 1;
      }
      members := m;
      nextLeader := m[0];
      sent := m;
      history := Reversed(m);
    }

    /** An update with nothing in between is the machine's update from NewLeader to its last access. */
    method UpdateSideChainCommittee(leader: NodeId, ghost cut: Option<seq<NodeId>>) returns (ghost n: nat)
      modifies this`members, this`history
      ensures members == MoveToFront(old(members), leader) && history == old(history) + [leader]
      ensures View(cut) == Accesses(old(Next(window, View(cut), NewLeader(leader))), n)
    {
      n := UndisturbedUpdate(window, View(cut), leader);
      var moved := MovedToFront(members, leader);
      members := moved;
      history := history + [leader];
    }

    /** Taking the cut queue; the slice is out of range exactly for a queue too short or a window of zero. */
    method TakeCut() returns (cut: seq<NodeId>, panics: bool)
      ensures panics == Next(window, View(None), Event.TakeCut).crashed
      ensures panics <==> window == 0 || |members| < window - 1
      ensures !panics ==> View(Some(cut)) == Next(window, View(None), Event.TakeCut)
    {
      if window == 0 || |members| < window - 1 {
        return [], true;
      }
      cut := members[0..window - 1];
      panics := false;
    }

    /** Storing it; with a window below two its first entry does not exist, and nothing is stored. */
    method StoreCut(cut: seq<NodeId>) returns (panics: bool)
      modifies this`members, this`nextLeader, this`sent
      ensures panics <==> cut == []
      ensures View(None) == if panics then old(View(None)) else old(Next(window, View(Some(cut)), Event.StoreCut))
    {
      if |cut| == 0 {
        return true;
      }
      nextLeader := cut[0];
      members := cut;
      sent := cut;
      panics := false;
    }

    /** The root handles the message it sent to itself as the next side chain leader. */
    method HandleOwnMessage()
      modifies this`members
      ensures forall cut :: View(cut) == old(Next(window, View(cut), SelfDelivery))
    {
      members := sent;
    }
  }
}
