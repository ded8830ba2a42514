# ChainBoost: a verified model

ChainBoost runs a main chain and a side chain over a tree overlay, with collective signatures, a
verifiable random function and proofs of retrievability. This project models its five hardest parts in
Dafny and proves properties of the model. `dafny verify dfyconfig.toml` checks everything.

**Round and leader race** (`LeaderRace`). Leader announcements, the timer for leaderless rounds and the
section that closes a round run as goroutines over a round counter, a flag, two mutexes and an atomic
counter. Every read and write of a shared variable is one step of a transition system; the guards of the
closing section are read conjunct by conjunct without a lock, and the flag is reset outside the mutex, as
in the source. Over every interleaving each round is closed at most once and in order, and it is stated
exactly when a run stalls.

**Two-chain ledger** (`Tables`, `Packing`, `Ledger*`). The SQL tables are sequences with ascending row
ids. `Ledger` gives each section under the ledger's lock as a function from state to state; the class
`LedgerStore.Store` holds the tables as fields and computes those functions with the source's loops; the
theorems quantify over every run of main-chain and side-chain rounds in any order. `History` records what
no decision depends on; `LedgerEffects` says what each section adds, takes and changes row by row, and
`LedgerRows` what the round tables say. `Committee` is the queue from which
the side chain's committees are cut. No lock protects that queue, so every read and write of it is one event
of a transition system too.

**Collective signing** (`SubTrees`, `Masks`, `Bdn`, `SubLeader`, `CoSi`, `SigningRound`). The committee is
split into subtrees, each retried around its next member when its sub-leader fails; sub-leaders and root
aggregate. `SigningRound.SignBlock` composes everything from the split to the check a receiver makes.
Groups and the pairing are records of functions with stated laws (`Algebra`), and a mask is the set of
positions whose bit is set. Where a property needs honest senders it says so: a leaf's mask is its own
bit, a sub-leader's answer is the aggregate over members of its subtree. It is stated exactly when a round
produces a signature, at the root, at a sub-leader and from end to end.

**Overlay trees** (`TreeArena`, `HostSearch`, `BigTree`, `NaryTree`, `CloseAll`). The two tree generators,
with their termination arguments and the shape of what they build, and the protocol that closes all hosts
from the leaves up, for every tree, arrival order and loss of messages.

**Algebra** (`PrimeField`, `Residues`, `Chi25519`, `Elligator`, `Bytes`, `Vrf`, `Por`). Arithmetic modulo a
prime is developed from the definition of a prime (Euclid's lemma, inverses, Fermat's theorem, Euler's
criterion). The statements about the hash to the curve hold for every prime 8k + 5 with fitting curve
coefficients; `Elligator.Curve25519Fits` instantiates them, which leaves one fact about a constant as a
hypothesis: that 2^255 - 19 is prime. The VRF follows sections 5.1, 5.3, 5.4.1.2, 5.4.3 and 5.4.4 of
draft-irtf-cfrg-vrf-03; Elligator 2 is also in section 6.7.1 of RFC 9380. The hash functions, the nonce and
the map to the curve are arbitrary functions there.

Things the proofs brought out, all kept as the code has them:

- A late announcer can claim a round it was not announced for, and the round then never closes. This is the
  only way into a stall, and it is reached unless the simulation ends after one or two rounds
  (`LeaderRace.StallsExactly`, `LeaderRace.StallReached`, `LeaderRace.ShortRunsNeverStall`).
- The timer of a round that is over can claim the next one, because the counter may advance between its two
  tests (`LeaderRace.TimerClaimsNextRound`).
- Two goroutines can be inside the closing section together, one of them past the reset
  (`LeaderRace.MutualExclusion`, `LeaderRace.SecondInside`).
- A sync transaction is added to a block without a size test (`LedgerFifo.OversizedSyncOverflowsBlock`,
  `LedgerRows.SyncCanOverflow`).
- The side chain marks full blocks by round number, which also marks the rows of earlier epochs
  (`LedgerRows.MarkIsRight`, `LedgerRows.MarkCanBeWrong`).
- The committee queue is read and overwritten without a lock. A leader announced between reading and storing
  the cut is lost, and so is one announced before the root handles its own message; a cut stored during an
  update can put an index out of range or leave the queue too short. `Committee.QueueIsRecencyPrefix` says
  exactly when nothing of that happens, and `Committee.CalmRunsLoseNobody` that keeping updates and epochs
  apart suffices (`Committee.EpochCanLoseLeader`, `Committee.SelfDeliveryCanLoseLeader`,
  `Committee.RebuildCanCrash`, `Committee.QueueCanRunShort`).
- Sub-leader retries stop early in a subtree that wraps around the roster (`SubTrees.OtherRootsCanWrap`).
- Masks of leaves are not checked. `SubLeader.PanicsExactly` says when that makes the sub-leader panic, and
  `SubLeader.OwnBitsExactly` that nothing but own bits works for all arrivals and traversal orders.
- `VerifyPoR` appends to the first 32 bytes of the tag in place and so overwrites the tag's next byte
  (`Por.VerifyPoR`, `Por.TagSurvives`).
- A file name shorter than 32 bytes shifts the tag against the offsets the verifier uses
  (`Por.TagReadBack`).
- A block's index is cut to a byte before it is hashed, so that blocks 256 apart are not told apart
  (`Por.SameByteSameHashes`, `Por.OtherBlocksExactly`).
- The comment of `SubtreeCount` speaks of attached children; the code counts all descendants
  (`NaryTree.TestedCountIsChildren` shows why the generator is right nevertheless).

## Model

| member | source | states |
|---|---|---|
| `LeaderRace.SingleWinner` | MainAndSideChain/ChainBoostSimulation.go:288-314 | over every interleaving of announcements, lock sections, timers, guard reads, the increment and the unlocked reset: round k is won once and in order, an empty block closes it exactly when the timer announced, and the round table has one row per number |
| `LeaderRace.MutualExclusion` | MainAndSideChain/MainChainProtocol.go:82-223 | at most one goroutine stands between the unlocked guards and the reset of HasLeader, and at most one holds BCLock; if two are inside the section, one has done the reset and still holds the lock, and the other waits for it |
| `LeaderRace.SecondInside` | MainAndSideChain/MainChainProtocol.go:82-223 | that does happen: a run that leads there |
| `LeaderRace.RunInv` | MainAndSideChain/ChainBoostSimulation.go:414-429 | the invariant behind these, in every reachable state: who may still claim, pass the guards or close the current round |
| `LeaderRace.IncrementInv` | MainAndSideChain/MainChainBlockChain.go:79-90 | incrementing the round counter keeps the invariant while other goroutines stand anywhere |
| `LeaderRace.ResetInv` | MainAndSideChain/MainChainBlockChain.go:91 | so does the reset of HasLeader, which the source does outside the mutex |
| `LeaderRace.StallIsPermanent` | MainAndSideChain/ChainBoostSimulation.go:288-314 | once a round is claimed and nobody can close it, no continuation ever closes it: only safety is promised |
| `LeaderRace.StallsExactly` | MainAndSideChain/ChainBoostSimulation.go:291-305 | in every run, a step leads into a stall exactly if it is the lock section setting HasLeader for an announcement of an earlier round: the section does not read the round again |
| `LeaderRace.EndIsNoStall` | MainAndSideChain/MainChainBlockChain.go:79-84 | a stall is not the end of the simulation: at the end all rounds are closed, while a stalled round is one that was to be simulated and is missing |
| `LeaderRace.StallReached` | MainAndSideChain/ChainBoostSimulation.go:288-305 | a run from the start into a stall, for every number of rounds but one and two |
| `LeaderRace.ShortRunsNeverStall` | MainAndSideChain/ChainBoostSimulation.go:288-305 | with one or two rounds no run stalls |
| `LeaderRace.OnlyFirstTestFails` | MainAndSideChain/MainChainProtocol.go:82-115 | in every run the later conjuncts of both guards hold whenever they are read: only the first one decides |
| `LeaderRace.TimerNeverForgotten` | MainAndSideChain/ChainBoostSimulation.go:414-429 | in every run, as long as nobody has claimed a round that is to be simulated, its timer is on the way to claim it, or the section that starts this timer has not been left: announcements are not needed |
| `LeaderRace.DispatchTest` | MainAndSideChain/ChainBoostSimulation.go:288-291 | a goroutine is started for an announcement exactly if it is for the current round and that round is unclaimed or the root announces |
| `LeaderRace.StaleTimerEnds` | MainAndSideChain/ChainBoostSimulation.go:421-427 | a timer whose round is over when it gets the lock ends without changing anything |
| `LeaderRace.TimerDecides` | MainAndSideChain/ChainBoostSimulation.go:421-423 | the timer's second test: it claims an unclaimed round and otherwise releases the lock |
| `LeaderRace.TimerAnnounces` | MainAndSideChain/ChainBoostSimulation.go:424-427 | having claimed, it announces the root for the round as it is then, and releases the lock |
| `LeaderRace.TimerClaimsNextRound` | MainAndSideChain/ChainBoostSimulation.go:421-427 | the two tests are not one: a run in which the timer of round 2 claims round 3 |
| `Tables.InsertAllKeeps` | MainAndSideChain/blockchain/dbbc.go:319-343 | inserting keeps row ids ascending and appends the values in order |
| `Tables.InsertAllSplit` | MainAndSideChain/blockchain/dbbc.go:319-343 | inserting in two parts is inserting at once |
| `Tables.BulkInsert` | MainAndSideChain/blockchain/dbbc.go:319-343 | the batched insert stores exactly what one insert of everything would |
| `Tables.DeleteRemovesTaken` | MainAndSideChain/blockchain/dbbc.go:969-981 | deleting up to the last row taken removes exactly the rows taken |
| `LedgerStore.Store.constructor` | MainAndSideChain/blockchain/centralbc.go:70-81 | the tables start with every agreement published and issued |
| `LedgerStore.Store.Collect` | MainAndSideChain/MainChainBlockChain.go:210-388 | the new state of collecting is the state function's, whose effect is spelled out by `LedgerEffects.CollectExactly` and `LedgerEffects.CollectAppends` |
| `LedgerStore.Store.Take` | MainAndSideChain/MainChainBlockChain.go:396-656 | the whole new state of filling a block: queues, published agreements, the round's row with all its counts, the waits |
| `LedgerStore.Store.TakeSide` | MainAndSideChain/SideChainBlockChain.go:103-200 | the whole new state of filling a meta block: queue, running summary, wait and the round table |
| `LedgerStore.Store.SyncCollect` | MainAndSideChain/MainChainBlockChain.go:658-699 | the summary is emptied into one sync transaction carrying its total, whatever the order of the map |
| `LedgerStore.Store.StoragePayments` | MainAndSideChain/MainChainBlockChain.go:701-723 | one payment per host and contract is appended to the first queue |
| `LedgerStore.Store.MainRound` | MainAndSideChain/MainChainProtocol.go:121-213 | a main-chain round, led or leaderless, as one state change that keeps the queues' flow |
| `LedgerStore.Store.SummaryBlock` | MainAndSideChain/SideChainProtocol(ChainBoost).go:183-211 | the last side-chain round of an epoch: the sync transaction, storage payments if due, the table's row |
| `LedgerStore.Store.MetaBlock` | MainAndSideChain/SideChainProtocol(ChainBoost).go:243-258 | any other side-chain round: the table's row, then the proofs taken |
| `LedgerStore.Store.SideRound` | MainAndSideChain/SideChainProtocol(ChainBoost).go:175-262 | which of the two it is, and that the queues' flow is kept |
| `LedgerStore.DrainSummary` | MainAndSideChain/MainChainBlockChain.go:664-690 | the drained total and the number of non-zero entries do not depend on the order in which the map is traversed |
| `LedgerStore.FillBlock` | MainAndSideChain/MainChainBlockChain.go:396-584 | the block-filling loops compute the greedy packing from the queues' first 5000 rows |
| `LedgerFifo.FifoInEveryRun` | MainAndSideChain/MainChainBlockChain.go:329-388 | in every run, for each of the four queues: everything enqueued = everything taken followed by what is still queued, row ids ascending |
| `LedgerEffects.CollectExactly` | MainAndSideChain/MainChainBlockChain.go:239-328 | for every agreement: expired and nothing issued, it gets a propose and a commit; active beyond its duration, it expires, with one storage payment exactly if StoragePaymentEpoch is 0; published within its duration, it adds one proof to the queue of its simulation state, with that state's epoch and round, and stays as it is; otherwise nothing |
| `LedgerEffects.CollectAppends` | MainAndSideChain/MainChainBlockChain.go:329-388 | rows are only added at the end of the queues, only about existing agreements, and the drawn number of regular payments with their size and round; nothing else changes |
| `LedgerEffects.NeverOverdue` | MainAndSideChain/MainChainBlockChain.go:263-292 | in every run, once there was a main-chain round: no active agreement is beyond its duration, except one committed in the last round whatever its duration is |
| `LedgerEffects.TakeExactly` | MainAndSideChain/MainChainBlockChain.go:396-570 | a block takes the oldest sync transaction if there is one, the longest run of payments within their percentage and the longest run of other transactions within what these leave, at most 5000 of either; the recorded waits are those added to the history |
| `LedgerEffects.CommitsExactly` | MainAndSideChain/MainChainBlockChain.go:511-535 | exactly the agreements whose commit is among the rows taken become published and start in the current round; the others stay as they are |
| `LedgerEffects.RowCountsExactly` | MainAndSideChain/MainChainBlockChain.go:571-600 | the round's row counts the taken rows of each kind by position, and no other row changes |
| `LedgerEffects.RowSizeExactly` | MainAndSideChain/MainChainBlockChain.go:571-600 | its block size is the sizes of everything taken plus the overhead; a mark for a full block means that rows were left over although fewer than 5000 were taken |
| `LedgerEffects.TakeSideExactly` | MainAndSideChain/SideChainBlockChain.go:126-200 | a meta block takes the longest fitting run of at most 5000 proofs, counts each for its agreement in the summary, and records the wait in closed form |
| `LedgerEffects.SummaryExactly` | MainAndSideChain/SideChainProtocol(ChainBoost).go:183-211 | the summary's entries become zero and one sync transaction carries their total; every host gets one payment per contract exactly if the epoch is due; one row in the table, and the round number starts again |
| `LedgerFifo.LongestPrefixTaken` | MainAndSideChain/MainChainBlockChain.go:408-557 | a block takes the longest fitting prefix of the first 5000 rows of each queue, payments within their percentage, the rest within what is left |
| `LedgerFifo.LongestSidePrefixTaken` | MainAndSideChain/SideChainBlockChain.go:126-170 | a meta block takes the longest fitting prefix of the first 5000 queued proofs |
| `LedgerFifo.BlockBounds` | MainAndSideChain/MainChainBlockChain.go:408-585 | payments stay within their share, and the block within its size exactly if the popped sync transaction fits the share payments leave |
| `LedgerFifo.OversizedSyncOverflowsBlock` | MainAndSideChain/MainChainBlockChain.go:466-477 | the size limit fails for a sync transaction larger than a block: its size is not compared with anything |
| `LedgerRows.SyncCanOverflow` | MainAndSideChain/MainChainBlockChain.go:466-477 | for every configuration a run from the start that records such a block in the round table |
| `LedgerWaits.WaitsAddUp` | MainAndSideChain/MainChainBlockChain.go:396-400 | in every run, leaderless rounds included: waits summed over taken transactions plus the ages of those still queued equal the queue lengths summed over rounds |
| `LedgerAgreements.LivesInEveryRun` | MainAndSideChain/MainChainBlockChain.go:239-328 | the invariant of every agreement's life in every run, per agreement and queue |
| `LedgerAgreements.AgreementLifecycle` | MainAndSideChain/blockchain/dbbc.go:793-834 | every agreement is active, expired or pending; the first queue holds exactly one commit for it if pending and none otherwise, no propose behind it; expiries minus commits taken is 0 if active and 1 otherwise |
| `LedgerAgreements.ProposeNotBehind` | MainAndSideChain/MainChainBlockChain.go:511-521 | no propose of an agreement stands behind its commit |
| `LedgerPors.PorsConserved` | MainAndSideChain/SideChainBlockChain.go:138-170 | in every run: proofs taken into meta blocks = running summary + counts waiting in sync transactions + counts in the round table, and the round table has one row per round |
| `LedgerPors.EpochCycle` | MainAndSideChain/SideChainProtocol(ChainBoost).go:183-262 | side-chain rounds cycle through 1..E with one summary block per cycle; with an E below one there never is a summary |
| `LedgerRows.TotalExactly` | MainAndSideChain/MainChainBlockChain.go:571-588 | the total in a round's row is the number of the block's transactions exactly if proofs are counted or there are none |
| `LedgerRows.RowsCountEverything` | MainAndSideChain/MainChainProtocol.go:191-213 | in every run the row of a led round counts all transactions of the block that round fills, after its transactions are collected |
| `LedgerRows.TotalsAddUp` | MainAndSideChain/MainChainBlockChain.go:571-588 | in every run the totals of the round table add up to all transactions ever taken from the three queues |
| `LedgerRows.SideTableInEveryRun` | MainAndSideChain/SideChainBlockChain.go:17-40 | in every run the side chain's round table has one row per round with the epoch's numbering, its proofs add up to all proofs taken, and a row is marked full exactly if its own or a later round of that number had a full block |
| `LedgerRows.MarkIsRight` | MainAndSideChain/blockchain/dbbc.go:1180-1190 | the mark tells whether the row's own block was full exactly if it was, or no later round of that number had a full block |
| `LedgerRows.MarkCanBeWrong` | MainAndSideChain/blockchain/dbbc.go:1180-1190 | the update is by round number, and numbers come back with every epoch: for every configuration whose meta blocks have room for one proof, a run of led rounds that marks a block as full that left nothing out |
| `Committee.RecencyIsByLastOccurrence` | MainAndSideChain/SideChainProtocol(ChainBoost).go:346-384 | moving to front without ever cutting lists exactly the nodes announced, each once, by last occurrence, latest first |
| `Committee.QueueIsRecencyPrefix` | MainAndSideChain/SideChainProtocol(ChainBoost).go:231-384 | over every interleaving of updates, epoch ends and self deliveries: the queue is always a prefix of that list with no index out of range exactly if everything that overwrites the queue finds its list at the queue's front |
| `Committee.FineExactlyIfHarmless` | MainAndSideChain/SideChainProtocol(ChainBoost).go:231-384 | the same for one event |
| `Committee.SafeInEveryRun` | MainAndSideChain/SideChainProtocol(ChainBoost).go:231-384 | in every run that overwrites the queue between updates only, leaders lost or not: no duplicates, at least window - 1 entries, no index or slice out of range |
| `Committee.CommitteeIsMostRecent` | MainAndSideChain/SideChainProtocol(ChainBoost).go:233-233 | in such a run the committee of an epoch is the window - 1 most recent distinct leaders |
| `Committee.NextLeaderIsLatest` | MainAndSideChain/SideChainProtocol(ChainBoost).go:235-235 | and the leader of the next epoch is the node announced last |
| `Committee.CalmRunsLoseNobody` | MainAndSideChain/SideChainProtocol(ChainBoost).go:231-384 | all of this in every run of whole updates and epochs taken and stored back to back, without self deliveries: no condition on the states in between |
| `Committee.EpochCanLoseLeader` | MainAndSideChain/SideChainProtocol(ChainBoost).go:233-237 | a leader announced after the cut is read and before it is stored is lost: a run that shows it |
| `Committee.SelfDeliveryCanLoseLeader` | MainAndSideChain/SideChainProtocol(ChainBoost).go:104-106 | a leader announced before the root handles its own message is lost: a run that shows it |
| `Committee.RebuildCanCrash` | MainAndSideChain/SideChainProtocol(ChainBoost).go:361-365 | a cut stored while an update rebuilds the queue takes away the entry read next: a run that shows it |
| `Committee.QueueCanRunShort` | MainAndSideChain/SideChainProtocol(ChainBoost).go:361-367 | or makes the update skip the leader twice, so that the next epoch's slice is out of range: a run that shows it |
| `Committee.UndisturbedUpdate` | MainAndSideChain/SideChainProtocol(ChainBoost).go:346-384 | with nothing in between, an update's accesses add up to the move to front |
| `Committee.DrawCommittee` | MainAndSideChain/SideChainProtocol(ChainBoost).go:294-307 | the first committee is the first `window` distinct positions drawn, whatever is drawn twice |
| `Committee.MovedToFront` | MainAndSideChain/SideChainProtocol(ChainBoost).go:346-384 | the search loop and the backward rebuild compute the move to front |
| `Committee.Root.constructor` | MainAndSideChain/SideChainProtocol(ChainBoost).go:309-315 | the drawn positions become the first queue, its first entry the leader |
| `Committee.Root.UpdateSideChainCommittee` | MainAndSideChain/SideChainProtocol(ChainBoost).go:346-384 | the new queue, and that it is what the machine's update comes to |
| `Committee.Root.TakeCut` | MainAndSideChain/SideChainProtocol(ChainBoost).go:233-233 | taking the cut; it panics exactly for a window of zero or a queue too short |
| `Committee.Root.StoreCut` | MainAndSideChain/SideChainProtocol(ChainBoost).go:235-237 | storing it; it panics exactly for an empty cut, a window of one |
| `Committee.Root.HandleOwnMessage` | MainAndSideChain/SideChainProtocol(ChainBoost).go:104-106 | the queue is overwritten with the list sent |
| `SubTrees.GenSubtree` | MainAndSideChain/BLSCoSi/gen_tree.go:122-160 | accepts a node list exactly if it has two to n entries, leader and sub-leader differ and occur nowhere else; which error otherwise; the tree built |
| `SubTrees.GenTrees` | MainAndSideChain/BLSCoSi/gen_tree.go:50-115 | errors exactly for no nodes or no subtrees; otherwise always succeeds, each subtree holding exactly its share of the positions after the root |
| `SubTrees.EachInExactlyOneSubtree` | MainAndSideChain/BLSCoSi/gen_tree.go:85-112 | every position but the root's is in exactly one subtree |
| `SubTrees.SubtreesAreFormedAndBalanced` | MainAndSideChain/BLSCoSi/gen_tree.go:77-112 | no position occurs twice in a subtree, and sizes differ by at most one |
| `SubTrees.Restart` | MainAndSideChain/BLSCoSi/SideChainProtocol(blscosi).go:355-372 | the rebuilt subtree is the old one rotated by one, the same members in it; given up exactly if nobody is left or the next index is smaller |
| `SubTrees.RunSubProtocol` | MainAndSideChain/BLSCoSi/SideChainProtocol(blscosi).go:335-385 | retries terminate and keep the members; the tried sub-leaders are a prefix of the members, ending at the first descent; everyone is tried before giving up exactly if the members ascend |
| `SubTrees.AscendingUnlessItWraps` | MainAndSideChain/BLSCoSi/gen_tree.go:85-97 | a subtree ascends exactly if it does not hold both ends of the roster |
| `SubTrees.RootZeroNeverWraps` | MainAndSideChain/SideChainProtocol(ChainBoost).go:141-146 | with the root at index 0, as the side chain sets it up, every subtree ascends, so every member is tried |
| `SubTrees.OtherRootsCanWrap` | MainAndSideChain/BLSCoSi/gen_tree.go:85-97 | with another root a subtree may wrap: an example |
| `Masks.EnabledInsert` | MainAndSideChain/BLSCoSi/SideChainProtocol(sub_blscosi).go:431-432 | inserting at the rank of a newly set bit keeps the list in roster order |
| `SubLeader.GatherSorts` | MainAndSideChain/BLSCoSi/SideChainProtocol(sub_blscosi).go:421-433 | for every traversal order of the response map, given own-bit masks: no panic, signatures sorted by roster position, as many as bits, the k-th belonging to the k-th set bit |
| `SubLeader.OrderDoesNotMatter` | MainAndSideChain/BLSCoSi/SideChainProtocol(sub_blscosi).go:421-433 | two traversals of the same map give the same mask and list |
| `SubLeader.PanicsExactly` | MainAndSideChain/BLSCoSi/SideChainProtocol(sub_blscosi).go:421-433 | for one traversal order and any masks: no panic exactly if every signature's position is enabled in the masks merged so far with no more positions before it than signatures listed; then the mask is the union and all signatures are listed |
| `SubLeader.OwnBitsExactly` | MainAndSideChain/BLSCoSi/SideChainProtocol(sub_blscosi).go:421-433 | for all sets of answers in time and all traversal orders: no panic and roster order over exactly the signers, if and only if every mask is its sender's own bit |
| `SubLeader.ForeignMasksCanGather` | MainAndSideChain/BLSCoSi/SideChainProtocol(sub_blscosi).go:426-432 | one set of foreign masks may still gather in every order: an example |
| `SubLeader.SwappedMasksPanic` | MainAndSideChain/BLSCoSi/SideChainProtocol(sub_blscosi).go:426-432 | another panics: an example |
| `SubLeader.MakeSubLeaderResponse` | MainAndSideChain/BLSCoSi/SideChainProtocol(sub_blscosi).go:414-439 | panics exactly if some signature has no place, is refused exactly if lengths differ, otherwise carries the union of the masks; with own bits and genuine signatures it is the flat aggregate over exactly the signers |
| `SubLeader.DispatchSubLeader` | MainAndSideChain/BLSCoSi/SideChainProtocol(sub_blscosi).go:237-339 | for any messages in any order: the wait takes in messages until enough children are settled or one ends it, every child keeps its first valid message and no other; it times out or stops exactly if children are then missing; if every child's first valid message is an answer and comes in time, all have signed |
| `SubLeader.Store` | MainAndSideChain/BLSCoSi/SideChainProtocol(sub_blscosi).go:287-320 | a message is counted exactly if it settles a child whose slot is pending, by that child's own signature or a refusal with the nonce signed; then this slot holds it and nothing else changes, otherwise nothing changes at all |
| `Bdn.Aggregate` | MainAndSideChain/BLSCoSi/SideChainProtocol(extra_required_parts_from_blscosi).go:77-83 | the weighted sum of a list in mask order is the flat aggregate over the mask; refused exactly if lengths differ |
| `Bdn.Scheme.FlatWeights` | MainAndSideChain/BLSCoSi/SideChainProtocol(extra_required_parts_from_blscosi).go:77-83 | the flat aggregate written out: each position in the mask adds its coefficient plus one times its secret times the hash |
| `CoSi.QuorumsIntersect` | MainAndSideChain/BLSCoSi/SideChainProtocol(blscosi).go:98-106 | two sets reaching the default threshold share more members than can be faulty |
| `CoSi.FaultBound` | MainAndSideChain/BLSCoSi/SideChainProtocol(blscosi).go:98-106 | n lies between 3 f + 1 and 3 f + 3 for the default number f of faulty members, and the others are the default threshold |
| `CoSi.CollectSignatures` | MainAndSideChain/BLSCoSi/SideChainProtocol(blscosi).go:387-441 | the root takes in answers until threshold - 1 signatures are there or too many have refused, each counted over the events heard; success, timeout, failure of a subtree and too many refusals each exactly when that is so; the map holds the first answer of every known sender heard |
| `CoSi.EnoughExactly` | MainAndSideChain/BLSCoSi/SideChainProtocol(blscosi).go:395-441 | with honest answers the root has enough where it stops exactly if all the answers before the first failure or timeout hold threshold - 1 signatures |
| `CoSi.SignedOrRefused` | MainAndSideChain/BLSCoSi/SideChainProtocol(blscosi).go:411-419 | the two counters are the numbers of signers and of refusers among the members of the subtrees heard of |
| `CoSi.HonestCollection` | MainAndSideChain/BLSCoSi/SideChainProtocol(blscosi).go:395-441 | from honest answers the map holds flat aggregates over disjoint masks, and their signers are those of the answers heard |
| `CoSi.RefusalsAreFinal` | MainAndSideChain/BLSCoSi/SideChainProtocol(blscosi).go:289-291 | after giving up because of refusals, no set of signers avoiding those who refused can reach the threshold |
| `CoSi.NoSubProtocols` | MainAndSideChain/BLSCoSi/SideChainProtocol(blscosi).go:387-393 | the exception: without subprotocols collecting by itself would succeed with nobody's signature |
| `CoSi.MakeAggregateResponse` | MainAndSideChain/BLSCoSi/SideChainProtocol(blscosi).go:501-533 | for every traversal order: the union of the masks, and the flat aggregate over it |
| `CoSi.GenerateSignature` | MainAndSideChain/BLSCoSi/SideChainProtocol(blscosi).go:446-485 | the root's own share is added: the flat aggregate over all signers and the root |
| `CoSi.AcceptedExactly` | MainAndSideChain/BLSCoSi/SideChainProtocol(struct_bdn).go:38-67 | a signature is accepted exactly if its point is what the holders of the mask's positions would add up to and they reach the quorum; any other point is refused as invalid |
| `CoSi.AddedSignersRefused` | MainAndSideChain/BLSCoSi/SideChainProtocol(struct_bdn).go:38-67 | setting further bits in an accepted signature's mask makes it refused, unless their shares add up to nothing |
| `CoSi.RunRound` | MainAndSideChain/BLSCoSi/SideChainProtocol(blscosi).go:213-257 | with honest sub-leaders a signature comes out exactly if the answers before the first failure or timeout hold enough signers; it is the flat aggregate of the root and the signers heard, verifies, has at least `threshold` signers, and passes the default policy if the threshold is not below it; the round panics exactly if there is no subtree |
| `CoSi.ThresholdGuaranteesPolicy` | MainAndSideChain/BLSCoSi/SideChainProtocol(struct_bdn).go:30-34 | a threshold guarantees the default policy exactly if it is not below it |
| `SigningRound.SplitGivesParts` | MainAndSideChain/BLSCoSi/gen_tree.go:50-115 | the subtrees are disjoint parts of the committee without the root |
| `SigningRound.SubLeaderAnswer` | MainAndSideChain/BLSCoSi/SideChainProtocol(sub_blscosi).go:237-339 | a sub-leader over leaves sending their own bits sends the flat aggregate over exactly the leaves whose answer it heard, and itself if it signs; all of them if they answer in time |
| `SigningRound.SubtreeEvent` | MainAndSideChain/BLSCoSi/SideChainProtocol(blscosi).go:335-385 | what the root hears of a subtree: a failure exactly if no attempt succeeds, and otherwise what the sub-leader of the succeeding attempt has collected from all other members |
| `SigningRound.SignBlock` | MainAndSideChain/BLSCoSi/SideChainProtocol(blscosi).go:213-257 | the whole round from the split on: for every committee, failure pattern, message order and map order, a signature comes out exactly if the subtrees heard of before the first failure or timeout bring enough signers, and it verifies and passes the policy; if nothing is in the way in any subtree, one comes out |
| `HostSearch.FindEntry` | onet/tree.go:574-601 | the inner loop terminates within two rounds of the roster with the first available entry on another host, or the first available one if there is none |
| `HostSearch.SameHostOnlyIfForced` | onet/tree.go:576-601 | the chosen entry is on the parent's host exactly if every available entry is |
| `BigTree.AddLevel` | onet/tree.go:565-611 | a level takes all that is left or is filled completely, every parent getting its share of what is left when its turn comes |
| `BigTree.GenerateBigNaryTree` | onet/tree.go:549-613 | terminates with exactly `nodes` linked nodes, at most N children each, level by level, each parent with its share of what is left, and no node deeper than in the complete tree; with `nodes` equal to the roster's length every entry is used exactly once |
| `BigTree.SharesHostOnlyIfForced` | onet/tree.go:538-613 | in the finished tree a child is on its parent's host exactly if every entry still available then was |
| `TreeArena.AddChild` | onet/tree.go:940-943 | parent and child links stay consistent |
| `NaryTree.Search` | onet/tree.go:483-490 | the first position of an identity, or -1 |
| `NaryTree.TestedCountIsChildren` | onet/tree.go:658-660 | the count of all descendants equals the number of children whenever the loop tests it |
| `NaryTree.Attach` | onet/tree.go:653-671 | one iteration keeps the heap shape and the lists; it panics exactly for arity zero |
| `NaryTree.GenerateNaryTreeWithRoot` | onet/tree.go:639-673 | nil for a foreign root, a panic for an empty roster or arity zero; otherwise node i is roster entry root + i and hangs below node (i - 1) / N, all parents before it full; a star for a negative arity |
| `NaryTree.EveryEntryOnce` | onet/tree.go:653-655 | every roster position appears exactly once |
| `CloseAll.Instance.FuncPrepareClose` | MainAndSideChain/close_all.go:76-87 | one PrepareClose to every child in order and nothing else changed, or closing at once at a leaf |
| `CloseAll.Instance.FuncClose` | MainAndSideChain/close_all.go:92-113 | one more close, with Close to the parent, or done at the root |
| `CloseAll.Instance.Aggregate` | onet/treenode.go:610-634 | messages of children are kept back until as many as children, then handed out together |
| `CloseAll.Instance.DispatchMsgToProtocol` | onet/treenode.go:559-589 | handling one message is the step of the state machine |
| `CloseAll.RunInv` | MainAndSideChain/close_all.go:76-113 | in every reachable state each message sent along an edge is under way, lost, kept back or used up, as an equation per edge |
| `CloseAll.FullQueue` | onet/treenode.go:626-631 | as many kept messages as children, none twice, are one of every child |
| `CloseAll.ClosesOnceAfterSubtree` | MainAndSideChain/close_all.go:89-113 | in every run over every tree and any message order: a node closes at most once, and only when its whole subtree has |
| `CloseAll.DoneMeansAllClosed` | MainAndSideChain/close_all.go:105-109 | when the root is done, every node has closed |
| `CloseAll.QuietExactly` | MainAndSideChain/close_all.go:67-113 | in every run, once the root has started and no message is under way: the root is done if and only if no step so far lost a message, and then every node has prepared once and closed once |
| `Chi25519.Chi` | vrf/vrfGo.go:315-385 | the chain and its loops compute z to the power 16 * (2^250 - 1) + 6 for every z and every modulus |
| `Chi25519.ExponentIsHalf` | vrf/vrfGo.go:315-385 | for p = 2^255 - 19 that exponent is (p - 1) / 2 |
| `PrimeField.Fermat` | vrf/vrfGo.go:218-218 | from primality alone: z^(p - 1) is 1 for every non-multiple of p |
| `PrimeField.InverseExists` | vrf/vrfGo.go:218-218 | from primality alone: every non-multiple has an inverse |
| `Residues.ChiOfTwo` | vrf/vrfGo.go:238-242 | two is not a square modulo a prime 8k + 5 |
| `Residues.EulerCriterion` | vrf/vrfGo.go:238-242 | a non-zero element is a square exactly if its power (p - 1) / 2 is one, with the root in closed form |
| `Elligator.DenominatorNonZero` | vrf/vrfGo.go:215-218 | 1 + 2 r^2 is non-zero for every input |
| `Elligator.OtherCandidate` | vrf/vrfGo.go:243-247 | the curve value of -x - A is 2 r^2 times that of x |
| `Elligator.BitTellsMinusOne` | vrf/vrfGo.go:238-242 | the bit looked at is set exactly for minus one |
| `Elligator.SelectedIsOnCurve` | vrf/vrfGo.go:222-247 | for every input the selected u makes u^3 + A u^2 + u zero or a square |
| `Elligator.AlwaysDecodes` | vrf/vrfGo.go:248-268 | the y computed from u always decodes to a point of the Edwards curve, zero denominators included |
| `Elligator.Curve25519Fits` | vrf/vrfGo.go:223-225 | the numbers of curve25519 satisfy everything the statements ask for, given that p is prime |
| `Elligator.SmallCurveFits` | vrf/vrfGo.go:222-247 | a curve modulo 13 satisfies the conditions on field and coefficients, everything computed |
| `Elligator.InvertWorks` | vrf/vrfGo.go:218-218 | inversion by exponentiation inverts, and sends zero to zero |
| `Elligator.FromUniform` | vrf/vrfGo.go:199-275 | the code as a whole: candidate, selection and y as specified, the sign bit restored, and the error after decoding unreachable |
| `Vrf.ProofRoundTrip` | vrf/vrfGo.go:459-471 | an encoded proof decodes to the same point, challenge and scalar: 16 and 32 bytes are enough |
| `Vrf.HashedPointHasOrder` | vrf/vrfGo.go:269-274 | clearing the cofactor puts the hashed point into the group of prime order |
| `Vrf.SameChallenge` | vrf/vrfGo.go:404-431 | the verifier's U and V are the prover's k B and k H |
| `Vrf.VerdictExactly` | vrf/vrfGo.go:84-104 | every verdict exactly: the key decodes and is not of small order, the proof has 80 bytes, its point decodes, and it is accepted, with the output hashed from eight times that point, if and only if its challenge is the first half of the hash of H, gamma, s B - c Y and s H - c gamma |
| `Vrf.ChangedProofRefused` | vrf/vrfGo.go:392-434 | an accepted proof with another challenge for the same recomputed points is refused; with another scalar it is refused unless the hashes of what is recomputed begin with the same 16 bytes |
| `Vrf.OtherPointsOtherInput` | vrf/vrfGo.go:292-312 | what is hashed is the same for two scalars exactly if their multiples of B and of H are |
| `Vrf.ProofWithNonce` | vrf/vrfGo.go:149-176 | a proof is x H, the first half of the hash of H, x H, k B and k H, and that number times x plus k modulo the order |
| `Vrf.NonceExactly` | vrf/vrfGo.go:277-289 | the nonce is the hash of the secret half and H modulo the order |
| `Vrf.KeysExactly` | vrf/vrfGo.go:50-63 | the key pair of a seed, and what is read back from the secret key |
| `Vrf.ProofVerifies` | vrf/vrfGo.go:392-434 | a proof made with a key's scalar is accepted, with the output computed from its point |
| `Vrf.Completeness` | vrf/vrfGo.go:50-104 | for every seed and message: the generated key's proof is accepted exactly if the public point is not of small order |
| `Bytes.RoundTrip` | vrf/vrfGo.go:414-422 | little-endian encoding is undone by decoding |
| `Por.RandomizedFileStoring` | por/por.go:167-219 | the tag's layout and every block's authenticator, which `Por.AuthenticatorExactly` writes out |
| `Por.AuthenticatorExactly` | por/por.go:205-214 | alpha times the block's sectors on their generators plus the hash of name and block index, the index cut to a byte |
| `Por.NameReadBack` | por/por.go:182-188 | the name's bytes are its big-endian digits without leading zeros |
| `Por.CreatePoR` | por/por.go:224-251 | the server's sums over the queried blocks |
| `Por.MuExactly` | por/por.go:233-240 | each number of the proof is the sum of coefficient times sector over the queried blocks, modulo the order |
| `Por.TagReadBack` | por/por.go:256-271 | the verifier's fixed offsets read back exactly what the owner wrote if and only if the name occupies 32 bytes |
| `Por.VerifyPoR` | por/por.go:256-293 | the signature check and the pairing equation of the tag as handed in, which under the owner's public point holds exactly for the expected point; afterwards the tag's byte 32 is the last queried index |
| `Por.AcceptedExactly` | por/por.go:264-290 | the equation holds if and only if the proof's point is alpha times the sum of coefficient times hash of name and index plus the sum of the proof's numbers times the tag's generators; any other point is refused |
| `Por.OtherBlocksExactly` | por/por.go:256-293 | an otherwise honest answer for other blocks is accepted if and only if alpha times the two sums of hashes agree |
| `Por.SameByteSameHashes` | por/por.go:281-281 | which is always so for indexes that agree in their last byte |
| `Por.RightTermByBlocks` | por/por.go:264-271 | summing the generators times Mu over sectors is summing the queried blocks' points: the exchange of the double sum |
| `Por.HonestProofVerifies` | por/por.go:224-288 | completeness: for every file, secret, generators and query the signature and the pairing equation hold |
| `Por.StoreProveVerify` | por/por.go:167-293 | owner, server and verifier in a row succeed |
| `Por.TagSurvives` | por/por.go:281-281 | the signed part of the tag survives a verification exactly if the overwritten byte is the digit it was |

## Left out

- Networking, TLS, websockets, routers, logging, orchestration and deployment: input and output only.
- The SQL engine, time stamps, averages, standard deviations and the evaluation tables: only the rows and columns decisions depend on are modelled.
- The hand-shake between the two chains' wait groups (`wgSyncScRound`, `wgSyncMcRound`): the next side-chain round is sent before the wait, so lockstep depends on timing.
- Delayed removal in `onet/treestorage.go` and pending trees in the overlay: a timer that fired can delete after a refresh.
- Liveness of leader election: a stale announcement can stall a round, so safety, the exact way into a stall and the running timer of every other round are stated.
- The pairing curves and edwards25519 themselves, SHA-512, clamping and the randomness of draws, nonces and queries: arbitrary functions, or laws stated in `Algebra`, `Bdn`, `Vrf` and `Por`; unforgeability and collision resistance are not claimed.
- The purge tools under `utilities/`: copies of the packing loops.
- The powers and seeds kept per round, wallets and the market's file sizes: they do not influence the modelled state.
- LeaderRace.SingleWinner: the ledger work inside the closing section is reduced to the row it inserts and the counter it increments; contention of the side chain for the ledger's lock is not part of it.
- LedgerStore.Store.SideRound: the sizes of an empty meta block and of a summary transaction are parameters.
- LedgerWaits.WaitsAddUp: waits are summed in rounds, before they are turned into averages; for the side chain's waits there is a closed form only (`LedgerEffects.TakeSideExactly`), because they add up rounds of one chain and seconds of the other.
- LedgerRows.SideTableInEveryRun: leader names, start times and averages of the table are left out.
- Committee.QueueIsRecencyPrefix: a slice is read and written in one piece; torn reads, which the race would also permit, are not part of this model.
- Committee.QueueCanRunShort: a slice beyond the length but within the capacity, which would read stale entries, counts as out of range.
- Committee.DrawCommittee: the random stream is a finite list; the source would draw forever when the window exceeds the number of nodes.
- SubTrees.GenSubtree: positions outside the roster, on which the source panics, are excluded.
- SubTrees.RunSubProtocol: creating and starting the protocol instance of a subtree, which may return an error, is left out.
- SubLeader.DispatchSubLeader: generating and checking the nonce of a refusal is one flag of the message.
- CoSi.CollectSignatures: goroutines and channels appear as the order in which events reach the root; a mask of the wrong length and a point that does not decode are left out.
- BigTree.GenerateBigNaryTree: an arity below one is excluded, on which the source does not terminate or panics.
- NaryTree.GenerateNaryTreeWithRoot: trees are numbered nodes with lists of links; the identity of node objects and their hashes are not part of this model.
- CloseAll.QuietExactly: that all messages are delivered at last is not claimed; closing the network connection and the pause before it are left out, and node identifiers are distinct by construction.
- Elligator.SmallCurveFits: the condition on the exponent of the chain is met by curve25519 only and therefore not part of the instance.
- Vrf.HashedPointHasOrder: the map to the curve is an arbitrary total function; that the source's error branch is unreachable is `Elligator.FromUniform`, and points as pairs of coordinates, which would tie the two together, are not part of this model.
- Elligator.FromUniform: the point decoder is the statement that a matching x exists; its square-root computation belongs to the curve library.
- Vrf.Completeness: a proof whose point does not decode makes the curve library panic, which is kept as a verdict, but the library's own checks are not part of this model.
- Por.VerifyPoR: the source returns a constant instead of the pairing equation's outcome; the model returns the outcome.
- Por.HonestProofVerifies: for names shorter than 32 bytes nothing is claimed about the equation, since the verifier then hashes and multiplies other bytes.
