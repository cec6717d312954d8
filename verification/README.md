# siphon-sip: models and proofs

This project models the stateful and byte-level core of siphon-sip, a SIP
server, and proves what that core promises.

**Inbound connection limiter** (`src/security.rs`). Two maps and two counters,
touched by many tasks at once with nothing but per-entry atomicity.
`LimiterProtocol` is a state machine: any number of agents, each in the middle
of an accept, a roll-back or a release, take one atomic operation at a time in
any order, and the trust lookup may answer anything at any moment. Counters wrap
at 2^32 where the source's do. `LimiterReleases` says what permits give back there
and what trust spares. `ConnectionLimiter` is the same thing as its callers see it:
a limiter object and permits that give back what they hold.

**Auto-ban store** (`src/security.rs`, `src/firewall/mod.rs`). Weighted
signals, a sliding window per source, sliding bans with a hard deadline, trust,
reloads, pruning, and a kernel firewall set driven by commands. `AutoBanModel`
gives every public call as a function; `AutoBanRuns`, `AutoBanEvidence`,
`AutoBanSignals`, `AutoBanDetection`, `AutoBanLifting`, `AutoBanPrune` and
`AutoBanKernel` prove statements about every timed run of such calls, and
`FirewallReplay` merges the bans with a blocklist; `AutoBanStore` is the object,
updated in place, whose methods are proved to do what the functions say.
`AutoBanProtocol` takes
the two calls that are several operations apart, and interleaves them;
`AutoBanSchedules` reads off the order of operations what that can break.

**Hot-path check** (`scripts/check_hot_path_dispatch.py`). A static analysis of
Python handlers, proved against an execution semantics of the syntax tree:
tests that come out either way, branches, early returns, short-circuit operands.
`HotPathRecognition` is the other direction: what the analysis does not miss.

**Bencode** (`sipp/assert_media.py`). The printer and parser for rtpengine's
control port, with UTF-8 (`Utf8`) and Python's integer syntax underneath.
`BencodeNumbers` gives that syntax as a grammar. `BencodeSource` is the parser as
Python runs it, where progress is not a given, and `BencodeEnding` says when it
ends.

**Checksums and frames** (`scripts/gen_charging_pcap.py`,
`scripts/hep_to_pcap.py`, `src/hep/encoder.rs`). The Internet checksum against
the ones'-complement sum of section 1 of RFC 1071, the IPv4, UDP and TCP framing
against a receiver that checks it, and the way of a traced message from the
server's HEP encoder through the bridge (on any bytes, `HepReading`) into a capture
file.

**Diameter** (`src/diameter/codec.rs`, `scripts/gen_charging_pcap.py`). The
relay's lossless attribute tree, whole messages, the stream they are cut from,
exactly which bytes are accepted and with which error the rest are refused
(`DiameterAcceptance`), and the capture generator that writes the same bytes on its
own.

**Provisioning sources** (`src/source_health.rs`). Retry backoff and the
throttled log of a failing source.

Time is a natural number of nanoseconds. Clocks, the trust lookup and the
dictionary of grouped attributes are parameters, so every statement holds for
all of their answers.

## Where the code and its promise differ

- The guard analysis reads `request.method in "REGISTER"` as naming REGISTER;
  Python evaluates it as a substring test, which `REG` passes
  (`HotPath.SubstringTestSlipsThrough`). What it reads off a test is right
  exactly when it covers what the test lets through (`HotPath.TestSoundIff`), and
  its answer for a handler exactly when, for every await, the methods that get to
  it are among the methods named (`HotPath.AnswerIsRightIff`).
- Pruning is invisible to later calls unless a reload makes the window longer
  than the one it pruned by (`AutoBanPrune.PruneIsInvisible`); with reloads up to
  a window w it is invisible exactly when no failure row's age is between the two
  (`AutoBanPrune.InvisibleWithinIff`).
- Recording a signal lets go of one table before it touches the other, so
  interleaving breaks three things, each shown by a schedule and each with the
  order of operations that decides it. Two calls report one ban
  (`AutoBanSchedules.TwoReportsOfOneBan`): exactly when the second comes to insert
  a ban after another insertion that was not undone since it left the ban table
  (`AutoBanSchedules.SecondReportIff`). A source is in both tables
  (`AutoBanSchedules.InBothTables`): exactly when a count and an insertion of it
  are both not undone (`AutoBanSchedules.AlwaysDisjointIff`). A call that saw a
  lapsed ban removes a live one (`AutoBanSchedules.ReportedBanIsLost`): exactly
  when one was inserted, or moved on by an older clock, since it looked
  (`AutoBanSchedules.LiveBanIsLostIff`). That every ban is earned and bounded
  survives every interleaving.
- A string length in bencode may be negative. Without such a step back the source
  ends with the decoder's result (`BencodeSource.SourceAgreesIff`; the other half of
  it only says that stepping back is no error of the source). With one it may
  return, as on `-3:` (`BencodeEnding.StepBackCanReturn`), or not end, as on `l-3:`
  (`BencodeSource.EndlessList`). Exactly when it ends: within six steps for every
  byte and six more, or not at all (`BencodeEnding.EndsIff`).
- `from_wire` taken alone accepts messages that `to_wire` cannot print
  (`DiameterMessages.LongestMessageIsLost`), exactly those whose printout reaches
  2^24 bytes (`DiameterMessages.RelayKeepsMessage`). Behind the reader, which
  refuses what is above 1 MiB, there are none
  (`DiameterMessages.RelayIsTransparent`).
- The window is a fixed one that rolls over, so more than the threshold fits
  into an interval as long as the window without a ban: exactly up to
  `max(T, 2T - 2) - 1` (`AutoBanDetection.EnoughWeightAlwaysBans`,
  `AutoBanDetection.BoundIsTight`).
- A kernel timeout is programmed in whole milliseconds, so the kernel follows
  the store to within one (`AutoBanKernel.KernelWithinAMillisecond`); with the
  unrounded timeouts it is in lockstep (`AutoBanKernel.KernelInLockstep`).
- The length announced in front of a trace packet is computed from the family of
  the source address alone, and is 24 bytes short for an IPv4 source with an
  IPv6 destination (`Hep.AnnouncedLengthIff`).
- Connection totals without a ceiling wrap at 2^32 (`LimiterProtocol.TotalWraps`);
  they are exact throughout a run exactly when the run keeps fewer slots out
  (`LimiterProtocol.ExactIffFits`).

## Model

| member | source | states |
|---|---|---|
| LimiterProtocol.StepKeepsInv | src/security.rs:431-567 | Any one atomic operation of any agent keeps, for every counter at once: it equals the number of slots out, is within its ceiling, and a row at zero is somebody's to reap |
| LimiterProtocol.RunKeepsInv | src/security.rs:431-567 | The same over every interleaving of accepts, roll-backs, handshake ends and drops |
| LimiterProtocol.CountersExact | src/security.rs:376-482 | After every run each counter is exactly the number of slots out, no ceiling is exceeded, and a switched-off ceiling leaves no row |
| LimiterProtocol.ExactIffFits | src/security.rs:549-567 | The totals are exact throughout a run if and only if the run stays within the 32-bit word, which both total ceilings being on guarantees |
| LimiterProtocol.TotalWraps | src/security.rs:549-567 | After n untrusted arrivals that each took their first slot, without a ceiling, n slots are out and the total is n mod 2^32: zero after 2^32 |
| LimiterProtocol.DecrementsNeverSaturate | src/security.rs:526-567 | No release in any run finds its counter already at zero |
| LimiterProtocol.ZeroRowIsBeingReaped | src/security.rs:526-547 | A row at zero exists only while the agent that emptied it is between its decrement and its conditional removal |
| LimiterProtocol.ReapSparesAReusedRow | src/security.rs:526-547 | A row another agent took a slot of between a decrement and its reap is left alone |
| LimiterProtocol.NothingLeaks | src/security.rs:594-634 | Once every attempt is refused and every permit dropped, every counter is zero and both maps are empty |
| LimiterProtocol.EveryRunCanDrain | src/security.rs:594-634 | From every reachable state the agents present can finish, and then the counters are as at the start |
| LimiterProtocol.EveryFairScheduleDrains | src/security.rs:594-634 | After every run, once nobody else arrives, every schedule that tells each agent to drop and lets it go on often enough, in any order and among anything else, ends with the counters as at the start |
| LimiterProtocol.SoloAttemptIsTryAccept | src/security.rs:431-470 | The protocol's attempt, undisturbed, is the sequential one |
| LimiterReleases.SoloHandshakeDone | src/security.rs:608-619 | `handshake_done` on a metered permit, undisturbed, gives back the handshake slot, row and total, and leaves the connection |
| LimiterReleases.HandshakeDoneOnce | src/security.rs:608-612 | A second call changes nothing |
| LimiterReleases.SoloDrop | src/security.rs:621-634 | A drop, undisturbed, gives back the connection slot, and the handshake slot if it is still held, as the sequential one does |
| LimiterReleases.HandshakeIsGivenBack | src/security.rs:608-619 | In every interleaving an agent told that its handshake is done holds, three turns later, no handshake slot of the total or of its source, and both connection slots until it is dropped |
| LimiterReleases.TrustedIsNeverMetered | src/security.rs:431-434 | In every interleaving an arrival the lookup calls trusted is never refused, holds no slot, and none of its operations touches a counter |
| ConnectionLimiter.AttemptVerdict | src/security.rs:431-470 | An attempt succeeds exactly when no ceiling is exhausted; a refusal names the first exhausted one in the order tried and changes no counter |
| ConnectionLimiter.GrantCharges | src/security.rs:431-470 | A grant raises exactly the source's two rows and the two totals, and nothing else |
| ConnectionLimiter.GrantThenRelease | src/security.rs:472-482 | Releasing both halves after a grant, in either order, restores every counter |
| ConnectionLimiter.RoomForOneMore | src/security.rs:431-470 | With exact counters, no ceiling is exhausted exactly when one more live permit would exceed none |
| ConnectionLimiter.GrantKeepsExact | src/security.rs:431-470 | Counters that count the live permits still do after a grant |
| ConnectionLimiter.HandshakeKeepsExact | src/security.rs:472-477 | They still do when a permit gives back its handshake half |
| ConnectionLimiter.ConnectionKeepsExact | src/security.rs:478-482 | They still do when a permit gives back its connection half |
| ConnectionLimiter.AcceptPermit.constructor | src/security.rs:594-607 | A metered permit holds both halves, an unmetered one neither |
| ConnectionLimiter.AcceptPermit.HandshakeDone | src/security.rs:608-620 | Gives the handshake slot back once; every further call changes nothing |
| ConnectionLimiter.AcceptPermit.Drop | src/security.rs:622-634 | Gives back whatever is still held, and takes the permit off its limiter's books |
| ConnectionLimiter.AcceptPermit.GiveBackConnection | src/security.rs:630-632 | Gives the connection slot back and takes the permit off the books |
| ConnectionLimiter.Limiter.constructor | src/security.rs:390-405 | A new limiter has nothing out |
| ConnectionLimiter.Limiter.TryAccept | src/security.rs:431-470 | An untrusted attempt is granted exactly when every ceiling that is on has room for one more live permit; a refusal and a trusted attempt leave no trace |
| ConnectionLimiter.Limiter.TakeSlots | src/security.rs:431-470 | Takes the four slots in order, gives back what was taken where one is refused, and names the refusing ceiling |
| ConnectionLimiter.Limiter.ReleaseHandshakeSlots | src/security.rs:472-477 | Releases the handshake row and total |
| ConnectionLimiter.Limiter.ReleaseConnectionSlots | src/security.rs:478-482 | Releases the connection row and total |
| AutoBanModel.NewPolicy | src/security.rs:1258-1292 | Every configuration becomes a usable policy, and one that already is comes through unchanged |
| AutoBanModel.NewPolicyIsNearest | src/security.rs:1258-1292 | Each out-of-range field is clamped to the usable value nearest to the configured one, the weight and the maximum given the threshold and the ban duration |
| AutoBanRuns.RunKeepsRows | src/security.rs:962-1215 | After every run no source is both failing and banned, every failure row counts something, no expiry is past its deadline, and a removed policy leaves no row |
| AutoBanRuns.CountsStayBelowThreshold | src/security.rs:962-1034 | Unless a reload lowers the threshold, every failure row is below it |
| AutoBanRuns.NewlyBannedIsTheTransition | src/security.rs:962-1034 | A signal reports a new ban exactly when it turns a source without a live ban into one with |
| AutoBanRuns.ListingMatchesCheck | src/security.rs:874-1182 | The live-ban listing has exactly the sources the check calls banned, each for exactly as long as it will be; the operator's listing agrees in whole seconds |
| AutoBanRuns.BanStep | src/security.rs:1045-1096 | One call raises a ban with the policy's durations, or keeps its deadline and moves its expiry only outwards, at most to that deadline |
| AutoBanRuns.SlideStep | src/security.rs:1045-1096 | A ban that stays is slid by a counted signal and left alone by everything else |
| AutoBanRuns.RaisedBanIsWithinMaximum | src/security.rs:1012-1096 | A ban's deadline is the raising call plus the maximum of the policy in force then, and its expiry lies between that policy's ban duration and the deadline, whatever was reloaded since |
| AutoBanRuns.EveryBanWasRaised | src/security.rs:1012-1096 | Every ban in the table of every run goes back to one raising call, and is within its maximum |
| AutoBanRuns.ExpiryNeverMovesBack | src/security.rs:1045-1096 | From the call that raised it on, a ban's expiry never moves backwards |
| AutoBanRuns.ExpiryClosedForm | src/security.rs:1045-1096 | From any store and whatever was reloaded before, a ban raised at t0 under a policy that is left alone since, with the last counted signal at tn, expires at exactly min(tn + ban duration, t0 + maximum) |
| AutoBanEvidence.UncountedSourceIsNeverTracked | src/security.rs:962-990 | A source none of whose signals counted, for lack of weight, trust or a policy, never has a row in either table |
| AutoBanEvidence.EveryRowHasEvidence | src/security.rs:991-1011 | Every failure row was opened by one call and counts exactly the signals since, with no success, unban, lift or ban in between |
| AutoBanEvidence.EveryBanIsJustified | src/security.rs:962-1034 | Every new ban rests on counted signals that add up to the threshold in force, all within its window, none from before a success, unban, lift or earlier ban |
| AutoBanSignals.BannedIffSignalsAddUp | src/security.rs:891-1034 | From a fresh store, over any calls within one window that leave the policy and the record of an untrusted source alone: it has been banned if and only if its weak signals and unverified unwanted calls, plus its strong signals and verified unwanted calls times the strong weight, plus its missing credentials times theirs, reach the threshold; until then its row counts exactly that sum, and there is none while it is zero |
| AutoBanDetection.EnoughWeightAlwaysBans | src/security.rs:991-1034 | Weight of max(T, 2T - 2) inside an interval no longer than the window bans, however the windows lie and whatever else is called |
| AutoBanDetection.BoundIsTight | src/security.rs:991-1034 | For every policy and source, one less can go unpunished |
| AutoBanPrune.InvisibleWithinIff | src/security.rs:1203-1215 | For every bound w no shorter than the window in force, a prune is invisible to all later runs whose reloads keep the window within w exactly when no failure row is older than the window in force and not older than w |
| AutoBanPrune.PruneIsInvisible | src/security.rs:1203-1215 | After a prune every later run is answered as if it had not happened, while no reload makes the window longer |
| AutoBanPrune.InvisibleIffNoRowDropped | src/security.rs:1203-1215 | With no promise about reloads, a prune is invisible exactly when every failure row is still within the window in force |
| AutoBanPrune.DroppedRowIsMissed | src/security.rs:1203-1215 | For every row older than the window in force and not older than w, a reload to window w and one signal tell that it was dropped |
| AutoBanPrune.PruneLeavesExactly | src/security.rs:1203-1215 | What is left are exactly the bans a check at that instant confirms and the rows within the window of the policy in force, unchanged |
| AutoBanLifting.LiftedUntilRaised | src/security.rs:744-860 | A source unbanned, newly trusted, newly admitted or disabled is in neither table, and unbanned until a later signal bans it anew |
| AutoBanLifting.DisabledIsEmpty | src/security.rs:744-758 | A disabled store stays empty, whatever is recorded, until a policy is set |
| AutoBanLifting.BansLast | src/security.rs:962-1215 | A live ban lasts at least until its expiry through any calls that do not lift it |
| AutoBanLifting.LapsedIsReapedIff | src/security.rs:1076-1215 | A lapsed ban that is neither lifted nor raised anew is removed exactly by a check or a counted signal that trust does not spare, or by a prune |
| AutoBanLifting.RemovedIsTheDifference | src/security.rs:765-1200 | The number a lifting call returns is the number of bans it took away |
| AutoBanKernel.AgreeOnStep | src/security.rs:840-1200 | One call with its commands keeps kernel and store in agreement on every source |
| AutoBanKernel.KernelInLockstep | src/security.rs:1012-1096 | Over every run the kernel drops exactly the sources with a live ban, from the last call until the next |
| AutoBanKernel.RefillRestoresAgreement | src/security.rs:874-883 | A set refilled from the listing, with the times listed, spares the trusted, agrees with the store on all others, and keeps agreeing over every run |
| AutoBanKernel.KernelWithinAMillisecond | src/firewall/mod.rs:50-57 | With timeouts in whole milliseconds, never the zero that would ban for good, kernel and store are less than a millisecond apart |
| AutoBanKernel.RefillWithinAMillisecond | src/firewall/mod.rs:107-113 | So are they after a refill with the bans in whole milliseconds, which spares the trusted, and over every run from there |
| FirewallReplay.ReplaySet | src/firewall/mod.rs:107-136 | One element for each address, with the lifetime of one of its entries, which at every instant drops the address exactly when its auto-ban or some blocklist entry of it would on its own; for good, if one of them is |
| FirewallReplay.MergeIsUnique | src/firewall/mod.rs:107-136 | The order the entries come in does not matter |
| FirewallReplay.AutoBanIsRefilled | src/firewall/mod.rs:111-113 | An auto-ban is entered for the time the rounded refill arms it |
| AutoBanProtocol.SourcesAreIndependent | src/security.rs:962-1158 | Whatever the calls of other sources do in between, the rows and calls of a source are as if it had been alone |
| AutoBanProtocol.RecordingAlone | src/security.rs:962-1096 | The operations of a recording that nobody comes between leave and answer what the value model does |
| AutoBanProtocol.CheckingAlone | src/security.rs:1140-1158 | So do those of a check |
| AutoBanProtocol.RunKeepsInv | src/security.rs:962-1158 | In every interleaving every failure row counts exactly the signals on record since it was opened, and every call about to ban has its evidence |
| AutoBanProtocol.EveryReportIsJustified | src/security.rs:962-1034 | In every interleaving whoever reports a new ban reached the threshold with distinct signals of the source, its own the last, the first no more than a window earlier |
| AutoBanProtocol.EveryBanIsBounded | src/security.rs:1012-1096 | In every interleaving every ban was reported by the call that inserted it, and its expiry lies between the ban duration and the maximum of that call |
| AutoBanProtocol.TurnsKeepOrder | src/security.rs:962-1158 | While the calls of each source take turns, in any interleaving with those of others, the tables stay disjoint, no live ban is lost, and every report is of a source nobody had banned |
| AutoBanProtocol.TrustedLook | src/security.rs:1046-1158 | A check whose lookup finds the source trusted answers no, in every interleaving and for good, and leaves both tables alone; a recording trusted only by its second lookup goes on to count |
| AutoBanSchedules.BanStandsIff | src/security.rs:962-1158 | After any interleaving, a ban that was not there at some point stands exactly when the schedule has an insertion since then with no removal after it |
| AutoBanSchedules.RowStandsIff | src/security.rs:962-1158 | The same for a failure row, with counts and removals of the row |
| AutoBanSchedules.LiveIff | src/security.rs:962-1158 | After any interleaving, a ban that was not live at t at some point is live at t exactly when since then one was inserted, or moved by a signal, to run past t, with no insertion or removal after it |
| AutoBanSchedules.SecondReportIff | src/security.rs:991-1034 | A call about to report a new ban reports one another call has reported, and nobody undone, exactly when that insertion came after the call left the ban table behind |
| AutoBanSchedules.CountsForABannedSourceIff | src/security.rs:991-1034 | A call about to count leaves the source in both tables exactly when a ban was inserted, and not removed, after the call left the ban table behind |
| AutoBanSchedules.BansACountedSourceIff | src/security.rs:1008-1019 | A call about to ban leaves the source in both tables exactly when a signal was counted, and its row not removed, after the call cleared the row |
| AutoBanSchedules.AlwaysDisjointIff | src/security.rs:962-1158 | The tables stay disjoint throughout a run exactly when no stretch of the schedule from the start has, for one source, a count and an insertion that are not undone |
| AutoBanSchedules.LiveBanIsLostIff | src/security.rs:1076-1158 | A call that saw a ban lapse, and is about to remove it, takes away one that is live at its own time exactly when a ban running past that time was inserted, or moved there by a signal, after it looked |
| AutoBanSchedules.OnlyOlderClocksRevive | src/security.rs:1062-1076 | A signal that brings back a ban lapsed at t comes from a call made before t |
| AutoBanSchedules.TwoReportsOfOneBan | src/security.rs:991-1034 | For every policy and source, two calls that look before either counts both report a new ban |
| AutoBanSchedules.InBothTables | src/security.rs:1008-1019 | For every policy with a threshold above one, a signal counted between the removal of the row and the insertion of the ban leaves the source in both tables |
| AutoBanSchedules.ReportedBanIsLost | src/security.rs:1140-1158 | For every policy and source, a check that saw a lapsed ban can take away the one reported since |
| AutoBanStore.Store.constructor | src/security.rs:699-736 | A new store is empty and has sent nothing |
| AutoBanStore.Store.StaysValid | src/security.rs:962-1215 | Any call that does what the value model says keeps the tables in order and the kernel in agreement |
| AutoBanStore.Store.RecordFailureWeightedAt | src/security.rs:962-1034 | Tables, answer and commands are the value model's |
| AutoBanStore.Store.CountOrExtend | src/security.rs:962-1034 | Checks policy, weight and trust, then slides or counts, as the value model does |
| AutoBanStore.Store.Count | src/security.rs:991-1034 | Counts in the source's window and bans at the threshold, clearing the window |
| AutoBanStore.Store.ExtendBanAt | src/security.rs:1045-1096 | True exactly for a live ban on an untrusted source, which is slid; a lapsed one is reaped |
| AutoBanStore.Store.SendBan | src/security.rs:1012-1034 | Arms one kernel element if a handle is attached |
| AutoBanStore.Store.RecordSuccess | src/security.rs:1128-1132 | Clears the failure window only |
| AutoBanStore.Store.IsBannedAt | src/security.rs:1140-1158 | True exactly for a live ban on an untrusted source; a lapsed row is removed |
| AutoBanStore.Store.PruneAt | src/security.rs:1207-1215 | Drops lapsed bans and closed windows, and nothing else |
| AutoBanStore.Store.SetPolicy | src/security.rs:738-742 | Replaces the policy and touches no row |
| AutoBanStore.Store.LiftBans | src/security.rs:744-869 | Lifts the given bans one by one, from the table and from the kernel |
| AutoBanStore.Store.Unban | src/security.rs:1189-1200 | Lifts one ban and its window, and says whether there was one |
| AutoBanStore.Store.Disable | src/security.rs:744-757 | Stops counting and lifts everything |
| AutoBanStore.Store.LiftTrusted | src/security.rs:765-869 | Lifts every ban and window of sources now trusted, and counts the bans |
| HotPath.LetsIff | scripts/check_hot_path_dispatch.py:71-96 | A test, with `==`, `!=`, `in`, `not in`, chains, `and`, `or` and `not` in any nesting, can come out true, or false, for a method exactly when the set of methods computed from its literals has it |
| HotPath.TestSoundIff | scripts/check_hot_path_dispatch.py:71-96 | What the analysis reads off a test, through any nesting of `and` and `or`, confines the method exactly when it covers everything the test lets through |
| HotPath.MethodNamesSound | scripts/check_hot_path_dispatch.py:71-96 | Without substring comparisons it always does |
| HotPath.ComparisonSoundIff | scripts/check_hot_path_dispatch.py:79-88 | A comparison taken for a method test confines the method exactly when it is not a substring test |
| HotPath.SubstringTestSlipsThrough | scripts/check_hot_path_dispatch.py:86-87 | A test the analysis reads as naming REGISTER holds for REG |
| HotPath.WalkIsTheTree | scripts/check_hot_path_dispatch.py:105-119 | The walk visits exactly the nodes of the tree |
| HotPath.MethodGuardedAwaits | scripts/check_hot_path_dispatch.py:99-124 | An answer is given exactly when every await lies in the body of a method branch, and is the methods of the branches that guard one |
| HotPath.CompletesIff | scripts/check_hot_path_dispatch.py:99-124 | Control can go on behind a statement under a method exactly when the tests inside it let the method past every `return` and `raise` |
| HotPath.ReachesIff | scripts/check_hot_path_dispatch.py:99-124 | An execution under a method reaches a node exactly when every node around it lets the method on: the test of the branch it is in comes out so, the statements before it can be over, the operands before it have not settled the matter |
| HotPath.AnswerIsRightIff | scripts/check_hot_path_dispatch.py:99-124 | The answer for a handler is right, no execution under another method reaching an await, exactly when for every await the methods that get to it are among the methods named |
| HotPath.OtherMethodsNeverAwait | scripts/check_hot_path_dispatch.py:99-124 | Without substring comparisons in its branches it always is |
| HotPath.EarlyReturnConfines | scripts/check_hot_path_dispatch.py:99-124 | Behind a return for every other method, only REGISTER gets to an await under the substring test |
| HotPathRecognition.PlainIsRecognised | scripts/check_hot_path_dispatch.py:56-96 | On every test built by `and` and `or` from `method == "..."`, either way round, `method in` a nonempty display of strings, and operands that say nothing about the method, what the analysis reads off is exactly what the test lets through, and nothing when it lets all through |
| HotPathRecognition.NegationIsMissed | scripts/check_hot_path_dispatch.py:71-96 | `not request.method != "REGISTER"` lets REGISTER through alone and is not taken for a method test |
| HotPathRecognition.PlainVerdict | scripts/check_hot_path_dispatch.py:99-124 | On a handler with such tests it answers exactly when every await lies in the body of some `if` that lets some methods through but not all, and with exactly the methods those let through |
| Utf8.RoundTrip | sipp/assert_media.py:246-262 | Every text decodes from its UTF-8 form |
| Utf8.DecodeIsStrict | sipp/assert_media.py:262 | Only the UTF-8 form of a text decodes to it: no overlong forms, no surrogates |
| Utf8.EncodeKeepsOrder | sipp/assert_media.py:242 | Texts in code-point order are in byte order once encoded |
| Bencode.DecimalRoundTrip | sipp/assert_media.py:244-273 | Every integer is parsed back from its decimal form wherever it stands |
| BencodeNumbers.ParseIntIff | sipp/assert_media.py:271-275 | A slice is an integer exactly when it is white space, a sign or none, digits with single underscores between them, and white space, and is the integer those stand for |
| BencodeNumbers.FindIff | sipp/assert_media.py:272-274 | The delimiter is found exactly where it stands first |
| BencodeNumbers.KeyIff | sipp/assert_media.py:262 | Bytes become a key exactly when they are the UTF-8 form of a text, numbers stay what they are, and nothing else is a key |
| Bencode.Bdecode | sipp/assert_media.py:253-277 | The parser's loops, on any bytes from any index, compute the recursive decoder, errors included, up to the first length that steps back |
| BencodeSource.SourceAgreesIff | sipp/assert_media.py:253-277 | Where the decoder meets no length that steps back, the source, with its negative indices and clamped slices, finishes with the decoder's result, errors included; conversely, stepping back is no error the source has |
| BencodeSource.Agrees | sipp/assert_media.py:253-277 | It then needs no more steps than two for every byte left, and one |
| BencodeSource.StringStepsBackIff | sipp/assert_media.py:274-277 | A string of length n read up to its colon goes on at colon + 1 + n, which is no further than where it began exactly when n <= index - (colon + 1) |
| BencodeSource.NoMinusNoStepBack | sipp/assert_media.py:253-277 | No length steps back where there is no minus sign |
| BencodeSource.ListNeverEnds | sipp/assert_media.py:264-270 | A list that comes to a string whose length leads back to its own start goes round for ever |
| BencodeSource.DictionaryNeverEnds | sipp/assert_media.py:256-263 | So does a dictionary |
| BencodeSource.EndlessList | sipp/assert_media.py:264-277 | The source does not end on `l-3:` |
| BencodeEnding.EndsIff | sipp/assert_media.py:253-277 | On any bytes, from any index, the source ends at all exactly when it ends within six steps for every byte and six more, a step being a read inside another or a turn of a loop |
| BencodeEnding.EndsWithinBound | sipp/assert_media.py:253-277 | It then ends with the same result or exception |
| BencodeEnding.MoreSteps | sipp/assert_media.py:253-277 | Once it has ended, more steps change nothing |
| BencodeEnding.ListComingBackNeverEnds | sipp/assert_media.py:264-270 | A list loop that comes to any position it has been at before never ends |
| BencodeEnding.DictionaryComingBackNeverEnds | sipp/assert_media.py:256-263 | Nor does a dictionary loop |
| BencodeEnding.ReadsFromTheEnd | sipp/assert_media.py:255-277 | At an index below minus one a string or a number is read as at that many bytes from the end |
| BencodeEnding.NothingAtMinusOne | sipp/assert_media.py:255-277 | At minus one, where the slice of one byte is empty, every read fails, and with which exception |
| BencodeEnding.StepBackCanReturn | sipp/assert_media.py:274-277 | On `-3:` the source returns an empty string, at the index it began with |
| Bencode.RoundTripAnywhere | sipp/assert_media.py:239-277 | A value printed anywhere in a message is parsed back with its meaning, and the parser stops exactly at its end |
| Bencode.PrintedKeysAscend | sipp/assert_media.py:241-243 | Printed dictionary keys ascend as raw byte strings |
| Bencode.EncodingIsCanonical | sipp/assert_media.py:239-250 | Two values print the same exactly when they mean the same, at every depth |
| Bencode.InsertionOrderIsInvisible | sipp/assert_media.py:241-243 | The order a dictionary was filled in does not show |
| InternetChecksum.OnesSumIsTheResidue | scripts/gen_charging_pcap.py:23-29 | The end-around-carry sum is the word sum modulo 65535, and zero only for a zero sum |
| InternetChecksum.TwoFoldsIff | scripts/gen_charging_pcap.py:27-29 | The two folds give the ones'-complement sum exactly when they leave no third carry, which no sum below 0x1_0000_FFFF does |
| InternetChecksum.ChecksumIsOnesComplement | scripts/gen_charging_pcap.py:23-29 | On everything up to twice a datagram's size, odd lengths included, the checksum is the complement of the RFC 1071 sum |
| InternetChecksum.VerifiesIff | scripts/gen_charging_pcap.py:23-29 | Recomputation gives zero exactly on positive multiples of 65535 |
| InternetChecksum.FieldVerifiesIff | scripts/gen_charging_pcap.py:39-57 | Over a zeroed field, exactly the computed checksum verifies, and 65535 as well when that is zero |
| InternetChecksum.DamagedWordIsNoticedIff | scripts/gen_charging_pcap.py:23-29 | One damaged word goes unnoticed exactly when it changes between 0 and 65535 and something else is not zero |
| InternetChecksum.SumWords | scripts/hep_to_pcap.py:52-55 | The loop sums the words of an even-length header, and fails on every odd one |
| InternetChecksum.IpChecksum | scripts/hep_to_pcap.py:52-58 | The loop form equals the other on even lengths, and fails on odd ones |
| Packets.Ipv4IsReadBack | scripts/gen_charging_pcap.py:34-40 | A datagram is built exactly when its fields fit, and then passes the receiver's tests of length, fragment, hops and checksum with every field and the payload intact |
| Packets.UdpIsReadBack | scripts/gen_charging_pcap.py:42-51 | A UDP segment is built exactly when its fields fit, and then verifies over the pseudo-header, never carries a zero checksum, and gives ports and payload back |
| Packets.TcpIsReadBack | scripts/gen_charging_pcap.py:42-57 | A TCP segment is built exactly when its fields fit, and then verifies over the pseudo-header and gives ports, numbers, flags, window and payload back |
| Packets.FrameHeaderVerifies | scripts/hep_to_pcap.py:61-68 | The bytes the builder sums, up to the end of the addresses, verify in every frame, whatever the addresses' length |
| Packets.FrameIsAcceptedIff | scripts/hep_to_pcap.py:61-68 | A frame is built exactly when its fields fit and its header sums in whole words; a receiver, who checks the ethertype, the announced total and the 20 bytes the first byte announces, accepts it exactly when the two addresses have eight bytes together, and reads the first and last four of them |
| Packets.FrameIsReadBack | scripts/hep_to_pcap.py:61-68 | A frame around IPv4 addresses is read back as the datagram it stands for |
| Hep.ParseHep3 | scripts/hep_to_pcap.py:25-49 | The chunk loop, on any bytes, computes the recursive parser, short and missing fields included |
| Hep.ChunksAreRead | scripts/hep_to_pcap.py:29-37 | A printed chunk list is read as the last value of each type |
| HepReading.ParseIff | scripts/hep_to_pcap.py:25-49 | Any bytes are taken exactly when they start with the magic and the last chunk of each of the seven types, told by position, is there, ports two bytes wide and times four; the packet is what those chunks hold |
| Hep.TraceIsReadBack | src/hep/encoder.rs:61-189 | Where every chunk fits its length field, the bridge reads from the packet exactly what was traced when both ends are IPv4, and passes over every other packet |
| Hep.TraceIsReadBackIff | src/hep/encoder.rs:61-189 | A message traced over IPv4 is read back exactly when its payload fits one chunk: past that no later chunk makes up for it |
| Hep.EverythingIsCollected | src/hep/encoder.rs:61-189 | Over either family, or both, a collector that reads every chunk gets back family, protocol, addresses, ports, times, kind, agent, payload and call identifier as they were meant |
| Hep.AnnouncedLengthIff | src/hep/encoder.rs:62-95 | The announced length is right exactly below 64 KiB and not for an IPv4 source with an IPv6 destination |
| Hep.BridgeIsFaithful | scripts/hep_to_pcap.py:25-68 | From server to capture file: every IPv4 message whose packet is below 64 KiB becomes a frame that verifies and carries the same addresses, ports and payload |
| WireBytes.NetworkOrder | src/diameter/codec.rs:660-664 | Numbers are written and read most significant byte first |
| Diameter.HeadAt | src/diameter/codec.rs:723-751 | A printed attribute shows code, flags, vendor and value where it stands, and a length that leaves the padding out, as far as 24 bits go |
| Diameter.ParseAvps | src/diameter/codec.rs:653-711 | The loop, on any bytes and dictionary, computes the recursive parser, each error with its offset |
| Diameter.ReadOne | src/diameter/codec.rs:659-707 | The loop's body reads one attribute and where the next one starts |
| Diameter.ReadValue | src/diameter/codec.rs:690-696 | A value is parsed as a list exactly when the dictionary says so |
| Diameter.EncodeAvps | src/diameter/codec.rs:715-721 | The printing loop computes the recursive printer |
| Diameter.EncodeOneAvp | src/diameter/codec.rs:723-751 | Appends one attribute with its padding to what was written before |
| Diameter.RoundTrip | src/diameter/codec.rs:653-751 | Every well-formed tree, of any depth, survives printing and parsing |
| Diameter.RoundTripIff | src/diameter/codec.rs:653-751 | Exactly the well-formed trees do: no vendor without its bit, grouped as the dictionary says, lengths of 24 bits |
| Diameter.ParsedSize | src/diameter/codec.rs:653-711 | Printing what was parsed takes no more room than the input, rounded up to four |
| Diameter.ParsedIsWellFormed | src/diameter/codec.rs:653-711 | From input up to 2^24 - 4 bytes the parser returns well-formed trees only |
| Diameter.NormalForm | src/diameter/codec.rs:531-541 | What was parsed from any such input is parsed again, unchanged, from its own printout |
| DiameterAcceptance.ParsesIff | src/diameter/codec.rs:653-711 | A list of attributes is accepted exactly when every position at which one starts has it framed there, at every depth the dictionary calls grouped |
| DiameterAcceptance.ParsedIff | src/diameter/codec.rs:653-711 | It is read as exactly the list with one attribute for each start, each with the code, vendor, flags and value that stand there |
| DiameterAcceptance.StepFailsIff | src/diameter/codec.rs:669-696 | The exact condition of each error of one attribute, with its offset and numbers |
| DiameterAcceptance.FailsIff | src/diameter/codec.rs:653-711 | A list is refused with an error exactly when it is that of the first attribute, in reading order and at whatever depth, that is not framed where it starts |
| DiameterMessages.HeaderReads | src/diameter/codec.rs:496-529 | A printed header gives every field back, length and command as far as 24 bits go |
| DiameterAcceptance.AcceptedIff | src/diameter/codec.rs:764-797 | A message is accepted exactly when it has 20 bytes, version 1, a length that covers the header and is covered by the bytes, and a body tiled by attributes |
| DiameterAcceptance.AcceptedAsIff | src/diameter/codec.rs:764-797 | It is accepted as the message whose fields and attributes stand there, and as no other |
| DiameterAcceptance.RefusedIff | src/diameter/codec.rs:764-797 | The exact condition of every error, with its numbers |
| DiameterAcceptance.CutIff | src/diameter/codec.rs:53-81 | The reader cuts a message off a stream exactly where the stream is that message, announcing its own length of 20 bytes to 1 MiB, and then the rest |
| DiameterAcceptance.NoCutIff | src/diameter/codec.rs:53-81 | The exact condition of each refusal, and of running out of bytes |
| DiameterMessages.MessageRoundTripIff | src/diameter/codec.rs:764-809 | Exactly the messages with a well-formed tree, a 24-bit command and a 24-bit size survive the wire |
| DiameterMessages.RelayIsTransparent | src/diameter/codec.rs:764-809 | Whatever a peer sends, every message the reader (lines 53-81) cuts off and the relay accepts is printed as bytes that the next reader, whatever follows them, cuts off whole and accepts as the same message |
| DiameterMessages.RelayKeepsMessage | src/diameter/codec.rs:764-809 | Of any bytes whatever, without a reader in front: once accepted, the message printed from them is accepted as the same message exactly when the printout is below 2^24 bytes; it is never longer than the announced length rounded up |
| DiameterMessages.LongestMessageIsLost | src/diameter/codec.rs:764-809 | Taken alone, `from_wire` accepts a message of 2^24 - 3 bytes that leaves its last padding out, and not its printout |
| DiameterMessages.StreamIsSplit | src/diameter/codec.rs:53-81 | Messages of up to 1 MiB sent back to back are cut apart and read in order |
| DiameterMessages.GeneratorMatches | scripts/gen_charging_pcap.py:99-112 | The generator's bytes are those of the server's printer, at every depth of nesting |
| DiameterMessages.GeneratorAccepts | scripts/gen_charging_pcap.py:99-112 | The generator refuses nothing that fits the wire |
| DiameterMessages.GeneratorAcceptsIff | scripts/gen_charging_pcap.py:99-112 | It refuses a nest of calls exactly when the outermost attribute does not fit a 32-bit length |
| DiameterMessages.GeneratorFramesIff | scripts/gen_charging_pcap.py:114-120 | It refuses a message exactly when one of its numbers, or its length, does not fit |
| DiameterMessages.GeneratedIsRead | scripts/gen_charging_pcap.py:99-120 | A generated message is byte for byte the server's, and the server reads it as the calls spelled it |
| PollHealth.DelaysGrow | src/source_health.rs:36-41 | Delays never shrink, never pass the ceiling, and stay there once they reach it |
| PollHealth.BackoffClosedForm | src/source_health.rs:48-68 | Over any run of asks and resets the next delay is min(ceiling, 250 ms * 2^k), k the asks since the last reset |
| PollHealth.Backoff.constructor | src/source_health.rs:50-55 | Starts at the first retry, capped |
| PollHealth.Backoff.NextDelay | src/source_health.rs:58-62 | Hands out the closed form and counts the ask |
| PollHealth.Backoff.Reset | src/source_health.rs:65-67 | Starts over |
| PollHealth.NoFailureIsLost | src/source_health.rs:137-175 | In every streak, lines plus all reported suppressions plus the pending ones are all its failures |
| PollHealth.LinesSayWhatWasPassedOver | src/source_health.rs:137-175 | In every streak the first line names failure 1, every later one the failure that many past the one before as it reports passed over, plus one, the failures behind the last line are the pending ones, and a line carries the time of the failure it names |
| PollHealth.LogIsPaced | src/source_health.rs:147-174 | The first two failures are logged, a minute lies before every later line, and no failure comes a minute after the latest line without one |
| PollHealth.AtMostOneLineAMinute | src/source_health.rs:153-174 | A streak of duration D writes at most 2 + D / 60 s lines |
| PollHealth.SourceHealth.constructor | src/source_health.rs:101-108 | Starts with no streak |
| PollHealth.SourceHealth.RecordSuccess | src/source_health.rs:117-120 | Ends the streak |
| PollHealth.SourceHealth.RecordFailure | src/source_health.rs:137-175 | Extends the streak, and writes exactly the line the model says, with the clock read once to check and once to log |

## Left out

- ConnectionLimiter.Limiter.TryAccept: asks for fewer than 2^32 - 1 live permits, the word's width; without that the totals wrap, which `LimiterProtocol.ExactIffFits` states exactly.
- LimiterProtocol.EveryRunCanDrain: asks for fewer than 2^32 agents yet to settle, for the same reason.
- HotPath.AnswerIsRightIff: `.method` is taken to be the request's method, the same throughout one execution; whatever is neither the method nor a literal may be anything at each evaluation; `for`, `with`, `try`, `match` and comprehensions are entered and left freely.
- Bencode.Bdecode: stops at the first length that steps back, where the source goes on from there (`BencodeSource`); lone surrogates, keys of other types than text and `bool` values are not in the printer's input.
- Bencode.DecimalRoundTrip: Python since 3.11 refuses to convert integers of more than 4300 digits, either way.
- BencodeSource.SourceAgreesIff: one way only, since after a step back there is no decoder result to agree with; what the source does then is `BencodeEnding.EndsIff`. Python's recursion limit is not modelled.
- Hep.TraceIsReadBackIff: asks the call identifier to fit one chunk; what a longer one does to the fields read before it depends on its bytes, and a build with overflow checks stops there.
- InternetChecksum.ChecksumIsOnesComplement: holds up to 131076 bytes, twice what a 16-bit length can announce; `InternetChecksum.TwoFoldsIff` says which larger sums come out wrong.
- Packets.FrameHeaderVerifies: takes addresses of up to the 65529 bytes one chunk can carry.
- FirewallReplay.ReplaySet: the elements are a map; that they go out sorted is left out.
- HotPathRecognition.PlainIsRecognised: negated and chained tests are not plain, and the analysis does miss some (`HotPathRecognition.NegationIsMissed`); a display with displays in it it reads as naming more than it lets through.
- PollHealth.LinesSayWhatWasPassedOver: stops at 2^64 - 1 failures in a row, as the next line does.
- PollHealth.NoFailureIsLost: stops at 2^64 - 1 failures in a row, where the counts saturate.
- Diameter.NormalForm: stops at 2^24 - 4 bytes, because rounding up the last few lengths leaves the 24-bit field; the reader refuses messages above 1 MiB.
- AutoBanPrune.PruneIsInvisible: the counts that `unban`, the two lifts and `active_bans` return include lapsed rows, and so do show a prune.
- Memory orderings of the limiter's atomics: operations interleave one at a time.
- Concurrency of the auto-ban store with a whole prune, lift or disable: these are single removals in `AutoBanProtocol`; the kernel set is not part of it.
- Lost firewall commands and a firewall handle attached after startup; closing the connections of a banned source.
- Clock overflow; in `AutoBanKernel`, the upper clamp of a kernel timeout at 2^64 ms.
- The trust lookup itself (networks, gateway view), the security filter, apiban, metrics, gauges and logging.
- Dotted-quad parsing, MAC tables, the TCP stream counters, pcap file headers and sockets of the capture scripts.
- The JSON view of Diameter messages, the attribute dictionary and the typed attribute helpers: many easy members.
- Everything else in the server (SIP, dialogs, registrar, media, scripting): not modelled.
