# Sentinel5G: a verified model of its hard core

Sentinel5G watches 5G user-plane and signaling traffic in the kernel, scores
what it sees, and lets an operator act on the scores by blocking sources or GTP-U
tunnels. This project models four parts of it in Dafny and proves what they
promise:

* **The closed mitigation loop** (`pkg/controller`). A score becomes a status
  write and then kernel drops; a reconciler keeps the kernel in line with all
  statuses; policies de-escalate after a quiet period or on deletion. Everything
  may fail at any write, the kernel may lose its maps, the operator may restart.
* **The XDP packet filter** (`bpf/packet_filter.c`), from raw Ethernet frames to
  verdicts, map contents and events, with the two Python programs that mirror
  parts of it.
* **The rule detectors** (`pkg/detect`), whose tables have a fixed capacity.
* **The codecs and indexes around them**: status text, map keys, Pod addresses,
  event batching.

Imperative code is modelled by classes and methods with loops, each proved
against a specification function; the theorems about whole runs are lemmas about
those functions.

| module | models |
|---|---|
| `Prelude`, `KeyedFold`, `FifoRing` | shared definitions: options, keyed tables as folds, the ring both detectors use |
| `TunnelText`, `Enforcement`, `Policies`, `ClusterState` | status text, drop entries, policies, the state the writers share |
| `ThreatScoreWatcher`, `PolicyController`, `BlocklistReconciler` | the three writers |
| `ScoreOutcomes`, `VisitOutcomes` | what one score and one reconciliation do, field by field |
| `ClosedLoop` | runs of complete calls, on reads of any age |
| `WriteAheadRuns`, `WriteAheadWeakest`, `WriteAheadLimits` | write-ahead over all runs, the exactness of its guards, the runs that need them |
| `Dwell`, `Throttling` | de-escalation and the write limiter over all runs |
| `CallPieces`, `TwoPass`, `Overlap` | the pieces of calls, and theorems over their interleavings |
| `GtpuHeader`, `FrameGrammar`, `RateWindow`, `PortScan`, `PacketFilter` | the filter program and the grammars of what it reads |
| `FilterRuns`, `Verdicts`, `NonInterference`, `TunnelRateSeries`, `MapKeys`, `SourceKeys` | theorems over packet sequences; agreement with the Python capture scripts and with the Go loader |
| `TunnelFlood`, `SourceFlood` | the rule detectors |
| `PodIPIndex`, `Connector`, `Publisher` | the Pod address index, the bus connector and the batching publisher |

`dafny verify dfyconfig.toml` checks the whole project.

## How the source is read

* `net.ParseIP` is a parameter, a partial function from text to addresses, of
  which one thing is asked: accepted text contains no slash. An address is its
  canonical value, so a map keyed by `ip.String()` is a map keyed by address, and
  an IPv4-mapped IPv6 address is the IPv4 address.
* The kill switch, the status-write limiter, the scoring tracker, the clock, the
  mesh adapter, and every API or kernel failure are inputs of a step, free to
  take any value. Scores and thresholds are reals.
* API writes use optimistic concurrency: a write through a copy whose resource
  version is not the stored one conflicts. API reads go through a cache: a Get, a
  list of a blocklist pass and the list that warms the index may show the store of
  any earlier moment. So may the indexed copy that a score was handed when its
  policies were matched.
* Kernel counters are 32 bits wide and clocks 64, with wrap-around written out.
  The theorems that compare counts with packets assume fewer than 2^32 packets.
* Sets replace the sorted key lists of `Sync`, which makes its result hold for
  every order of keys.
* Map capacities are a parameter, so the results hold for the declared ones.

## Where the code does less than its comments say

Each of these is a theorem below: a concrete failing case, and the exact
condition under which the property does hold.

* **Write-ahead.** Every kernel drop is named in a persisted status over every run
  of orderly steps (`WriteAheadAlways`). The guards are exact: where write-ahead would
  survive every careful continuation, a step lets it survive if and only if it is
  orderly (`OrderlyIsExact`), because the invariant behind it is the weakest there is
  (`InvIsWeakest`, `RunStepExact`). With current reads only deletions can be
  disorderly (`CurrentReadsAreOrderly`). The guards and the runs that need them:
  * A deletion of a policy that has no finalizer yet, which can hold blocks because
    the index is warmed before the first reconciliation (`DeleteExact`;
    `FinalizerlessDeleteOrphans` and `LeftoverCopyOrphans` for its two halves).
  * A blocklist pass over a list that lags behind a release. The comment at
    `pkg/controller/blocklist_reconciler.go:283-288` calls this race self-correcting;
    until it corrects itself, write-ahead is broken with nothing else amiss
    (`PassExact`, `StalePassOrphans`).
  * A reconciliation or a warm-up that indexes a copy from before a release
    (`VisitExact`, `StaleGetOrphans`; `WarmExact`, `StaleWarmOrphans`), and a score
    that was handed one (`ScoreExact`, `StaleScoreOrphans`). A copy that only misses
    later blocks does no harm (`ListedCovers`). `StaleCopyExact` says what a copy can
    do.
* **Write-ahead and overlap.** A repeated score between a release's unblock and its
  clear leaves an unnamed drop exactly when its own write was throttled
  (`RepeatDuringReleaseExact`, `ThrottledRepeatRaces`). `OverlapExact` gives the guard
  for every piece of scores, reconciliations, finalizations and blocklist passes, and
  for what users do in between.
* **Early release.** A reconciliation waits out the quiet period of the copy it read
  (`ReleasesAreQuiet`). If that copy lags, the persisted one may not be over yet
  (`EarlyReleaseExact`, `StaleVisitReleasesEarly`).
* **Two-pass removal.** The comment at
  `pkg/controller/blocklist_reconciler.go:270-281` still describes a watcher that
  blocks before it writes; the model follows the code, which writes first. Two
  passes protect a live block unless the same entry was left over from before,
  taken out and put back between one pass's list and its kernel read
  (`TwoPassSafety`, `ReplacedEntryIsReverted`), or the lists are stale
  (`StaleListsRevert`). `DropExact` is the condition, for lists of any age.
* **Throttled writes.** Decisions and drops do not depend on the limiter
  (`ThrottlingTransparent`), but the de-escalation clock does, because a throttled
  repeat does not refresh it. `ThrottlingClockExact` says at which visits the two
  runs part, and `ThrottlingShortensDwell` how.
* **Stranded blocks.** A crossing score that is withheld, by AutoMitigate off or
  by the kill switch, moves a policy that holds blocks out of Mitigating
  (`WithheldCrossingExact`; `KillSwitchStrands` is a run). No reconciliation then
  releases them (`StrandedStaysBlocked`) until an armed crossing brings the policy
  back (`StrandedRecoversExact`) or the policy is deleted.
* **Byte order.** The Go loader and the C program build the same IPv4 tunnel key
  only on little-endian hosts or for palindromic addresses (`SameKeyExact`,
  `BigEndianMisses`).
* **GTP-U extension headers.** Section 5.1 of 3GPP TS 29.281 gives octet 12 a
  meaning only when the E flag is set. The parsers use it when any of E, S and
  PN is set, and they stop after four headers or 64 octets, which the standard does
  not; the grammar here is theirs. `StandardExact` says on which payloads the two
  readings differ, `StandardDiffers` and `ManyExtensionsDiffer` show some.
* **Capture replay.** The capture reader skips IPv6 and checks the version field of
  the IPv4 header, the kernel does neither. `KernelMatchesScript` says that the
  script reproduces a tunnel's rates exactly when that makes no difference,
  `OddVersionDiverges` shows a capture where it does.

## Model

| member | source | states |
|---|---|---|
| `BlocklistReconciler.KernelMaps.Block` | pkg/ebpf/loader_linux.go:296-346 | An insert succeeds exactly when the entry is enforceable, the write does not fail and the key is present or its map has room; otherwise nothing changes |
| `BlocklistReconciler.KernelMaps.Unblock` | pkg/ebpf/loader_linux.go:308-367 | A delete of an absent key succeeds; TEID 0 is refused |
| `Enforcement.MapOfExact` | pkg/ebpf/loader_linux.go:369-392 | Two entries share a map exactly when they are of one kind and one address family |
| `Enforcement.OtherMapsNeverRefuse` | pkg/ebpf/loader_linux.go:369-392 | However many entries of the other kind or family there are, none gets an entry refused: a full IPv4 blocklist still takes an IPv6 source |
| `Enforcement.AcceptsExact` | pkg/ebpf/loader_linux.go:296-346 | An entry is taken exactly when it is no TEID 0 and the maps with it still fit: a held one can always be put again, and nothing is evicted |
| `Policies.ClaimsExact` | pkg/controller/telecomsecuritypolicy_controller.go:276-299 | A status claims exactly the sources and tunnels its texts name: both directions, unparsable texts naming nothing |
| `BlocklistReconciler.DesiredEnforcement` | pkg/controller/blocklist_reconciler.go:390-419 | The result holds exactly the enforceable entries some policy not being deleted claims; unparsable text and TEID 0 are left out |
| `BlocklistReconciler.Reconciler.AddMissing` | pkg/controller/blocklist_reconciler.go:291-327 | What went in did not overfill a map; everything else either failed or found its map full; one failure does not stop the rest |
| `BlocklistReconciler.Reconciler.RemoveExpired` | pkg/controller/blocklist_reconciler.go:302-345 | Exactly the entries unclaimed on the previous pass too, and removable, leave the kernel |
| `BlocklistReconciler.Reconciler.Sync` | pkg/controller/blocklist_reconciler.go:234-378 | One pass is one `SyncPass`; the memory becomes the unclaimed entries; it reports an error exactly when some correction failed; a failed list or read changes nothing; the drift counters count what was missing, expired and pending |
| `BlocklistReconciler.PassFromPhases` | pkg/controller/blocklist_reconciler.go:291-345 | The four phases, two maps each of additions and removals, compose into one pass over all entries |
| `BlocklistReconciler.PassKeepsCapacity` | bpf/headers/common.h:84-104 | No pass pushes a map past its capacity |
| `BlocklistReconciler.ErrorFreePassHoldsDesired` | pkg/controller/blocklist_reconciler.go:291-345 | After an error-free pass the kernel holds every desired entry |
| `BlocklistReconciler.ErrorFreeExact` | pkg/controller/blocklist_reconciler.go:291-378 | A pass reports no error if and only if the kernel ends with all that is desired and, of the rest, exactly what was not unclaimed before: no expired entry is left |
| `BlocklistReconciler.DriftBalances` | pkg/controller/blocklist_reconciler.go:103-124 | The counters of an error-free pass balance: the kernel grows by missing and shrinks by extra, pending is the next pass's extra, and all are zero exactly on a kernel as desired |
| `BlocklistReconciler.FillPass` | pkg/controller/blocklist_reconciler.go:291-327 | A pass over a kernel holding only desired entries completes it, if the desired set fits |
| `BlocklistReconciler.TwoPassesClear` | pkg/controller/blocklist_reconciler.go:302-345 | Two passes clear everything no policy claims |
| `BlocklistReconciler.ConvergesInThreePasses` | pkg/controller/blocklist_reconciler.go:289-345 | From any kernel and any memory, with full maps as the only failure, three passes reach the desired set if and only if it fits; two do if and only if the second refused nothing, hence whenever the first refused nothing |
| `BlocklistReconciler.ThreePassesNeeded` | pkg/controller/blocklist_reconciler.go:289-345 | With one slot held by an unclaimed entry the map is empty after two passes: three is the best bound |
| `BlocklistReconciler.SettledStaysSettled` | pkg/controller/blocklist_reconciler.go:289-345 | A kernel equal to the desired set stays so, whatever the memory and the faults |
| `ClusterState.ReleaseEffect` | pkg/controller/telecomsecuritypolicy_controller.go:276-299 | A release takes out only what it names, all of it if it reports success, and reports success exactly when no named entry fails |
| `ClusterState.BlockAllEffect` | pkg/controller/threat_score_watcher.go:278-303 | A sequence of blocks only adds what it names, all of it if it reports success |
| `ThreatScoreWatcher.AppendUniqueScan` | pkg/controller/threat_score_watcher.go:400-407 | The scan returns the list unchanged if it has the text, else with the text appended |
| `ThreatScoreWatcher.EqualStringSet` | pkg/controller/threat_score_watcher.go:360-374 | The two loops decide: same length, and the second list's members all in the first |
| `ThreatScoreWatcher.SameStringsIsSetEquality` | pkg/controller/threat_score_watcher.go:360-374 | On repeat-free lists that is set equality, both directions |
| `ThreatScoreWatcher.SameStringsNeedsDistinct` | pkg/controller/threat_score_watcher.go:360-374 | On lists with repeats it is not |
| `ThreatScoreWatcher.WriteStatusThrough` | pkg/controller/threat_score_watcher.go:326-387 | Written, conflicting, failed or throttled: the store, the index and the answer after a status write |
| `ThreatScoreWatcher.RecordIntent` | pkg/controller/threat_score_watcher.go:242-267 | The status that names what is about to be blocked |
| `ThreatScoreWatcher.Execute` | pkg/controller/threat_score_watcher.go:278-313 | Tunnel first, then source, then mesh, stopping at the first failure |
| `ThreatScoreWatcher.ApplyPolicy` | pkg/controller/threat_score_watcher.go:170-314 | The whole call on the copy it was handed, every exit, equals `ApplyTo` on store, index and kernel |
| `ScoreOutcomes.CrossingExact` | pkg/controller/threat_score_watcher.go:27-31 | A score crosses if and only if it is 1 or more, or at least 0.8 (high), 1 (medium and unknown) or 1.2 (low) times the base threshold |
| `ScoreOutcomes.CrossingOrder` | pkg/controller/threat_score_watcher.go:24-31 | For a base threshold that is not negative, whatever crosses a less sensitive policy crosses a more sensitive one |
| `ScoreOutcomes.ScoreOutcome` | pkg/controller/threat_score_watcher.go:170-314 | After a successful call the kernel has exactly what an armed score asks for besides what it had; phase, score, time and both lists are those of the branch taken, in store and index; the rest of the policy and all others are untouched; only a score that decides nothing can go unwritten, for want of a token |
| `ScoreOutcomes.RefusedBlocksNothing` | pkg/controller/threat_score_watcher.go:269-272 | A due write that fails or conflicts ends the call with an error, no block and no change |
| `ScoreOutcomes.ScoreFailsExact` | pkg/controller/threat_score_watcher.go:170-314 | A call fails if and only if its due write is refused or, on an armed score, a block it asks for is not taken or its quarantine fails |
| `ScoreOutcomes.TunnelFirst` | pkg/controller/threat_score_watcher.go:278-303 | A score that asks for both never places the source block without the tunnel block |
| `PolicyController.ReleaseAll` | pkg/controller/telecomsecuritypolicy_controller.go:276-299 | Both unblocking loops: unparsable text is skipped, the first failure stops |
| `PolicyController.DeEscalate` | pkg/controller/telecomsecuritypolicy_controller.go:264-324 | The whole call, every exit, equals `TryDeEscalate` |
| `PolicyController.FinalizePolicy` | pkg/controller/telecomsecuritypolicy_controller.go:336-386 | The whole call equals `Finalize`: release first, then the finalizer, then the index |
| `PolicyController.PreparePolicy` | pkg/controller/telecomsecuritypolicy_controller.go:109-140 | Finalizer, index, phase and scoring condition of a live policy, with a conflict on the condition retried in a second |
| `PolicyController.ReconcilePolicy` | pkg/controller/telecomsecuritypolicy_controller.go:92-151 | One request equals `Reconcile`, including a failed Get and the wake-up it asks for |
| `VisitOutcomes.VisitOutcome` | pkg/controller/telecomsecuritypolicy_controller.go:92-166 | A visit of a live policy on a current read, by fields: exactly when it fails; otherwise finalizer, index entry, phase, lists, score and time, the kernel, every other policy, and the wake-up, which is the sooner of the two asked for |
| `VisitOutcomes.DeEscalateOutcome` | pkg/controller/telecomsecuritypolicy_controller.go:264-324 | Before the quiet period is over nothing changes and the wake-up is its end; then it fails exactly if a release, the mesh or the write does, and otherwise leaves Monitoring, empty lists and exactly its own entries out of the kernel |
| `VisitOutcomes.SourcesReleasedFirst` | pkg/controller/telecomsecuritypolicy_controller.go:276-299 | Sources go before tunnels: one that cannot be released leaves every tunnel blocked, and otherwise all sources are out even if a tunnel fails |
| `VisitOutcomes.DeletionOutcome` | pkg/controller/telecomsecuritypolicy_controller.go:336-386 | A policy being deleted leaves store, index and kernel together; it stays, with every claim still named, exactly if a release, the mesh or the write fails |
| `VisitOutcomes.UnreadOutcome` | pkg/controller/telecomsecuritypolicy_controller.go:95-103 | A failed Get changes nothing; a policy not found only leaves the index |
| `VisitOutcomes.ConflictRetries` | pkg/controller/telecomsecuritypolicy_controller.go:209-222 | A conflict on the scoring condition is no error and is retried after one second |
| `ClosedLoop.ListedStore` | pkg/controller/blocklist_reconciler.go:390-419 | What a pass desires from a current list is what the persisted statuses desire |
| `ClosedLoop.WarmFrom` | pkg/controller/threat_score_watcher.go:125-138 | Every listed policy not being deleted is indexed, other index entries stay |
| `WriteAheadRuns.ScoreExact` | pkg/controller/threat_score_watcher.go:162-314 | A score through a copy of any age, wherever it stops, keeps the invariant if and only if what it adds through an outdated one is still named; through the current one, or one the index holds, it always does |
| `WriteAheadRuns.ListedCovers` | pkg/controller/threat_score_watcher.go:242-272 | A copy all of whose texts the persisted status still lists can place no drop that its policy does not claim |
| `WriteAheadRuns.VisitExact` | pkg/controller/telecomsecuritypolicy_controller.go:92-386 | A reconciliation, through a view of any age and wherever it stops, keeps it if and only if it indexes no copy that could place a drop its policy has stopped claiming; a current one always does |
| `WriteAheadRuns.PassExact` | pkg/controller/blocklist_reconciler.go:234-378 | A pass over a list of any age keeps it if and only if everything it adds is still named |
| `WriteAheadRuns.WarmExact` | pkg/controller/threat_score_watcher.go:125-138 | Warming the index from a list of any age keeps it if and only if no listed live policy could place such a drop |
| `WriteAheadRuns.DeleteExact` | pkg/controller/telecomsecuritypolicy_controller.go:336-386 | A deletion keeps it if and only if the policy has its finalizer, or no repeat through its indexed copy drops anything and every drop it claims is claimed by another policy |
| `ClosedLoop.OutdatedVisit` | pkg/controller/telecomsecuritypolicy_controller.go:92-151 | A reconciliation through an outdated view writes nothing, indexes at most that view and at most unblocks |
| `ClosedLoop.RunReadsKnown` | pkg/controller/telecomsecuritypolicy_controller.go:92-151 | In every run whatever is read, of the store or of the index, is the stored object or of a version gone by, and so conflicts on write |
| `WriteAheadRuns.RunStepExact` | pkg/controller/threat_score_watcher.go:228-314 | In every run of scores, reconciliations, passes, warm-ups, edits, deletions, kernel losses and restarts, on reads of any age and each call stopping anywhere, a step breaks the invariant if and only if it violates the guard named for it above |
| `WriteAheadRuns.WriteAheadAlways` | pkg/controller/threat_score_watcher.go:228-314 | In every such run of orderly steps every kernel drop is named in a persisted status at every point |
| `WriteAheadRuns.CurrentReadsAreOrderly` | pkg/controller/blocklist_reconciler.go:234-254 | On current reads every step but a deletion is orderly |
| `WriteAheadRuns.ErrorFreePassRestores` | pkg/controller/blocklist_reconciler.go:291-327 | From any state one error-free pass over a current list makes the kernel hold every claim of every policy not being deleted, also what another policy's release took out |
| `WriteAheadRuns.CurrentPassNamed` | pkg/controller/blocklist_reconciler.go:291-345 | And after an orderly run nothing unnamed |
| `WriteAheadRuns.WriteAheadWhenCurrent` | pkg/controller/threat_score_watcher.go:228-314 | With current reads and safe deletions write-ahead holds over every run |
| `WriteAheadWeakest.RunProper` | pkg/controller/threat_score_watcher.go:242-272 | In every run all persisted claims are ones the loader accepts, and what is being deleted has its finalizer |
| `WriteAheadWeakest.UncoveredBreaks` | pkg/controller/telecomsecuritypolicy_controller.go:336-386 | If an indexed copy could place a drop that its policy does not claim, those who still name the drop can be made to go, reading nothing old and deleting nothing without its finalizer, and then it is placed unnamed |
| `WriteAheadWeakest.InvIsWeakest` | pkg/controller/threat_score_watcher.go:228-314 | A state of a run satisfies the invariant if and only if write-ahead holds there and after every continuation that reads nothing old and deletes nothing without its finalizer |
| `WriteAheadWeakest.OrderlyIsExact` | pkg/controller/threat_score_watcher.go:228-314 | Where write-ahead survives all such continuations, a step of a run lets it survive if and only if the step is orderly |
| `WriteAheadLimits.FinalizerlessDeleteOrphans` | pkg/controller/threat_score_watcher.go:125-138 | A run, from an empty cluster and with the index empty again, in which a deletion leaves a drop no status names |
| `WriteAheadLimits.LeftoverCopyOrphans` | pkg/controller/threat_score_watcher.go:326-340 | A run in which a deletion leaves every drop named, a quiet visit releases the other claimant, and a throttled repeat through the copy left in the index places an unnamed drop |
| `WriteAheadLimits.StaleApplyEffect` | pkg/controller/threat_score_watcher.go:326-340 | Through a copy the API server would refuse, a score of any policy writes nothing and adds only drops of a repeat of what the copy records |
| `WriteAheadLimits.RepeatsNamedIsHarmless` | pkg/controller/threat_score_watcher.go:326-340 | If all drops such repeats could place are named, no score through the copy breaks write-ahead, full maps or not |
| `WriteAheadLimits.StaleCopyExact` | pkg/controller/threat_score_watcher.go:326-340 | A superseded or leftover copy, of any spec and phase, is harmless to every score if and only if all drops its repeats could place are named; room in the maps is assumed for the converse |
| `WriteAheadLimits.StaleReadBreaksWriteAhead` | pkg/controller/telecomsecuritypolicy_controller.go:92-151 | An outdated view goes into the index, and a throttled repeat of any drop it records, source or tunnel, goes in unnamed |
| `WriteAheadLimits.StaleGetOrphans` | pkg/controller/telecomsecuritypolicy_controller.go:92-151 | The same as a run: block, quiet release, one outdated visit, one throttled repeat |
| `WriteAheadLimits.StaleWarmOrphans` | pkg/controller/threat_score_watcher.go:125-138 | The same with a restart and a warm-up from a list that lags |
| `WriteAheadLimits.StaleScoreOrphans` | pkg/controller/threat_score_watcher.go:162-167 | And with a score that was handed its copy before the release and is applied after it |
| `WriteAheadLimits.StalePassOrphans` | pkg/controller/blocklist_reconciler.go:283-300 | A run of a block, its quiet release and an error-free pass over the list from before the release, with no fault, deletion, throttling or other lag, that ends with an unnamed drop |
| `CallPieces.ScoreInOneGo` | pkg/controller/threat_score_watcher.go:170-314 | The pieces of a score, undisturbed, are one applyPolicy on the copy it was handed |
| `CallPieces.ReleaseInOneGo` | pkg/controller/telecomsecuritypolicy_controller.go:264-324 | The pieces of a release, undisturbed, are one tryDeEscalate, with every failure and through a copy of any age |
| `CallPieces.FinalizeInOneGo` | pkg/controller/telecomsecuritypolicy_controller.go:336-386 | Those of a finalization are one finalize |
| `CallPieces.VisitInOneGo` | pkg/controller/telecomsecuritypolicy_controller.go:92-151 | Those of a reconciliation, each write and index put apart, are one Reconcile on a view of any age |
| `Overlap.OverlapExact` | pkg/controller/threat_score_watcher.go:259-303 | For every piece of a score, a reconciliation, a finalization, a pass over an earlier list, or what users do, in any interleaving: from a sound state it leaves a sound state if and only if it is calm, that is, adds or goes on to no unnamed drop, puts back none that a current release has taken out and alone claims, ends no release and deletes no policy on the last name of a drop placed or to be placed, and leaves no copy in the index that could place a drop its policy does not claim |
| `Overlap.CalmKeepsWriteAhead` | pkg/controller/telecomsecuritypolicy_controller.go:264-324 | Write-ahead holds over every interleaving of such steps |
| `Overlap.RunsAreSound` | pkg/controller/threat_score_watcher.go:228-314 | Every state of an orderly run of complete calls is such a sound state |
| `Overlap.DoomedIsOrphaned` | pkg/controller/telecomsecuritypolicy_controller.go:276-311 | Once such an entry is back, the release has only to go on and the drop has lost its name |
| `Overlap.RepeatDuringReleaseExact` | pkg/controller/threat_score_watcher.go:326-340 | A repeat between the last unblock and the clear keeps write-ahead if and only if its write was not throttled: then the clear is refused |
| `Overlap.ThrottledRepeatRaces` | pkg/controller/threat_score_watcher.go:326-340 | The race as a run from an empty cluster: block, begin of the release, unblock, throttled repeat, clear, unnamed drop |
| `Overlap.ClearedFlightOrphans` | pkg/controller/telecomsecuritypolicy_controller.go:264-324 | A clear of the last name of a drop still to be placed makes the next block an unnamed one |
| `Dwell.NothingStranded` | pkg/controller/threat_score_watcher.go:179-272 | While mitigation stays armed, every reachable status with blocks is Mitigating with its time set, whatever the age of what is read |
| `Dwell.WithheldCrossingExact` | pkg/controller/threat_score_watcher.go:196-226 | A score strands blocks if and only if it crosses, is withheld, the policy holds blocks and the write succeeds |
| `Dwell.KillSwitchStrands` | pkg/controller/threat_score_watcher.go:214-226 | A run, armed but for its last score, that ends in Alerting with a block in status and kernel |
| `Dwell.StrandedStaysBlocked` | pkg/controller/telecomsecuritypolicy_controller.go:142-151 | Outside Mitigating no reconciliation releases a block, and without a scoring tracker none asks to be woken |
| `Dwell.StrandedRecoversExact` | pkg/controller/threat_score_watcher.go:228-272 | A score brings a policy back to Mitigating, with its time, if and only if it crosses, armed, and its write goes through |
| `Dwell.NoEarlyRelease` | pkg/controller/telecomsecuritypolicy_controller.go:264-272 | Before T + dwell nothing is released, and a successful reconciliation asks to be woken no later than then |
| `Dwell.QuietVisitReleases` | pkg/controller/telecomsecuritypolicy_controller.go:274-324 | The first successful visit at or after T + dwell leaves phase Monitoring, both lists empty, score and time as before, spec and all other policies unchanged, the index refreshed, and exactly the policy's own entries gone from the kernel |
| `Dwell.MitigatingVisit` | pkg/controller/telecomsecuritypolicy_controller.go:264-324 | A successful visit leaves a Mitigating status as it is before T + dwell, and from then on under Monitoring with empty lists |
| `Dwell.ReleasesAreQuiet` | pkg/controller/telecomsecuritypolicy_controller.go:264-324 | Over every run, a reconciliation of a live policy changes the kernel only from T + dwell on, with T the time of the copy it read |
| `Dwell.EarlyReleaseExact` | pkg/controller/telecomsecuritypolicy_controller.go:264-299 | While the persisted status still dwells, a reconciliation takes a drop out if and only if its copy is outdated, gets as far as the release, has dwelt itself, and claims an entry that is there before the first failure |
| `Dwell.StaleVisitReleasesEarly` | pkg/controller/telecomsecuritypolicy_controller.go:264-299 | A run that releases early: block, finalizer, a repeat that starts a new quiet period, a visit through the copy from before it |
| `Throttling.WriteEndsOnDecision` | pkg/controller/threat_score_watcher.go:316-387 | Written or throttled, the persisted phase and lists are the decided ones |
| `Throttling.ThrottlingTransparent` | pkg/controller/threat_score_watcher.go:170-407 | For every sequence of scores and any two behaviours of the limiter: same phases, lists, index, kernel, attempted drops and errors |
| `Throttling.DecideKeepsDistinct` | pkg/controller/threat_score_watcher.go:342-407 | One decision keeps the lists repeat-free, and the comparison that throttles it is set equality |
| `Throttling.ListsStayDistinct` | pkg/controller/threat_score_watcher.go:342-407 | In every run, failures, restarts and lagging reads included, all persisted and indexed lists are repeat-free |
| `Throttling.ThrottlingClockExact` | pkg/controller/threat_score_watcher.go:326-340 | For every mitigating policy and every repeat: at a later visit the throttled and the written run agree on phase and lists if and only if it falls on the same side of both quiet periods |
| `Throttling.ThrottlingShortensDwell` | pkg/controller/threat_score_watcher.go:326-340 | Between the two, the throttled run has released what the written one still holds |
| `TwoPass.InvHolds` | pkg/controller/blocklist_reconciler.go:234-378 | In every interleaving with fresh lists, what the reconciler remembers is what was so when it looked |
| `TwoPass.ListsWereTrue` | pkg/controller/blocklist_reconciler.go:234-254 | In every interleaving, a list of any age shows what was claimed at its time |
| `TwoPass.DroppedWasReplaced` | pkg/controller/blocklist_reconciler.go:268-345 | A continuously claimed entry that a pass drops was in the kernel at the previous read, taken out, and claimed and placed again after this pass's list |
| `TwoPass.TwoPassSafety` | pkg/controller/blocklist_reconciler.go:268-345 | Otherwise no pass, in any interleaving, drops an entry claimed since before it was placed |
| `TwoPass.DropExact` | pkg/controller/blocklist_reconciler.go:302-345 | In every interleaving and with lists of any age, a pass may drop a live entry it saw, not claimed at its list or claimed ever since, if and only if it remembers the key and its list predates the claim |
| `TwoPass.AbandonedIsCleared` | pkg/controller/blocklist_reconciler.go:302-345 | In every interleaving, an entry nobody claims or places any more is out of the kernel for good after two passes in a row on lists from after that, the second of which carried out its removals |
| `TwoPass.RestartForgets` | pkg/controller/blocklist_reconciler.go:86-93 | Until the first pass since the start or a restart is completed nothing is dropped, whatever the lists show |
| `TwoPass.PassIsRun` | pkg/controller/blocklist_reconciler.go:234-378 | Every pass in one go is an undisturbed run of these steps with the same kernel and memory at the end |
| `TwoPass.ReplacedEntryIsReverted` | pkg/controller/blocklist_reconciler.go:268-345 | A run with current lists that reverts a live block |
| `TwoPass.StaleListsRevert` | pkg/controller/blocklist_reconciler.go:268-345 | A run with stale lists that reverts a block never moved |
| `TunnelText.HexRoundTrip` | pkg/controller/threat_score_watcher.go:431-449 | Printed hexadecimal reads back as the same number |
| `TunnelText.TunnelTextRoundTrip` | pkg/controller/threat_score_watcher.go:431-449 | A printed tunnel parses to its address and TEID, for every accepted address text and every 32-bit TEID |
| `TunnelText.TunnelTextInjective` | pkg/controller/threat_score_watcher.go:431-449 | Equal entries name equal tunnels |
| `TunnelText.ParseTunnelExact` | pkg/controller/threat_score_watcher.go:435-449 | The parser accepts exactly an accepted address without a slash, a slash, and a hexadecimal numeral in either case of at most 32 bits, with or without 0x, and returns that address and number |
| `GtpuHeader.ParseGtpu` | bpf/packet_filter.c:425-499 | The loop reads in bounds, keeps its offset a multiple of 4 from 12 to 64, and equals the recursive specification |
| `GtpuHeader.PyParseGtpu` | cmd/ai-engine/scripts/pcap_gtpu.py:78-130 | The Python parser agrees with it on TEID and malformed flag, for every byte string |
| `GtpuHeader.HeaderRoundTrip` | bpf/packet_filter.c:425-499 | Every printed header, followed by anything, parses to its own TEID: a T-PDU if it has at most 4 extensions and 64 octets, malformed otherwise |
| `GtpuHeader.ParserDecidesGrammar` | bpf/packet_filter.c:425-499 | A payload is a T-PDU with a TEID if and only if it starts with a bounded well-formed header carrying it |
| `GtpuHeader.ParseExact` | bpf/packet_filter.c:425-499 | All three results by the octets: T-PDU by the grammar, other by message types 1, 2, 26, 31 and 254, malformed exactly otherwise, under the TEID of a T-PDU's first eight octets and 0 for the rest |
| `GtpuHeader.TeidFromFirstEight` | bpf/packet_filter.c:446-463 | The TEID depends on the first eight octets alone |
| `GtpuHeader.StandardExact` | bpf/packet_filter.c:450-499 | The parser departs from section 5.1 of 3GPP TS 29.281 exactly on T-PDUs of 12 octets or more that have S or PN but not E and whose octet 12 starts no chain it accepts, or that have E and a sound chain of more than four headers or past octet 64; and then by calling them malformed |
| `GtpuHeader.ChainOkExact` | bpf/packet_filter.c:464-498 | The program's walk is the walk bounded by the packet alone, plus its two limits |
| `GtpuHeader.StandardDiffers` | bpf/packet_filter.c:450-463 | A payload of the first kind |
| `GtpuHeader.ManyExtensionsDiffer` | bpf/packet_filter.c:464-498 | A payload of the second kind for every number of extensions from five on |
| `GtpuHeader.GeneratedParses` | scripts/loadtest/gen_packets.py:62-72 | Every generated packet parses to the T-PDU of its TEID, for every TEID and inner length |
| `RateWindow.CounterIsReported` | bpf/packet_filter.c:552-571 | The in-place counter is the number of packets since its window's opener, with and without wrap-around |
| `RateWindow.ReportedAtMostSliding` | bpf/packet_filter.c:552-571 | A rate reported at t is at most the packets in [t - W, t] |
| `RateWindow.DenseIntervalReports` | bpf/packet_filter.c:552-571 | A closed interval of length W with at least n and 2n - 2 packets contains one that reports n |
| `RateWindow.DenseBoundTight` | bpf/packet_filter.c:552-571 | For every n from 2 on, 2n - 3 packets are not enough |
| `PortScan.Recorded` | bpf/packet_filter.c:596-603 | The bounded scan finds the port if and only if it is among the slots in use |
| `PortScan.PortScanExact` | bpf/packet_filter.c:582-615 | Over a source's whole history the array is repeat-free and equals the ports of the window until the threshold, and the detector fires at precisely the packet bringing the fifteenth |
| `PortScan.FiresOncePerWindow` | bpf/packet_filter.c:582-615 | And never again in that window |
| `PacketFilter.Xdp.TrackSignalRate` | bpf/packet_filter.c:502-518 | The counter entry of one source after a packet, others unchanged |
| `PacketFilter.Xdp.TrackScanRate` | bpf/packet_filter.c:526-546 | The count before this packet in its window, and the new entry |
| `PacketFilter.Xdp.TrackTunnelRate` | bpf/packet_filter.c:552-571 | The count including this packet, and the new entry |
| `PacketFilter.Xdp.TrackPortScan` | bpf/packet_filter.c:582-615 | The new entry and the edge |
| `PacketFilter.Xdp.HandleSignaling` | bpf/packet_filter.c:884-926 | Signal rate before the tunnel drop, tunnel rate after it, then the event |
| `PacketFilter.Xdp.HandleOffPort` | bpf/packet_filter.c:927-954 | The flood event at the tenth packet and the scan event at its edge |
| `PacketFilter.Xdp.Run` | bpf/packet_filter.c:733-957 | One frame: verdict, every map and the events equal `Filter` of the decoded frame |
| `FrameGrammar.DecodePrinted` | bpf/packet_filter.c:735-880 | Every printed frame, IPv4 with options or IPv6, tagged or not, whole, cut short, fragment or no UDP, is seen with its own addresses, VLAN, port and payload |
| `FrameGrammar.DecodeExact` | bpf/packet_filter.c:735-880 | The decoder decides the grammar of frames: it sees a packet exactly if the frame prints that packet, and none exactly if the frame prints none |
| `Verdicts.VerdictExact` | bpf/packet_filter.c:733-957 | On every packet of every run, from any maps: dropped if and only if it is from a blocked source, or is a T-PDU whose source and nonzero TEID are a blocked tunnel |
| `Verdicts.DroppedUntraced` | bpf/packet_filter.c:849-917 | A packet from a blocked source changes no map and gives no event; one of a blocked tunnel only counts in its source's signaling rate |
| `Verdicts.SignalingReported` | bpf/packet_filter.c:881-926 | Every datagram to port 2152 or 5060 that is let through gives exactly one event, by fields; it is flagged malformed exactly if its payload is neither path management nor in the header grammar |
| `Verdicts.OtherReported` | bpf/packet_filter.c:855-880 | A UDP packet cut short gives one malformed event, and what is not UDP or not IP none; both pass and change no map |
| `Verdicts.OffPortReported` | bpf/packet_filter.c:927-954 | An off-port datagram gives a flood event at exactly the tenth packet of its one-second window, then a scan event at exactly the fifteenth distinct port of its thirty-second window, and no other |
| `KeyedFold.TableIsFold` | bpf/packet_filter.c:502-615 | A table updated at the key of each packet holds, per key, the fold over that key's packets |
| `FilterRuns.MapsAreTables` | bpf/packet_filter.c:733-957 | Over any frames all four observation maps are such tables of the packets that reach them |
| `FilterRuns.TunnelRateExact` | bpf/packet_filter.c:896-922 | The rate in an event is the window count of that tunnel's own packets, at most its packets of the last second, whatever else arrived |
| `FilterRuns.SignalRateExact` | bpf/packet_filter.c:502-518 | A source's signaling rate after each of its packets is its window's count, with packets of blocked tunnels in it |
| `FilterRuns.DenseTunnelSeen` | bpf/packet_filter.c:552-571 | Any second with at least n and 2n - 2 counted packets of one tunnel contains an event of rate n or more |
| `FilterRuns.NoTeidNoRate` | bpf/packet_filter.c:896-922 | TEID 0 always reports rate 0 |
| `FilterRuns.FloodEdgeExact` | bpf/packet_filter.c:940-943 | A flood event goes out at precisely the tenth packet of a (source, port) window |
| `FilterRuns.ScanEdgeExact` | bpf/packet_filter.c:944-953 | A scan event goes out at precisely the packet bringing the fifteenth distinct port |
| `NonInterference.HitStep` | bpf/packet_filter.c:900-917 | A packet of a blocked tunnel is dropped, leaves no event, and still counts towards its source's signaling rate |
| `NonInterference.BlockedTunnelOnly` | bpf/packet_filter.c:849-954 | From any maps, on any frames, one more blocked tunnel changes only that tunnel's verdicts, events and rate entry |
| `NonInterference.BlockedSourceOnly` | bpf/packet_filter.c:849-954 | From any maps, blocking one more source drops its packets unrecorded, changes no other verdict or event, and after any number of packets leaves every other source's entries as in the other run and its own as at first |
| `TunnelRateSeries.Series` | cmd/ai-engine/scripts/build_real_dataset.py:94-117 | The script's loop computes, per sample, the window count over its tunnel's own samples |
| `TunnelRateSeries.ReadUdpPackets` | cmd/ai-engine/scripts/pcap_gtpu.py:154-235 | The reader keeps, in order, the IPv4 version-4 UDP packets with their source and TEID, for Ethernet captures |
| `TunnelRateSeries.ReaderKeeps` | cmd/ai-engine/scripts/pcap_gtpu.py:133-220 | A frame reads as a packet of a tunnel if and only if the kernel sees that tunnel on it and its version field is 4 |
| `TunnelRateSeries.ReaderExact` | cmd/ai-engine/scripts/pcap_gtpu.py:133-217 | The reader keeps exactly the version 4 packets the kernel takes for UDP, under the kernel's source and TEID, and 0 for one cut short or to another port |
| `TunnelRateSeries.ScriptCountIsSeries` | cmd/ai-engine/scripts/build_real_dataset.py:94-117 | A packet's count depends on no later frame |
| `TunnelRateSeries.KernelMatchesScript` | cmd/ai-engine/scripts/build_real_dataset.py:94-117 | On any frames with exact times and for any tunnel, the script gives every counted packet the rate the kernel gave it if and only if every such packet is IPv4 with version field 4 |
| `TunnelRateSeries.NoTeidNoCount` | cmd/ai-engine/scripts/build_real_dataset.py:94-117 | On a packet without a TEID the script counts 0 and every event of the kernel reports 0 |
| `TunnelRateSeries.OddVersionDiverges` | cmd/ai-engine/scripts/pcap_gtpu.py:186-189 | Two frames, the first with version field 6, after which the kernel reports 2 and the script 1 |
| `MapKeys.CKeyInjective` | bpf/packet_filter.c:146-178 | The program's keys are equal only for equal tunnels |
| `MapKeys.SameKeyExact` | pkg/ebpf/loader_linux.go:369-383 | Go and C build the same key if and only if the host is little-endian, the address is IPv6, or its four bytes are a palindrome |
| `MapKeys.BigEndianMisses` | pkg/ebpf/loader_linux.go:369-383 | An address for which a big-endian host writes another key than the program looks up |
| `MapKeys.ReadBackRoundTrip` | pkg/ebpf/inspect_linux.go:63-95 | Reading a written key back yields the tunnel, on every host |
| `MapKeys.TunnelMaps.BlockTunnel` | pkg/ebpf/loader_linux.go:335-346 | Refused exactly for TEID 0, a failed write, or a new key in a full map; otherwise exactly this tunnel is added, with an IPv4-mapped IPv6 address taken as IPv4 |
| `MapKeys.TunnelMaps.UnblockTunnel` | pkg/ebpf/loader_linux.go:350-362 | Refused exactly for TEID 0 or a failed write; otherwise exactly this tunnel is gone |
| `MapKeys.TunnelMaps.LooksBlocked` | bpf/packet_filter.c:914-917 | On a little-endian host the program's lookup hits for exactly the tunnels blocked by that history |
| `MapKeys.TunnelMaps.BlockedTunnels` | pkg/ebpf/inspect_linux.go:63-95 | After any blocks and unblocks, on every host, the result lists exactly the blocked tunnels |
| `MapKeys.KeysStep` | pkg/ebpf/loader_linux.go:335-383 | Blocking or unblocking a tunnel moves its key and no other tunnel's, on every host |
| `MapKeys.InspectorSeesBlocks` | pkg/ebpf/inspect_linux.go:63-95 | The keys of a set of tunnels read back as exactly those tunnels |
| `MapKeys.BlockTunnelBlocksExactly` | bpf/packet_filter.c:900-917 | A key written by the loader makes the program's blocklist one tunnel larger |
| `MapKeys.StatusTextToDrop` | pkg/controller/threat_score_watcher.go:431-449 | A status text parses to its own tunnel; blocked through the loader, on every packet of every run, exactly that tunnel's packets are dropped besides those dropped before; the inspector reads the pair back |
| `MapKeys.To4Exact` | pkg/ebpf/blocklist.go:199-246 | An IPv4-mapped address is keyed as the IPv4 address it carries, and only such a one |
| `SourceKeys.SourceMaps.Block` | pkg/ebpf/loader_linux.go:296-305 | Exactly this source is added, or the block refused on a fault or a full map |
| `SourceKeys.SourceMaps.Unblock` | pkg/ebpf/loader_linux.go:308-327 | Exactly this source is gone, also if it was absent, or nothing on a fault |
| `SourceKeys.SourceMaps.LookupHits` | bpf/packet_filter.c:849-853 | The program's lookup hits exactly the blocked sources, on every host |
| `SourceKeys.SourceMaps.BlockedIPs` | pkg/ebpf/inspect_linux.go:30-56 | The result lists exactly the blocked sources |
| `SourceKeys.SourceTextToDrop` | bpf/packet_filter.c:849-853 | A listed address blocked through the loader: on every packet of every run exactly that source's packets are dropped besides those dropped before |
| `FifoRing.RingAdmits` | pkg/detect/gtpu_flood.go:178-183 | Overwriting the slot at `next` and moving on is a bounded first-in-first-out queue |
| `TunnelFlood.Detector.constructor` | pkg/detect/gtpu_flood.go:103-121 | The defaults, and an empty table |
| `TunnelFlood.Detector.ClaimTunnel` | pkg/detect/gtpu_flood.go:166-185 | Ring and map together are the queue; live slots and map keys are the same repeat-free set within capacity |
| `TunnelFlood.Detector.Evaluate` | pkg/detect/gtpu_flood.go:129-162 | Only a tunneled packet at or above the threshold claims; anything else changes nothing |
| `TunnelFlood.EarlyRefireExact` | pkg/detect/gtpu_flood.go:166-185 | A tunnel fires within its cooldown if and only if the last `capacity` admissions, all distinct, do not include it |
| `TunnelFlood.FiresExact` | pkg/detect/gtpu_flood.go:166-185 | A claim fires if and only if its tunnel never fired, or not within the cooldown, or has been pushed out by as many admissions as the table holds |
| `TunnelFlood.FloodFiresExact` | pkg/detect/gtpu_flood.go:129-185 | Over any packets of at most the tracked number of tunnels, one fires if and only if the rule is on, the packet has a TEID and a rate at the threshold, and every earlier firing of its tunnel is at least the cooldown before |
| `TunnelFlood.EnoughCapacity` | pkg/detect/gtpu_flood.go:166-185 | With at most `capacity` tunnels the detector equals an unbounded cooldown table: same firings, same times |
| `SourceFlood.Detector.constructor` | pkg/detect/gtpu_source_flood.go:137-158 | The defaults, and no sources |
| `SourceFlood.Detector.AdmitSource` | pkg/detect/gtpu_source_flood.go:233-242 | The oldest source makes room for a new one |
| `SourceFlood.Detector.ObservePacket` | pkg/detect/gtpu_source_flood.go:229-270 | Windows, ring, counts and emission after one packet equal `Observe` and `Output`; the ring stays consistent |
| `SourceFlood.Detector.Evaluate` | pkg/detect/gtpu_source_flood.go:182-216 | Only tunneled packets with a source are counted, and only while a threshold is set |
| `SourceFlood.SourcesIndependent` | pkg/detect/gtpu_source_flood.go:229-270 | With at most MaxTrackedSources sources, each packet's counts and emission are those of a second detector fed only its source's packets |
| `SourceFlood.CountsExact` | pkg/detect/gtpu_source_flood.go:244-261 | The packet count is the window's packets, the distinct count its TEIDs capped at MaxTunnelsPerSource |
| `SourceFlood.CardinalityExact` | pkg/detect/gtpu_source_flood.go:219-224 | The cardinality rule fires if and only if its threshold is within the cap and that many TEIDs were seen |
| `SourceFlood.EmissionsSpaced` | pkg/detect/gtpu_source_flood.go:244-270 | Two emissions for one source are at least the cooldown apart, across window resets and whatever the packet times do |
| `SourceFlood.EmissionExact` | pkg/detect/gtpu_source_flood.go:219-270 | A packet emits if and only if its window reaches a set threshold with it, by packets or by distinct TEIDs within the cap, and every earlier emission is at least the cooldown before; the observation has exactly those counts |
| `SourceFlood.DetectorEmitsExact` | pkg/detect/gtpu_source_flood.go:182-270 | The same for the whole detector, amid any other sources that fit |
| `PodIPIndex.Index.Put` | pkg/controller/pod_ip_index.go:52-78 | Both maps after a Put: empty addresses ignored, the old address given up only if still owned |
| `PodIPIndex.Index.Lookup` | pkg/controller/pod_ip_index.go:81-86 | The owner in the forward map, if any |
| `PodIPIndex.Index.Remove` | pkg/controller/pod_ip_index.go:98-111 | Both maps after a Remove |
| `PodIPIndex.IndexAgreesWithHistory` | pkg/controller/pod_ip_index.go:52-111 | After any operations an address looks up to a Pod if and only if the last Put on it was by that Pod, since neither put elsewhere nor removed; the reverse map likewise |
| `PodIPIndex.OneAddressPerPod` | pkg/controller/pod_ip_index.go:52-111 | No Pod owns two addresses |
| `PodIPIndex.LateEventKeepsOwner` | pkg/controller/pod_ip_index.go:88-111 | A late event about another Pod never evicts an owner |
| `Publisher.Flush` | pkg/ingestion/publisher.go:209-222 | An empty batch sends nothing, a batch on a connected bus becomes one message, on an unconnected one it is lost |
| `Publisher.Accept` | pkg/ingestion/publisher.go:113-144 | An accepted event is sent or buffered in order, never lost |
| `Connector.Bus.Run` | pkg/events/connector.go:46-75 | The bus becomes connected exactly when some attempt succeeds, the channel is closed at most once, and each wait is twice the one before, from one second up to thirty |
| `Connector.BackoffIsPower` | pkg/events/connector.go:46-75 | The waits are 1, 2, 4, 8 and 16 seconds, and then 30 each |
| `Connector.Interleaved` | pkg/events/connector.go:77-98 | What the bus answers over any interleaving of attempts and questions |
| `Connector.RepliesExact` | pkg/events/connector.go:77-98 | Who asks is told that the bus is connected if and only if an attempt has succeeded before |
| `Connector.RepliesNeverRevert` | pkg/events/connector.go:77-98 | Whoever asks, in any interleaving with the attempts, is never told unconnected after connected |
| `Publisher.Start` | pkg/ingestion/publisher.go:89-152 | Over every run, the messages are exactly these: what is accepted between two ticks cut into full batches, the rest sent at the tick or the end. They hold every accepted event in order but for a buffer of fewer than a batch, which is empty after a tick and at the end; nothing is lost |

## Left out

- NATS, the Kubernetes client, Hubble, Falco and pinning: only their outcomes appear, as step inputs.
- The autoencoder, training and calibration: floating point over external libraries.
- Mesh quarantine: only as a point where a call may fail; the mesh's own state is not modelled.
- Policy selector matching and the Pod lookup in `handle`: any score may reach any indexed policy.
- Status conditions: only as an additional status write that may conflict or fail.
- Whole-second truncation of persisted times: mitigation times keep full precision.
- Other finalizers on a policy: an object being deleted goes away with this operator's finalizer.
- LRU eviction, races between CPUs on one map entry and ring-buffer overflow: packets are sequential, no observation map is full, and events are those submitted.
- The separate `*_v6` functions of the filter: mirrors with another key type, covered by addresses of both families.
- Record decoding in the loader (`decodeSignalingEvent`) and feature normalization: no hard property.
- The order in which `Sync` walks keys and maps are iterated: every order is allowed, so which entry a full map refuses is not determined.
- WriteAheadAlways: calls do not overlap; OverlapExact says what happens when they do.
- OverlapExact: one score and one reconciliation in flight at a time, as one subscriber and one reconcile worker allow.
- ReadUdpPackets: of each packet only source, TEID and time; Ethernet captures already split into records and not truncated; the raw and cooked link types have no kernel counterpart.
- Series: times are exact integers of nanoseconds, while the script compares rounded float seconds of a capture that may have microseconds only, so at the very edge of a window its count can differ from the one proved here.
- KernelMatchesScript: for the same exact times; at a window's edge rounding can part the two.
- TwoPassSafety: the lists are no older than the previous pass's reads; StaleListsRevert shows the need and DropExact does without.
- SourcesIndependent: at most MaxTrackedSources sources; with more, which source is forgotten follows the queue of RingAdmits.
- EmissionExact: fewer than 2^32 packets of one source.
- DetectorEmitsExact: at most MaxTrackedSources sources, as for SourcesIndependent.
- FloodFiresExact: at most MaxTrackedTunnels tunnels; FiresExact says what a full table changes.
- ScoreOutcome: the observed score keeps full precision, while the source prints four decimals.
- CounterIsReported: fewer than 2^32 packets of one key and a clock that does not wrap.
- Start: a publish error is not modelled, since the source logs it and goes on; the inline detectors have their own modules.
