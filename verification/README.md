# Verified model of the detection pipeline's state machines

A Dafny model of the parts of the pipeline whose correctness depends on order, failure and time, with
proofs over every input and every run. Run `dafny verify dfyconfig.toml` here to check it.

The objects that the program updates in place are classes whose methods walk the same maps, buffers and
arrays in the same order. Each method is proved equal to a function of the old value, and what the program
promises is then proved about that function over whole runs, usually against a second, independent
description (a fold, a partition, a batch parse, a multiset).

- **Finality** (`Finality`, `FinalityStep`, `FinalityRuns`, `FinalityUpdates`, `FinalityConfirmation`,
  `FinalityStore`, `FinalityService`, `FinalityIdle`, `FinalityRestart`). A tracker
  per chain keeps live blocks, a lifecycle state per event key and a head. An event may conflict with a known
  block hash, which rolls blocks back and retracts their keys; then it is recorded, and the finalized prefix
  is swept. The service feeds what the trackers report into one in-memory engine. Proved: the exact effect of
  each step on each key, every field and the order of the updates, the legal lifecycles, the invariants of every reachable tracker, when a key is
  confirmed, that the engine mirrors the trackers, when a saved tracker comes back as itself, and what a
  restart loses.
- **Server-sent events** (`HttpSse`). A byte buffer and pending data lines fed by arbitrary chunks. Proved
  equal to a batch parse that never mentions chunks, and inverse to writing events.
- **Control loops**. Worker reconciliation (`StreamSupervisor`), block windows, provider failover and log
  de-duplication (`EvmAdapter`), the circuit breaker (`CircuitBreaker`), keyset-paginated history sync with
  faults at any statement (`HistoryWorker`), alert dispatch accounting and the alert-context cache
  (`Orchestrator`), duplicate-quote suppression and the market median (`StreamWorker`).

`Common` holds the ordered enumeration of block numbers, first positions and trimming.

Conditions that a promise turned out to need are part of the results:

- Block 0 can be confirmed at once, because the finalized height saturates at 0; depth is claimed above it.
- The persisted depth goes through a 32-bit column and the head through a 64-bit signed one. The row takes
  the depth configured at save time. A reload is faithful if and only if the head fits and that depth comes back
  as the tracker's own (`ReloadedAnswersAlikeExactly`; `OversizedDepthIsLost` is a failing input).
- A provisional key can still be confirmed without being seen again if and only if a live block within reach of
  the sweep holds it (`ConfirmableExactly`), and it is confirmed for certain once the head is deep enough above a
  block that no later conflict or notice touches (`SparedKeyIsConfirmed`). The service reads back its own notices,
  and each of them drops the live blocks from the orphaned number on. So an event under a new key that causes a
  reorganisation is in no live block once its notice has been read back, and only seeing the key again can get it
  confirmed (`OwnNoticeStrandsNewKey`).
- For disjoint keys and trackers that start fresh the engine is the union of the trackers (`EngineIsUnion`). With
  restored trackers it is so if and only if every key with a state was touched since the start
  (`EngineIsUnionExactly`, per key `AgreeExactly`; after a restart `RestartedEngineAgreesExactly`). A foreign notice keeps engine and
  owner in agreement on a key if and only if it does not list the key or the owner has it retracted already
  (`ForeignNoticeKeepsAgreementExactly`; `SharedKeyBreaksTheMirror` is a failing run), and a foreign event if and only if it
  leaves the key alone or moves it to the owner's state (`ForeignEventKeepsAgreementExactly`). Keys made from
  logs begin with the chain's slug (crates/ingestion/src/normalize.rs:43), so a break takes another producer of events
  or notices; key formats are not modelled.
- With consumer groups, entries are acknowledged as they are handled but trackers are saved only now and then. With
  head and depth in range, the first event after a restart finds the last save. The lifecycle states are those from
  before the crash if and only if nothing was published since the save; if nothing was rolled back either, the whole
  tracker is if and only if every entry since was idle, which can be read off each entry (`RestartLosesExactly`,
  `StepIsIdleExactly`). If the first entry after a restart is a notice, the stored row is not loaded and the next
  save overwrites it (`NoticeFirstForgetsTheRow`).
- The configuration describes `failure_window` as the window for counting failures, but the code never consults
  it. Every opening from closed meets the documented window if and only if a single failure is enough to open
  (`WindowAlwaysMetExactly`; `SlowFailuresOpen` is the failing run), and one such opening meets it if and only if every
  failure in the row lies in it (`WindowMetExactly`). The model follows the code.
- A second reconcile pass is quiet if and only if no stream id comes with two hashes (`SecondPassIsQuietExactly`).
  Stream ids are a primary key (infra/sql/bootstrap/core_schema.sql:103), so it always is (`DistinctIdsSettle`).
- After any run, in which rows may appear anywhere, and then enough complete passes, a source row has an event if
  and only if it had one or lay after the saved position at the start (`RowIsVisitedExactly`): a row that becomes
  visible behind the position is never visited, and no other row is harmed.
- A payload that is not JSON ends the connection, so the worker handles the payloads before it and loses the rest of
  what was due (`RunHttpSseLoop`).
- Duplicate suppression looks only at the latest lifecycle record of a key
  (`InterleavedRepeatIsNotSuppressed`).
- The event parser strips all leading whitespace of a data value, the standard one space
  (`TrimMatchesStandardExactly`).

Block numbers, depths and sizes are 64-bit with the program's saturating arithmetic written out. Hash maps are
visited in an arbitrary order. Finite prices are reals.

## Model

| member | source | states |
|---|---|---|
| `Finality.ChainFinalityTracker.ObserveEvent` | crates/state-manager/src/finality.rs:80-179 | the step-by-step update of blocks, head and states ends in exactly the tracker value and batch of `Observe`, for every event, including one of another chain |
| `Finality.ChainFinalityTracker.ResolveConflict` | crates/state-manager/src/finality.rs:88-120 | roll-back, notice and retractions happen exactly on a hash conflict; states become the fold of the updates reported |
| `Finality.ChainFinalityTracker.RecordEvent` | crates/state-manager/src/finality.rs:122-149 | the event joins its block once, the first known hash is kept, the head rises to it, an unseen key becomes provisional |
| `Finality.ChainFinalityTracker.ConfirmUpTo` | crates/state-manager/src/finality.rs:156-176 | the ordered loop with its early stop confirms what a full sweep of all blocks at or below the height would, in the same order |
| `Finality.ChainFinalityTracker.ConfirmBlock` | crates/state-manager/src/finality.rs:162-175 | a key of the block is confirmed exactly when it is provisional at that moment; updates follow key order |
| `Finality.ChainFinalityTracker.RetractAll` | crates/state-manager/src/finality.rs:103-118 | every listed key ends retracted and is reported once, unless it was retracted before |
| `Finality.ChainFinalityTracker.RollbackFromBlock` | crates/state-manager/src/finality.rs:233-236 | only the blocks below the number stay, and the head is the largest of them or 0 |
| `Finality.ChainFinalityTracker.ApplyReorgNotice` | crates/state-manager/src/finality.rs:181-208 | value and updates are exactly those of `ApplyNotice`; a notice of another chain does nothing |
| `Finality.ChainFinalityTracker.Restore` | crates/state-manager/src/finality.rs:611-624 | a restored tracker takes its four parts as they are, without clamping the depth |
| `Finality.InMemoryFinalityEngine.ApplyUpdate` | crates/state-manager/src/finality.rs:32-37 | one key is overwritten, nothing else changes |
| `Finality.InMemoryFinalityEngine.HandleReorgNotice` | crates/state-manager/src/finality.rs:39-46 | the loop over the listed keys retracts all of them and nothing else |
| `Finality.PrefixUpTo` | crates/state-manager/src/finality.rs:157-160 | stopping at the first block above the height visits exactly the blocks at or below it |
| `FinalityStep.AffectedExactly` | crates/state-manager/src/finality.rs:226-231 | the collected keys are exactly those recorded in a live block at or above the orphaned number |
| `FinalityStep.SweepMentions` | crates/state-manager/src/finality.rs:157-163 | the sweep considers a key exactly when some live block at or below the height holds it |
| `FinalityStep.ObserveExactly` | crates/state-manager/src/finality.rs:80-179 | for every key: its new state, and its updates in order, described by where the key lives rather than by the loops |
| `FinalityStep.ApplyNoticeExactly` | crates/state-manager/src/finality.rs:181-208 | for every key: listed keys end retracted with one update if they were not, all others keep their state and get none |
| `FinalityStep.ConfirmedFromFinalizedBlock` | crates/state-manager/src/finality.rs:151-176 | a confirmation comes from a live block that holds the key, carries its hash, and lies the effective depth below the head unless it is block 0 |
| `FinalityStep.NothingFinalizedStaysProvisional` | crates/state-manager/src/finality.rs:156-176 | after an event no key in a live block at or below the saturated height is provisional |
| `FinalityUpdates.RetractedUpdatesExactly` | crates/state-manager/src/finality.rs:88-119 | an update of an event retracts if and only if it carries the event's chain, block number and hash, that block was live with another hash, and its key is live at or above it and not retracted yet |
| `FinalityUpdates.ProvisionalUpdatesExactly` | crates/state-manager/src/finality.rs:138-149 | an update of an event is provisional if and only if it carries the event's chain, key, block number and hash, and the key had no state and is not taken back |
| `FinalityUpdates.ConfirmedUpdatesExactly` | crates/state-manager/src/finality.rs:151-176 | an update of an event confirms if and only if its key is provisional when the sweep begins and it names the lowest live block holding the key, with that block's hash, and that block is final for the new head and the event's depth |
| `FinalityUpdates.NoticeUpdatesExactly` | crates/state-manager/src/finality.rs:186-207 | an update is emitted for a notice if and only if it retracts a listed key that is not retracted, with the orphaned number and no hash |
| `FinalityUpdates.UpdatesInOrder` | crates/state-manager/src/finality.rs:103-176 | updates come as retractions in the order of the notice, then the new event, then confirmations by block number and within a block in the order of recording |
| `FinalityUpdates.AffectedInOrder` | crates/state-manager/src/finality.rs:226-231 | a notice lists its keys block after block upwards, each block's keys in the order of recording |
| `FinalityUpdates.BlocksAfterExactly` | crates/state-manager/src/finality.rs:122-134 | the live blocks after an event, block by block: what stays, the first hash given, and the keys in the order of recording |
| `FinalityUpdates.NoticeRaisedExactly` | crates/state-manager/src/finality.rs:210-224 | over every run of a fresh tracker: an event raises a notice if and only if an event recorded in its block since the block was last created carried another hash |
| `FinalityUpdates.NeverConfirmsAtHead` | crates/state-manager/src/finality.rs:70-78 | over every run of a fresh tracker, also one configured with depth 0: no block above 0 is confirmed before a higher one has been seen |
| `FinalityRuns.LogReproducesStates` | crates/state-manager/src/finality.rs:80-208 | over every run, from any tracker, the states are the fold of the emitted updates and every update passed the lifecycle test against the fold before it |
| `FinalityRuns.LifecycleOfEveryKey` | crates/state-manager/src/finality.rs:103-207 | over every run of a fresh tracker a key's updates spell a prefix of Provisional-Confirmed-Retracted, or Provisional-Retracted, or Retracted alone, and the last one is its state |
| `FinalityRuns.FirstRetractionFromNotice` | crates/state-manager/src/finality.rs:181-207 | a retraction that comes first was caused by a notice of this chain listing a key with no state at that time |
| `FinalityRuns.AtMostThreeUpdatesPerKey` | crates/state-manager/src/finality.rs:80-208 | no run emits more than three updates per distinct key |
| `FinalityRuns.RetractedIsAbsorbing` | crates/state-manager/src/finality.rs:103-118 | once retracted, a key stays retracted over every later run and nothing is emitted for it |
| `FinalityRuns.ReachableIsValid` | crates/state-manager/src/finality.rs:122-149 | in every reachable tracker the head is the largest live number (0 if none), every live block has keys without repeats, and every live key has a state |
| `FinalityRuns.StepKeepsValid` | crates/state-manager/src/finality.rs:80-237 | each event and each notice preserves that invariant from any tracker that has it |
| `FinalityRuns.LiveBlocksTellHistory` | crates/state-manager/src/finality.rs:122-134 | over every run a live block holds exactly the keys recorded in it since it was last created, and all hash-carrying events among them carry its hash |
| `FinalityRuns.ConflictRetractsExactly` | crates/state-manager/src/finality.rs:88-134 | on a conflict the notice lists exactly the keys at or above the block, all end retracted, no other key is retracted, and the live blocks become those below plus the new block with only the new event |
| `FinalityRuns.NoConflictNoRetraction` | crates/state-manager/src/finality.rs:210-224 | without a conflict there is no notice, no retraction, and every other live block is unchanged |
| `FinalityRuns.OwnNoticeIsSilent` | crates/state-manager/src/finality.rs:181-208 | a tracker that reads back its own notice at any later time emits nothing and keeps all states, but loses the live blocks from the orphaned number on |
| `FinalityRuns.AppliedNoticeIsSilent` | crates/state-manager/src/finality.rs:181-208 | applying any notice a second time, with any run in between, emits nothing and keeps all states |
| `FinalityConfirmation.ConfirmedInRunExactly` | crates/state-manager/src/finality.rs:156-176 | over every run from any tracker, a key is confirmed if and only if some event of the run sweeps a live block of the key while the key is provisional |
| `FinalityConfirmation.ConfirmableExactly` | crates/state-manager/src/finality.rs:151-176 | a provisional key can be confirmed by some run that does not see it again if and only if a live block within reach of the sweep holds it |
| `FinalityConfirmation.StrandedIsNeverConfirmed` | crates/state-manager/src/finality.rs:156-176 | a key in no such block is not confirmed by any run that does not see it again, and stays in none |
| `FinalityConfirmation.SparedKeyIsConfirmed` | crates/state-manager/src/finality.rs:151-176 | over every run that neither rolls back past the block nor retracts the key, the key is confirmed once an event raises the head to its depth above the block |
| `FinalityConfirmation.NoticeStrandsExactly` | crates/state-manager/src/finality.rs:181-208 | a notice leaves a provisional key in no live block if and only if it does not list it and every block that holds the key is numbered at or above the orphaned one |
| `FinalityConfirmation.NewKeyAfterConflict` | crates/state-manager/src/finality.rs:122-176 | right after a conflict under a new key only the event's block holds the key, provisional unless the block is 0 or the depth is 0 |
| `FinalityConfirmation.OwnNoticeStrandsNewKey` | apps/finality/src/main.rs:160-212 | for every such conflict: whenever the tracker reads its notice back, the key keeps its state, is in no live block, and no run that does not see it again confirms it |
| `FinalityStore.DecimalReadsBack` | crates/state-manager/src/finality.rs:55-67 | the decimal text of every number reads back as that number |
| `FinalityStore.DecimalIsCanonical` | crates/state-manager/src/finality.rs:55-67 | only one text reads as a given number, so two keys never merge on loading |
| `FinalityStore.DecimalIsBaseTen` | crates/state-manager/src/finality.rs:55-67 | block-number keys are written in base ten, highest digit first |
| `FinalityStore.BlocksReadBack` | crates/state-manager/src/finality.rs:600-624 | the block map survives its JSON form with string keys unchanged |
| `FinalityStore.ReloadExactly` | apps/finality/src/main.rs:349-396 | for any depth configured at save time a saved row loads with blocks and states intact; it gives the same tracker if and only if the head is below 2^63 and the saved depth comes back as the tracker's |
| `FinalityStore.ReloadedAnswersAlikeExactly` | apps/finality/src/main.rs:349-396 | for any depth configured at save time, a reloaded valid tracker answers every later sequence of events and notices like the original if and only if the head is below 2^63 and the saved depth comes back as the tracker's |
| `FinalityStore.DepthRoundTripsExactly` | apps/finality/src/main.rs:360-384 | the casts to i32 and back to u64 return the depth exactly for the values below 2^31 and the topmost 2^31 |
| `FinalityStore.SavesExactly` | apps/finality/src/main.rs:373-396 | the saved columns: the head or 0 if it exceeds i64, the configured depth modulo 2^32 as a signed number, the states, and every live block under its decimal number and nothing else |
| `FinalityStore.LoadsExactly` | apps/finality/src/main.rs:349-371 | a row loads if and only if its head is a u64 and its block keys are decimal u64 numbers |
| `FinalityStore.LoadedPartsExactly` | crates/state-manager/src/finality.rs:611-624 | a loaded tracker has the row's head, states and blocks, and the depth column sign-extended to u64 |
| `FinalityStore.OversizedDepthIsLost` | apps/finality/src/main.rs:384 | a depth of 2^32 reloads as 0, and the reloaded tracker confirms at once what the original keeps provisional |
| `FinalityService.Service.HandleEvent` | apps/finality/src/main.rs:119-183 | one event entry, on the service's own objects, has the outcome of `Handle`: tracker created or restored if missing, engine told of the notice first and the updates after it |
| `FinalityService.Service.HandleNotice` | apps/finality/src/main.rs:199-217 | one notice entry has the outcome of `Handle`; a missing tracker is created fresh even when a row is stored |
| `FinalityService.Service.EnsureTracker` | apps/finality/src/main.rs:119-158 | an existing tracker is reused, otherwise the row is loaded and a missing or unreadable row gives a fresh tracker |
| `FinalityService.DefaultDepthExactly` | apps/finality/src/main.rs:313-335 | the depth of a chain is its environment value, at least 1, and without one 64 for Base, 1 off chain and 3 elsewhere |
| `FinalityService.FirstTrackerExactly` | apps/finality/src/main.rs:119-154 | a chain seen for the first time starts empty at its configured depth, unless an event finds a row that loads |
| `FinalityService.SingleChainIsTrackerRun` | apps/finality/src/main.rs:114-217 | with one chain started fresh, the service's tracker is the run of a tracker over the same inputs and what is published is exactly its log, in order |
| `FinalityService.EventMirrors` | apps/finality/src/main.rs:160-176 | for each key one event step either touches it and leaves engine and tracker with the same state, or leaves it alone in both |
| `FinalityService.NoticeMirrors` | apps/finality/src/main.rs:205-212 | the same for one notice step |
| `FinalityService.EngineMirrorsTracker` | apps/finality/src/main.rs:114-217 | over every run, for a key mentioned by one chain only: the engine agrees with that chain's tracker wherever it holds the key, and agrees fully, with the published updates too, when the tracker was not restored |
| `FinalityService.SingleChainMapsAreEqual` | apps/finality/src/main.rs:114-217 | with one chain started fresh the engine, the tracker's states and the fold of everything published are the same map after every run |
| `FinalityService.EngineIsUnion` | apps/finality/src/main.rs:114-217 | with several chains, disjoint keys and no tracker restored from a row, the engine is the union of the trackers' states |
| `FinalityService.EngineHoldsExactly` | apps/finality/src/main.rs:156-212 | over every run, restored trackers included, the engine holds a key if and only if some entry published an update for it or listed it in a notice |
| `FinalityService.AgreeExactly` | apps/finality/src/main.rs:114-217 | over every run, restored trackers included: on a key that one chain mentions, engine and tracker agree if and only if the key was touched or the tracker has no state for it |
| `FinalityService.EngineIsUnionExactly` | apps/finality/src/main.rs:114-217 | with disjoint keys the engine is the union if and only if every key with a state was touched |
| `FinalityService.SharedKeyBreaksTheMirror` | apps/finality/src/main.rs:199-212 | the smallest run in which a foreign notice breaks the agreement; which entries do is stated exactly by the two rows below |
| `FinalityService.ForeignNoticeKeepsAgreementExactly` | apps/finality/src/main.rs:199-212 | a notice of another chain keeps engine and owner in agreement on a key if and only if it does not list the key or the owner has it retracted |
| `FinalityService.ForeignEventKeepsAgreementExactly` | apps/finality/src/main.rs:156-176 | an event of another chain keeps it if and only if that chain's tracker leaves the key alone or moves it to the state the owner has |
| `FinalityService.OwnEntryKeepsAgreement` | apps/finality/src/main.rs:156-212 | an entry of the owning chain always keeps it |
| `FinalityRestart.RestartLosesExactly` | apps/finality/src/main.rs:219-255 | for any reachable service, any save and anything delivered after it: a restart finds the tracker as saved; its states are the lost ones if and only if the deliveries published nothing; the tracker is the lost one if all of them were idle and, when none rolled back, only then |
| `FinalityRestart.ServiceTrackersAreValid` | apps/finality/src/main.rs:119-255 | over every run of deliveries, saves and restarts with block numbers below 2^63, all trackers and all saved rows are valid |
| `FinalityRestart.RestartedEngineAgreesExactly` | apps/finality/src/main.rs:71-72 | at any time after a restart, on a key that one chain mentions since: engine and tracker agree if and only if the key was touched since or the tracker has no state for it |
| `FinalityRestart.RestartedRunContinues` | apps/finality/src/main.rs:119-160 | after a restart the chain runs on from the saved tracker as if nothing since the save had been delivered |
| `FinalityRestart.NoticeFirstForgetsTheRow` | apps/finality/src/main.rs:199-212 | if a notice comes first, the next save leaves in the row only the keys that the notice lists |
| `FinalityIdle.StatesStayExactlyWhenSilent` | crates/state-manager/src/finality.rs:80-208 | a run leaves all states as they were if and only if it emits nothing |
| `FinalityIdle.StepIsIdleExactly` | crates/state-manager/src/finality.rs:80-208 | an input leaves a valid tracker as it is if and only if it is of another chain, or an event without conflict, new key, missing hash or anything to confirm, or a notice with no live block to drop and no listed key to retract |
| `FinalityIdle.UnchangedRunIsIdle` | crates/state-manager/src/finality.rs:80-208 | a run that rolls nothing back and ends at the tracker it began with consists of idle inputs |
| `HttpSse.HttpSseConnector.NextPayload` | apps/indexer/src/stream_connector/http_sse.rs:45-66 | one call removes exactly the first outcome due; end of stream, read failure and missing connection are reported only when none is due |
| `HttpSse.HttpSseConnector.TryParseBufferedEvent` | apps/indexer/src/stream_connector/http_sse.rs:68-89 | what it returns is the first outcome due, or no complete line is left and what is due is unchanged |
| `HttpSse.HttpSseConnector.HandleLine` | apps/indexer/src/stream_connector/http_sse.rs:70-87 | one line completes an event, is kept as data or is ignored, and what stays due afterwards is as the line rules say |
| `HttpSse.HttpSseConnector.NextLine` | apps/indexer/src/stream_connector/http_sse.rs:91-96 | exactly the bytes before the first LF leave the buffer with that LF; without an LF nothing changes |
| `HttpSse.HttpSseConnector.Connect` | apps/indexer/src/stream_connector/http_sse.rs:27-43 | a new connection forgets buffer and pending data, so what is due is the batch parse of its bytes; a failed one changes nothing |
| `HttpSse.ReadAll` | apps/indexer/src/stream_connector/http_sse.rs:27-96 | for any chunking and any time-outs the calls return exactly the batch parse of all bytes, then the end |
| `HttpSse.Drain` | apps/indexer/src/stream_connector/http_sse.rs:45-66 | repeated calls, also past payloads that are not JSON, return everything due, in order, before the stop |
| `HttpSse.RunHttpSseLoop` | apps/indexer/src/stream_worker.rs:859-903 | one connection of the worker handles exactly the payloads of the batch parse before the first that is not JSON, and stops there or at the end of the stream |
| `HttpSse.LineByLineIsBatch` | apps/indexer/src/stream_connector/http_sse.rs:68-89 | the state machine over lines equals the definition by blank-terminated blocks |
| `HttpSse.BatchGrows` | apps/indexer/src/stream_connector/http_sse.rs:91-96 | more bytes only add outcomes, and bytes of an unfinished last line add none |
| `HttpSse.LinesConcat` | apps/indexer/src/stream_connector/http_sse.rs:91-96 | the lines of a concatenation are the lines of the first part and those of its unfinished rest followed by the second |
| `HttpSse.WrittenEventsReadBack` | apps/indexer/src/stream_connector/http_sse.rs:68-96 | any list of events written as `data:` lines, with or without a space after the colon, among comments and other fields and with LF or CR LF line ends, is decoded to the same list (section 9.2.6 of the WHATWG HTML Standard) |
| `HttpSse.DataLineExactly` | apps/indexer/src/stream_connector/http_sse.rs:84-86 | a line that is `data:`, whitespace and a text, with any number of CRs after it, is data with that text |
| `HttpSse.OtherLineExactly` | apps/indexer/src/stream_connector/http_sse.rs:81-86 | any other line that is not just CRs is ignored |
| `HttpSse.BlankLineExactly` | apps/indexer/src/stream_connector/http_sse.rs:70-71 | a line of CRs alone is blank |
| `HttpSse.JoinSplits` | apps/indexer/src/stream_connector/http_sse.rs:75 | the joined data lines come apart at their newlines into the same lines in the same order |
| `HttpSse.ResponseInParts` | apps/indexer/src/stream_connector/http_sse.rs:55-64 | a response delivers the chunks of its polls in order, time-outs deliver nothing, and nothing comes after a failure |
| `HttpSse.ItemsReadBack` | apps/indexer/src/stream_connector/http_sse.rs:68-89 | the same for one event, whatever data is already pending and whatever follows |
| `HttpSse.TrimMatchesStandardExactly` | apps/indexer/src/stream_connector/http_sse.rs:84-86 | stripping all leading whitespace gives the standard's field value if and only if that value does not start with whitespace itself |
| `CircuitBreaker.CircuitBreaker.CanAttempt` | crates/common/src/circuit_breaker.rs:118-137 | a call is rejected exactly while open and before the timeout; the new state is that of `Step` |
| `CircuitBreaker.CircuitBreaker.OnSuccess` | crates/common/src/circuit_breaker.rs:140-157 | the new state is that of `Step` for a success report in each phase |
| `CircuitBreaker.CircuitBreaker.OnFailure` | crates/common/src/circuit_breaker.rs:160-178 | the new state is that of `Step` for a failure report in each phase |
| `CircuitBreaker.CountsTellTheTrace` | crates/common/src/circuit_breaker.rs:140-212 | over every interleaving of callers: closed means the count is the current run of failures, below the threshold; half-open means only successes, fewer than the threshold, since entry |
| `CircuitBreaker.OpensExactly` | crates/common/src/circuit_breaker.rs:160-178 | the breaker opens if and only if a failure report completes the run of failures while closed or arrives while half-open |
| `CircuitBreaker.ClosesExactly` | crates/common/src/circuit_breaker.rs:140-149 | it closes if and only if a success report completes the threshold since it became half-open |
| `CircuitBreaker.OpenHoldsUntilTimeout` | crates/common/src/circuit_breaker.rs:123-132 | once open nothing is admitted and nothing moves it before the timeout, whatever late reports arrive |
| `CircuitBreaker.TraceTellsPhase` | crates/common/src/circuit_breaker.rs:180-212 | every change of phase is in the trace: its last transition names the current phase |
| `CircuitBreaker.TraceTellsTimes` | crates/common/src/circuit_breaker.rs:140-212 | over every run the stored transition time is that of the last transition in the trace, or the start time, and the stored failure time that of the last failure not followed by a success while closed |
| `CircuitBreaker.RejectedExactly` | crates/common/src/circuit_breaker.rs:118-137 | over every run a check is rejected if and only if the last transition in the trace is an opening less than the timeout ago |
| `CircuitBreaker.FailureWindowIsIgnored` | crates/common/src/circuit_breaker.rs:25-26 | no run depends on the configured failure window |
| `CircuitBreaker.WindowAlwaysMetExactly` | crates/common/src/circuit_breaker.rs:23-26 | every opening from closed has at least the threshold of failures in a row within the failure window that ends with it, over all runs, if and only if the threshold is at most 1 |
| `CircuitBreaker.WindowMetExactly` | crates/common/src/circuit_breaker.rs:165-171 | one opening from closed meets the window if and only if every failure in the row lies in it |
| `CircuitBreaker.SlowFailuresOpen` | crates/common/src/circuit_breaker.rs:165-171 | for every threshold of at least 2: failures at time 0 and one just after the window open the breaker |
| `EvmAdapter.EvmChainAdapter.FetchLogsInRange` | crates/ingestion/src/adapter.rs:264-295 | for every pair of u64 bounds: all requests of all windows in order, stop at the first that every provider refuses; the result is what they return without repeats, compared by log fields |
| `EvmAdapter.EvmChainAdapter.FetchWindows` | crates/ingestion/src/adapter.rs:270-290 | the loop with saturating additions visits exactly the windows of the range and ends, also at u64::MAX |
| `EvmAdapter.EvmChainAdapter.FetchWindow` | crates/ingestion/src/adapter.rs:297-351 | the filters of one window are sent in order until one is refused by all providers |
| `EvmAdapter.EvmChainAdapter.FetchLogsWithFailover` | crates/ingestion/src/adapter.rs:489-577 | the first provider in cyclic order that answers serves the request and becomes active; those before it, or all, are marked failed |
| `EvmAdapter.WindowsPartition` | crates/ingestion/src/adapter.rs:270-290 | the windows cut the range into consecutive pieces without gap or overlap, none longer than the chunk size, as many as the rounded-up quotient |
| `EvmAdapter.BlockLiesInOneWindow` | crates/ingestion/src/adapter.rs:270-290 | block b lies in window number (b - from) / size and in no other |
| `EvmAdapter.ServedOrRefused` | crates/ingestion/src/adapter.rs:491-518 | either every provider refuses or exactly one provider is the serving one |
| `EvmAdapter.ServedExactly` | crates/ingestion/src/adapter.rs:489-577 | provider by provider in the order of trying: those that refuse are marked failed, the first that answers gives exactly its logs under its index, becomes active and is healthy, the others are not asked |
| `EvmAdapter.RefusedExactly` | crates/ingestion/src/adapter.rs:504-518 | if all refuse, all are marked failed and the active one stays |
| `EvmAdapter.RequestsOfOne` | crates/ingestion/src/adapter.rs:302-348 | the requests of one window are its filters in order |
| `EvmAdapter.FailsExactlyWhenRefused` | crates/ingestion/src/adapter.rs:277-283 | a fetch fails if and only if some request of the range is refused by every provider |
| `EvmAdapter.DedupeProviderLogs` | crates/ingestion/src/adapter.rs:684-709 | the result is the input, in order, without every log that agrees with an earlier one in transaction hash, log index, address and first topic |
| `EvmAdapter.DedupedExactly` | crates/ingestion/src/adapter.rs:684-709 | the result keeps, in order, exactly the logs whose key has not occurred before; no key occurs twice and none is lost |
| `StreamSupervisor.StreamSupervisor.Reconcile` | apps/indexer/src/stream_supervisor.rs:211-306 | a pass fails if and only if a needed target lookup fails; otherwise a stream has a worker if and only if some configuration asks for one by its own fields, with the hash of the last such configuration and its targets; the log stays exclusive either way |
| `StreamSupervisor.PassConverged` | apps/indexer/src/stream_supervisor.rs:221-252 | the same over the configurations: not live while live streams are disabled, not a test one on a deprecated endpoint, and a target if live, which for tenant scope is the owner |
| `StreamSupervisor.LookupFailsExactly` | apps/indexer/src/stream_supervisor.rs:517-531 | the lookup fails for a configuration if and only if it is not skipped first, is not of tenant scope and the database gives no list |
| `StreamSupervisor.PassKeepsNumbered` | apps/indexer/src/stream_supervisor.rs:264-289 | no two started workers have the same number, so keeping the number means keeping the worker |
| `StreamSupervisor.StreamSupervisor.DropStale` | apps/indexer/src/stream_supervisor.rs:292-303 | the workers that are not desired are stopped, each once, in some order |
| `StreamSupervisor.PassKeepsValid` | apps/indexer/src/stream_supervisor.rs:254-303 | at every moment, also when a pass ends early, a stream has at most one started-and-not-stopped worker, the tracked one |
| `StreamSupervisor.PassConverges` | apps/indexer/src/stream_supervisor.rs:211-306 | after a completed pass the tracked workers are exactly the desired streams, each with the hash of the last configuration naming it |
| `StreamSupervisor.UnchangedWorkerSurvives` | apps/indexer/src/stream_supervisor.rs:254-258 | a worker whose stream is still desired with the same hash is never restarted |
| `StreamSupervisor.SecondPassIsQuietExactly` | apps/indexer/src/stream_supervisor.rs:211-306 | a second pass on the same configurations starts and stops nothing if and only if no id is configured with two hashes |
| `StreamSupervisor.SettledExactly` | apps/indexer/src/stream_supervisor.rs:254-258 | after a pass every configuration is served with its hash if and only if no id is configured with two hashes |
| `StreamSupervisor.DistinctIdsSettle` | apps/indexer/src/stream_supervisor.rs:211-306 | with distinct stream ids a second pass starts and stops nothing |
| `HistoryWorker.Worker.SyncTable` | apps/history-worker/src/main.rs:1283-1405 | reads the page after the saved position, inserts its events until the fault, saves only after all rows; reports the row count exactly when nothing failed |
| `HistoryWorker.Worker.VisitRows` | apps/history-worker/src/main.rs:1311-1398 | events are inserted row by row and stay inserted when a later row fails |
| `HistoryWorker.Query` | apps/history-worker/src/main.rs:1287-1309 | a page exists for every table, position and limit: the first rows after the position in (created_at, id) order |
| `HistoryWorker.LessExactly` | apps/history-worker/src/main.rs:1299-1304 | ids are ordered by their first differing character, a proper prefix first |
| `HistoryWorker.StartOfEmptyStore` | apps/history-worker/src/main.rs:240-243 | without a saved position a pass starts before every row dated after the epoch, and at the epoch before every non-empty id |
| `HistoryWorker.RunsMissNothing` | apps/history-worker/src/main.rs:1407-1509 | if no row at or before the saved position lacks its event, no run without late rows changes that, wherever passes fail; and each event belongs to one row |
| `HistoryWorker.ZeroMeansCaughtUp` | apps/history-worker/src/main.rs:1283-1405 | a pass reads 0 rows if and only if no row lies after the saved position, and then the events are exactly one per row |
| `HistoryWorker.PassesCatchUp` | apps/history-worker/src/main.rs:1283-1405 | every complete pass takes a full batch off the backlog, whatever fails in between |
| `HistoryWorker.RowIsVisitedExactly` | apps/history-worker/src/main.rs:1283-1405 | whatever was missed before, after any run with rows appearing anywhere and then enough complete passes, a row has an event if and only if it had one or lay after the saved position |
| `HistoryWorker.PassedRowsHaveEvents` | apps/history-worker/src/main.rs:1311-1402 | over every run, with rows appearing anywhere, a row that the saved position has passed since has its event |
| `HistoryWorker.FirstSyncCopiesTable` | apps/history-worker/src/main.rs:240-243 | from an empty store, after any run without late rows and enough complete passes, the case events are exactly the rows of the table |
| `HistoryWorker.SavedPassConsumesPage` | apps/history-worker/src/main.rs:1400-1402 | a pass that saves its position removes exactly its page from the backlog |
| `HistoryWorker.OffsetAdvances` | apps/history-worker/src/main.rs:246-261 | the saved position never moves back |
| `HistoryWorker.LateRowIsNeverVisited` | apps/history-worker/src/main.rs:1299-1305 | a row at or before the saved position without an event gets none in any later run, with rows appearing anywhere |
| `Orchestrator.Dispatcher.DispatchAlert` | apps/orchestrator/src/main.rs:848-1022 | the new lifecycle and usage tables and the result are those of `Dispatch` |
| `Orchestrator.DispatchedExactly` | apps/orchestrator/src/main.rs:848-1022 | field by field what each outcome stores and returns: a fired alert as it came but for the tenant, one over quota as suppressed at the time of the check, nothing for a duplicate; and its one usage event |
| `Orchestrator.TenantExactly` | apps/orchestrator/src/main.rs:1273-1278 | the tenant is the text without surrounding whitespace; none and blank are missing |
| `Orchestrator.UsageAccountsForRun` | apps/orchestrator/src/main.rs:885-935 | over every run the usage table holds, per tenant and kind, exactly one event per dispatch that ended that way |
| `Orchestrator.SuppressedExactly` | apps/orchestrator/src/main.rs:1024-1071 | an alert is suppressed as a duplicate if and only if the last record of its key, found by position in the lifecycle table, matches it under another id and is not older than the window |
| `Orchestrator.FiredRepeatsAreSpaced` | apps/orchestrator/src/main.rs:1024-1071 | over every run, a fired alert that repeats the record just before it under its key was dispatched later than that record's creation time plus the window |
| `Orchestrator.InterleavedRepeatIsNotSuppressed` | crates/state-manager/src/persistence.rs:1732-1757 | only the latest record is compared: another state in between lets the same alert through inside the window |
| `Orchestrator.MonthlyQuotaHolds` | apps/orchestrator/src/main.rs:1159-1214 | over every run of one serial worker the quota-relevant alerts fired for a tenant in a month never exceed its non-negative limit |
| `Orchestrator.OverQuotaExactly` | apps/orchestrator/src/main.rs:910-948 | over every run, an alert is suppressed for quota if and only if it is no duplicate, the quota applies to it, and all alerts fired for the tenant this month, Critical ones included, reach a non-negative limit |
| `Orchestrator.CountIsMonth` | crates/state-manager/src/persistence.rs:1787-1806 | the count read from the usage table is exactly the number of alerts fired in the month so far |
| `Orchestrator.CountCoversMonth` | crates/state-manager/src/persistence.rs:1787-1806 | the count read from the usage table is at least the quota-relevant alerts fired in that month |
| `Orchestrator.AlertContexts.Prune` | apps/orchestrator/src/main.rs:408-431 | exactly min(fresh, limit) entries stay, unchanged and at or after the cutoff, and no evicted fresh entry is younger than a survivor |
| `Orchestrator.OldestFirst` | apps/orchestrator/src/main.rs:421-425 | the keys of the cache, each once, in some order of non-decreasing creation time |
| `Orchestrator.PruningWithinLimitIsUnique` | apps/orchestrator/src/main.rs:414-419 | when the fresh entries fit, exactly they remain |
| `StreamWorker.RecentQuotes.ShouldSkipDuplicateQuote` | apps/indexer/src/stream_worker.rs:986-1023 | the decision and the remembered quote are those of `SkipStep` |
| `StreamWorker.NoPriceChangeIsLost` | apps/indexer/src/stream_worker.rs:970-1023 | collapsing equal neighbours gives the same price list for the emitted quotes as for all, for any events and any time stamps |
| `StreamWorker.EqualPricesAreSpaced` | apps/indexer/src/stream_worker.rs:1007-1014 | two quotes emitted in a row with one price are a window apart, or the second is stamped earlier |
| `StreamWorker.SkippedExactly` | apps/indexer/src/stream_worker.rs:970-1023 | over every run, an event is skipped if and only if suppression is on for the configuration, it is a quote with a finite positive price, and the last such event emitted has its price and lies less than the window before it |
| `StreamWorker.WindowExactly` | apps/indexer/src/stream_worker.rs:970-984 | the window is the configured one if positive, off if 0, 250 ms for live Gemini market data without one, and capped at the largest i64 |
| `StreamWorker.ComputeMedian` | apps/indexer/src/stream_worker.rs:1904-1915 | sorts the array in place and returns the middle of its values; none for no values |
| `StreamWorker.MedianExactly` | apps/indexer/src/stream_worker.rs:1909-1914 | the median is the average of the two middle values, one and the same for an odd count |
| `StreamWorker.PricesExactly` | apps/indexer/src/stream_worker.rs:1925-1929 | the prices that count are exactly the finite positive ones |
| `StreamWorker.BuildMarketTruthSnapshot` | apps/indexer/src/stream_worker.rs:1917-1931 | the median is that of the valid prices listed in any order of the map's keys, though the code visits only one, and the count is the number of sources with a finite positive price |
| `StreamWorker.MedianIgnoresMapOrder` | apps/indexer/src/stream_worker.rs:1925-1931 | any two visiting orders of the map give the same median |
| `StreamWorker.MedianDependsOnValuesOnly` | apps/indexer/src/stream_worker.rs:1908-1914 | the median is a function of the multiset of values |
| `StreamWorker.MedianHalvesValues` | apps/indexer/src/stream_worker.rs:1909-1914 | at least half of the values are at or below the median and at least half at or above |
| `StreamWorker.MedianWithinBounds` | apps/indexer/src/stream_worker.rs:1909-1914 | the median lies between any bounds of the values |

## Left out

- Timestamps on finality updates and notices (`updated_at`, `noticed_at`): they take no part in any decision.
- Redis, Postgres, HTTP and RPC calls: their results are inputs. In the finality service they are taken to succeed, since a failed publish ends the process; a stored row is an input of the entry that first needs it.
- The finality service's save counter, consumer groups and acknowledgements: a save may come at any time, for any of the chains, and every delivered entry counts as acknowledged. Rows that fail to load are in `NewTracker`, failing reads of the table are not modelled. The configured depths are the same before and after a restart.
- The finality service without consumer groups (FINALITY_USE_CONSUMER_GROUP off): it acknowledges nothing, and a restart reads the streams again from FINALITY_NORMALIZED_START_ID and FINALITY_REORG_START_ID, by default from the beginning, on top of the stored rows.
- Lossy UTF-8 decoding and JSON decoding in the event parser: parameters of the model, with the round trip stated for lines on which decoding undoes encoding.
- WHATWG stream features that the parser does not have: lines ended by a lone CR, a `data` field without a colon, a byte-order mark, event names and ids.
- Interleavings inside one breaker method (relaxed atomics, separate lock writes): each method is one step of the model. Counters are unbounded, and the elapsed time is a difference of clock readings.
- `get_block_number_with_failover`, `seen_event_keys` and the decoding of logs into events: the first is the same loop as the log fetch without its results, the others only add lookups.
- Error texts and times in the provider status.
- The test-endpoint rule and the configuration hash of the supervisor: an input flag and a parameter. A worker task that ends by itself stays tracked, as in the program.
- The case rows and alert links that history sync writes beside the case events; only the inserted event decides which rows were handled.
- `sync_feature_registry`, whose filter compares ids as text while its order is numeric, and `sync_incidents`, whose rows are updated in place and move in the order.
- Database collation and negative batch sizes: ids compare code point by code point and the batch size is a natural number.
- Alert dispatch without a repository, failing repository calls, several workers at once, delivery by the notifier and the hourly channel escalation: none of them writes the two tables in the modelled case.
- Alert fields that no decision reads, such as routes and context entries.
- Floating-point rounding, `deviation_pct` and NaN ordering in the market median: prices are reals and the non-finite ones are filtered out first, as in the program.
- Rows of `alerts` are updated in place when an alert is saved again (crates/state-manager/src/persistence.rs:377-389): history sync is modelled for rows that do not change, so that an event equals its row.
- Errors while the worker processes a payload, and shutdown between payloads: both only end `RunHttpSseLoop` earlier.
- Detection patterns, payload parsers, the risk scorer, notifier sinks, configuration loading, health endpoints and logging: they would only add easy members.
- FinalityService.Service.HandleEvent: the restored row is a parameter of the method; `FinalityRestart` passes the row of the modelled table.
