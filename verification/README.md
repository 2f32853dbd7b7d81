# Verified model of the generation processing queue

A Dafny project that models the queue's hardest mechanisms and proves what they
promise. `dafny verify dfyconfig.toml` checks all of it.

Code that changes state step by step appears twice: as methods over mutable
state with the source's loops, and as a function on values that the methods are
proved against. The theorems are about the function, over all runs. What a
function computes is in turn stated apart from it, in the columns, bytes, letters
or observations alone and with the numbers written out, mostly as an equivalence.

| files | what they model |
|---|---|
| `Transfer.dfy`, `DeliveryVerdicts.dfy` | chunked Artifact transfer: both producers, both consumers, one reference; what the delivery RPC makes of any stream |
| `Delivery.dfy`, `DeliverySafety.dfy`, `DeliveryEnds.dfy` | the one-shot Worker-local download with resume, budget and hold-back, driven by arbitrary inputs |
| `Lists.dfy`, `Schedule.dfy`, `Capability.dfy`, `Planning.dfy`, `NativeExclusions.dfy` | capability matching, selection order, starvation guard, batches, one planning pass |
| `Lifecycle.dfy`, `Database.dfy`, `Transactions.dfy`, `DatabaseSafety.dfy`, `ActiveAttempts.dfy` | lifecycle relations, the queue tables, when every transaction on them takes effect and what it keeps, live Attempts of active Generations |
| `Retry.dfy`, `Outcomes.dfy`, `Overtaking.dfy`, `PlannedOrder.dfy`, `FreshPass.dfy` | termination of retries, final outcomes, pools never leased again, bounded overtaking by choices and by whole passes, passes carried out in full |
| `Pool.dfy`, `PoolSafety.dfy`, `PoolProgress.dfy` | the Device Pool supervisor: sections of the state lock interleaved under the operation lock, what they keep and what they get done |
| `Store.dfy`, `StoreSafety.dfy`, `StoreColumns.dfy` | the Artifact store: file steps, crashes, reconciliation |
| `Models.dfy`, `ModelTree.dfy` | framed directory digest, the tree behind it, hash cache |
| `WebM.dfy`, `Riff.dfy` | track merge, Opus arithmetic, bounded container walk |
| `Infer.dfy` | the inference child's job slot and the events of one execution |
| `Text.dfy`, `BackendSpec.dfy`, `Validators.dfy`, `DeviceRules.dfy` | device assignments: Rust printer, C++ parser, validators |

Conventions. SHA-256 is a function parameter `sha`; nothing is assumed of it, and
where equal digests must mean equal bytes that is a hypothesis. Timeouts, sends,
database failures, dropped futures and read sizes are inputs or nondeterministic
choices. Ids are numbers. Text is a sequence of characters with the C locale's
spaces and ASCII case. Integer widths are written out where a bound matters.

Where the code falls short of its comments or of what one would expect, the code
is modelled, and the exact condition is proved:

- `chunk_count` is documented as the number of chunks of a transfer; an empty
  Artifact still takes one (`DeclaredCountAgreesIff`).
- A persist failure after the verified final chunk marks an Artifact lost that
  the client holds in full (`CompleteBodyIsVerified`, `LostAfterCompleteBody`).
- A resume is refused whenever the final chunk is held back (`ResumeAcceptedIff`,
  `HeldResumeIsRefused`); against an honest Worker that never happens.
- A cancellation acknowledged by an earlier Attempt settles the Generation
  although a later Attempt is live (`ReachableStaysActiveIff`,
  `StaleAcknowledgementHappens`).
- Removing a pool leaves the Generation that ran on it active without an Attempt
  (`ActiveHasAttemptIff`, `RemovedPoolStrands`).
- `shutdown` forgets a child whose termination fails or is interrupted
  (`ChildrenAreLostIff`, `FailedShutdownAllowsSecondChild`), and interrupted it
  leaves the pool ready (`HeadlessOutlivesShutdownIff`,
  `DroppedShutdownLeavesReadyPool`).
- A scan that cannot read a manifest, for whatever reason, deletes the output
  (`PublishedSurvivesIff`).
- A model file that grows while it is hashed makes the framing ambiguous
  (`RacedFramesAgreeIff`, `RacedSizeIsAmbiguous`).
- Commas, surrounding spaces and equals signs in device names break the assignment
  text (`DefaultAgreesIff`, `OverrideAgreesIff`, `AllConfigurationsAgreeIff`,
  `CommaSmugglesOverride`), and a leading equals sign its second validation
  (`ParamsBackendIsFixedIff`, `EqualsSignIsNotFixed`).

Two guards elsewhere in the repository turn out to be needed, or never to bind: a
queue age of zero, refused by the settings and the tables, would let a new
submission be the older one (`NewSubmissionsNeverOlderIff`), and the 32-bit
position of a database read is enough for anything the `bytea` column can hold
(`RemoteLocalServableIff`).

## Model

| member | source | states |
|---|---|---|
| `Transfer.ChunksFromShape` | crates/gpq-remote/src/transfer.rs:97-151 | The reference chunk list concatenates to exactly `content[offset..]` and is contiguous from `offset`, bounded, with `last` on the final chunk only |
| `Transfer.ContiguousEndsOnce` | crates/gpq-remote/src/transfer.rs:463-551 | A contiguous list has exactly one last chunk, at its end |
| `Transfer.ChunksFromCount` | crates/gpq-worker/src/artifacts.rs:98-141 | A transfer of r bytes takes max(1, ceil(r / 1 MiB)) chunks |
| `Transfer.ChunksFromAt` | crates/gpq-worker/src/artifacts.rs:98-141 | Chunk k starts at offset + k MiB, carries those bytes, and is last exactly when it is the final one |
| `Transfer.DeclaredCountAgreesIff` | crates/gpq-domain/src/artifact.rs:137-142 | `chunk_count` equals the number of chunks really produced if and only if the content is not empty |
| `Transfer.ArtifactReader.NextChunk` | crates/gpq-worker/src/artifacts.rs:98-141 | One call fills a buffer over any sequence of short reads, advances position and digest, marks the last chunk, and fails exactly when a from-zero read reaches the end with length or digest wrong |
| `Transfer.ReadAll` | crates/gpq-worker/src/artifacts.rs:249-272 | The chunks of a whole read are the reference from `offset`, or the error is exactly past-end or digest mismatch |
| `Transfer.ReadAtMost` | crates/gpq-worker/src/artifacts.rs:98-141 | A reader called so many times ends, by a last chunk or an error, exactly when its position reaches the declared size within them |
| `Transfer.ReaderFinishesIffLongEnough` | crates/gpq-worker/src/artifacts.rs:98-141 | Some number of calls ends a reader if and only if the file is as long as declared or the read starts at the declared end |
| `Transfer.StreamRemoteLocal` | crates/gpq-remote/src/transfer.rs:107-151 | Remote's cursor loop emits a prefix of the reference, all of it when it succeeds, and, with the lease alive, succeeds exactly when the last chunk's database position fits int4 |
| `Transfer.RemoteLocalServableIff` | crates/gpq-remote/src/db/artifacts.rs:202-250 | An input can be served whole if and only if it is at most 2 GiB, so the 32-bit position never binds below the database's own limit of 1 GB |
| `Transfer.ReceiveDeliveryChunks` | crates/gpq-remote/src/transfer.rs:463-551 | The receiving loop makes the pushes and the outcome of the message-by-message decision `Receive` |
| `Transfer.ReceiveDeliversIff` | crates/gpq-remote/src/transfer.rs:443-551 | For every inbox, receiving succeeds if and only if its leading chunks are contiguous and bounded, end with a last one and fit the manifest, and every push was taken; receipt and pushes are then those of their bytes |
| `Transfer.DeliveryRoundTrip` | crates/gpq-remote/src/transfer.rs:405-551 | For every content and start offset, the reader's chunks are all accepted, reach the downloader in order, complete the RPC, and concatenate to `content[start..]` |
| `Transfer.FetchRemoteLocalInput` | crates/gpq-worker/src/executor.rs:598-663 | The fetching loop stages exactly what `Fetch` says and reports its length |
| `Transfer.FetchIff` | crates/gpq-worker/src/executor.rs:621-662 | For every inbox, fetching succeeds if and only if its leading chunks are contiguous and bounded and end with a last one; the file is their concatenation |
| `Transfer.InputRoundTrip` | crates/gpq-worker/src/executor.rs:565-663 | What Remote streams from zero is staged byte for byte and passes its manifest |
| `DeliveryVerdicts.RpcPushes` | crates/gpq-remote/src/transfer.rs:225-405 | For every stream of messages: one RPC pushes the chunks taken, in order, and then what the message that stopped it, or the size and digest received, call for |
| `DeliveryVerdicts.AlwaysStops` | crates/gpq-remote/src/transfer.rs:475-530 | Every stream is read up to one point: its end, a transport error, a message that is no chunk, a chunk that does not fit, a downloader that has gone, or the last chunk |
| `DeliveryVerdicts.RpcVerdictIff` | crates/gpq-remote/src/transfer.rs:405-440 | For every stream: complete if and only if the last chunk was taken, the bytes end at the manifest's size and, from zero, have its digest; rejected if and only if a chunk did not fit or bytes from zero have the size and not the digest; failed if and only if the stream ran out or the length differs |
| `DeliveryVerdicts.StartAcceptedIff` | crates/gpq-remote/src/transfer.rs:336-393 | A start is accepted if and only if the Artifact is being delivered and manifest, token and committed offset are those recorded |
| `Delivery.DeliveryStream.RequestWorkerDelivery` | crates/gpq-remote/src/artifacts.rs:883-937 | The request loop plays its part of the run: it stops delivered, ended or with nothing left to observe, and leaves the outcome of the whole run unchanged |
| `Delivery.DeliveryStream.PersistDeliveryOffset` | crates/gpq-remote/src/artifacts.rs:954-972 | The committed offset becomes the current one exactly when the transaction commits |
| `Delivery.DeliveryStream.OnData` | crates/gpq-remote/src/artifacts.rs:1024-1077 | State after a data push: oversized, overflowing or overlong data loses the Artifact, the final chunk is held back, any other is sent and persisted |
| `Delivery.DeliveryStream.OnComplete` | crates/gpq-remote/src/artifacts.rs:1078-1136 | State after Complete: length and digest of the whole stream come first, then the held-back chunk, its offset, and consumption |
| `Delivery.DeliveryStream.DrainWorkerChunks` | crates/gpq-remote/src/artifacts.rs:998-1189 | The drain loop plays its part of the run and leaves the outcome of the whole run unchanged |
| `Delivery.DeliveryStream.StreamWorkerLocal` | crates/gpq-remote/src/artifacts.rs:1203-1249 | The whole download ends in the state of the transition system run over all its inputs |
| `DeliverySafety.RunInv` | crates/gpq-remote/src/artifacts.rs:998-1249 | Every run of any inputs keeps the delivery invariant |
| `DeliverySafety.HashedIsSentThenHeld` | crates/gpq-remote/src/artifacts.rs:998-1189 | Over every run hashed = sent ++ refused ++ held back, and offset = start + number of hashed bytes |
| `DeliverySafety.CompleteBodyIsVerified` | crates/gpq-remote/src/artifacts.rs:1024-1136 | A non-empty Artifact sent in full from zero has passed length and digest, and is consumed exactly when its final offset was persisted |
| `DeliverySafety.ConsumedIsVerified` | crates/gpq-remote/src/artifacts.rs:1078-1136 | Consumed implies everything from the start offset was sent, persisted and verified |
| `DeliverySafety.CompleteBodyIsContent` | crates/gpq-remote/src/artifacts.rs:1024-1136 | Where no other bytes of that length have the digest, a complete body is the published content |
| `DeliverySafety.LostAfterCompleteBody` | crates/gpq-remote/src/artifacts.rs:1101-1136 | A run in which the client has all verified bytes and the Artifact is still marked lost |
| `DeliverySafety.RequestBudget` | crates/gpq-remote/src/artifacts.rs:883-937 | At most MAX_RESUME_ATTEMPTS requests are sent in one run, whatever their outcomes |
| `DeliverySafety.ResumeAcceptedIff` | crates/gpq-remote/src/transfer.rs:336-393 | Whenever Remote asks again, the requested offset is the persisted one plus what is held back, and the Worker's start is accepted if and only if nothing is held back |
| `DeliverySafety.HeldResumeIsRefused` | crates/gpq-remote/src/transfer.rs:336-393 | A run that asks again with the final chunk held back, and is refused for its offset |
| `DeliverySafety.HonestResumesAreAccepted` | crates/gpq-remote/src/artifacts.rs:1137-1249 | Against a Worker serving reader chunks, over any number of cut rounds, every resume is accepted, the body is a prefix of the content, and a consumed download is all of it |
| `DeliverySafety.LuckyRoundConsumes` | crates/gpq-remote/src/artifacts.rs:1203-1249 | One undisturbed round consumes the Artifact with the body equal to the content |
| `DeliveryEnds.GoesOnIff` | crates/gpq-remote/src/artifacts.rs:883-1249 | Over every run the attempts used are the setbacks met, and the download is still going on if and only if nothing final was observed and there were fewer than five |
| `DeliveryEnds.EndsAsIff` | crates/gpq-remote/src/artifacts.rs:883-1189 | It ends lost, expired or consumed if and only if an observation of just that meaning comes, or the fifth setback of that kind |
| `DeliveryEnds.BrokenStreamIsResumed` | crates/gpq-remote/src/artifacts.rs:1137-1186 | A stream that broke or whose Worker reported a failure is asked for again with everything kept, one attempt counted |
| `DeliveryEnds.DeliveredRequestDrains` | crates/gpq-remote/src/artifacts.rs:890-893 | A delivered request is followed by draining, nothing else changed |
| `DeliveryEnds.ChunkIsSentOrHeld` | crates/gpq-remote/src/artifacts.rs:1046-1077 | A chunk taken is hashed and counted; it is sent and persisted, or held back if it is the last |
| `Schedule.SelectNextIsChoice` | crates/gpq-domain/src/schedule.rs:66-98 | `select_next` is empty exactly without capacity or eligible work; otherwise it is the oldest overdue candidate, or, when none is overdue, the first by resident model, priority, age and id |
| `Schedule.ChoiceInColumns` | crates/gpq-domain/src/schedule.rs:66-98 | Against any other eligible candidate: submitted before every one that has waited out, once there is one; otherwise resident if the other is, and among equals of higher priority, then submitted before it |
| `Schedule.ChoiceExistsIff` | crates/gpq-domain/src/schedule.rs:66-98 | There is a choice if and only if a slot is free and something is eligible, and it is one of those |
| `Schedule.OverdueOnlyPassedByOlder` | crates/gpq-domain/src/schedule.rs:71-87 | An eligible overdue Generation is chosen unless a strictly older overdue one is |
| `Schedule.OverdueIsStable` | crates/gpq-domain/src/tenant.rs:34-40 | Overdue stays overdue as time passes |
| `Schedule.NewSubmissionsNeverOlderIff` | crates/gpq-domain/src/tenant.rs:34-40 | No later submission is older than an overdue Generation if and only if the configured age is positive, as settings and tables demand |
| `Schedule.CollectBatch` | crates/gpq-domain/src/schedule.rs:107-138 | The loops yield a batch led by `select_next` whose tail is ascending, of the lead's version, precedes every companion left out and fills the free slots as far as companions go |
| `Schedule.BatchIsLeastCompanions` | crates/gpq-domain/src/schedule.rs:100-138 | The batch leads with `select_next`; its tail is ascending, of the lead's version and eligible, and precedes every companion left out |
| `Schedule.BatchIsUnique` | crates/gpq-domain/src/schedule.rs:100-138 | Those properties leave only one batch |
| `Schedule.BatchInColumns` | crates/gpq-domain/src/schedule.rs:107-138 | Each companion is of higher priority, or as high and submitted before, than every later one and every one left out, and is left out only if the slots are used up |
| `Schedule.BatchIsFilled` | crates/gpq-domain/src/schedule.rs:107-138 | A candidate of the lead's model is left out only if the slots are used up |
| `Schedule.BatchLength` | crates/gpq-domain/src/schedule.rs:107-138 | The batch length is the smaller of the free slots and the eligible candidates of that version |
| `Schedule.BatchIgnoresOrder` | crates/gpq-domain/src/schedule.rs:71-138 | With distinct ids, neither choice nor batch depends on the order of the candidates |
| `Schedule.BatchMembers` | crates/gpq-domain/src/schedule.rs:107-138 | Every batch member is a candidate the slot admits |
| `Lists.AscendingUnique` | crates/gpq-domain/src/schedule.rs:128-135 | Two ascending lists of the same elements are equal, so the unstable sort is determined |
| `Lists.SortByInsertion` | crates/gpq-domain/src/schedule.rs:128-135 | Inserting one companion after the other ends with an ascending permutation |
| `Planning.PlanAssignments` | crates/gpq-remote/src/scheduler.rs:269-326 | The pass, shortcut included, plans exactly what filtering by exclusions and then selecting would |
| `Planning.PlanOne` | crates/gpq-remote/src/scheduler.rs:277-325 | The same for one pool: copying only when something is rejected changes nothing |
| `Planning.PlanPoolIsSound` | crates/gpq-remote/src/scheduler.rs:262-326 | A pool gets at most its free slots, only work it admits and did not reject, and nothing while its Worker is offline |
| `Planning.PlanPoolServes` | crates/gpq-remote/src/scheduler.rs:269-326 | An online pool with free slots gets its batch of exactly the candidates that it has not rejected itself, whatever other pools rejected |
| `Planning.PlanPoolIsIdleIff` | crates/gpq-remote/src/scheduler.rs:269-326 | A pool is left without work if and only if it is offline or full or can run nothing that is open to it |
| `Planning.PlanServesEachRow` | crates/gpq-remote/src/scheduler.rs:277-326 | The pass is the plan of each pool by itself, one after the other |
| `NativeExclusions.CollectExclusions` | crates/gpq-remote/src/db/native_exclusions.rs:67-97 | The bulk map holds a pool for a Generation exactly when the rows do |
| `NativeExclusions.FreshPlanIsNotExcluded` | crates/gpq-remote/src/scheduler.rs:344-366 | A plan made from current rows never meets the transaction's exclusion check |
| `Capability.AdmitsIff` | crates/gpq-domain/src/capability.rs:234-317 | A slot admits a Generation if and only if tenant, model, modality and LoRAs match and a well-formed shape is within limits on true, unbounded products, where a pixel limit of the saturation value limits nothing |
| `Capability.TurnedAwayIff` | crates/gpq-domain/src/capability.rs:234-317 | Each reason for turning a Generation away is given if and only if it applies and none before it does |
| `Capability.SaturationIsExactIff` | crates/gpq-domain/src/capability.rs:293-304 | The saturating product gives the true verdict unless the limit is the saturation value and the product beyond it |
| `Capability.WiderSlotAdmitsMore` | crates/gpq-domain/src/capability.rs:327-342 | Offering more never turns work away nor takes the last candidate |
| `Lifecycle.OneBackwardEdge` | crates/gpq-domain/src/state.rs:149-190 | Every Generation transition but Running to Queued strictly raises the rank, and the final states are exactly those without exit |
| `Lifecycle.ArtifactsOnlyMoveForward` | crates/gpq-domain/src/state.rs:256-290 | Every Artifact transition strictly raises the rank; the final states are exactly those without exit |
| `Lifecycle.WaysToAState` | crates/gpq-domain/src/state.rs:149-174 | What leads to each Generation state: only running work succeeds or is asked to stop, whatever has not ended can fail or be cancelled |
| `Lifecycle.WaysOfAnAttempt` | crates/gpq-domain/src/state.rs:206-230 | An Attempt starts once and ends once, in any way, while live |
| `Lifecycle.WaysOfAnArtifact` | crates/gpq-domain/src/state.rs:256-290 | An Artifact is offered, delivered and consumed in that order, and discarded or lost until then |
| `Database.Remote.TryAssignLease` | crates/gpq-remote/src/scheduler.rs:344-434 | The assignment on an uncommitted copy has exactly the effect of one committed transaction, or none |
| `Database.Remote.RunPass` | crates/gpq-remote/src/scheduler.rs:328-342 | A pass is the run of its planned assignments, each its own transaction, however stale the plan |
| `DatabaseSafety.AssignmentIsAtomic` | crates/gpq-remote/src/scheduler.rs:344-434 | An assignment changes nothing, or, with the lease delivered, commits claim, Attempt and Running together on a free slot of a pool that is not excluded |
| `Transactions.AssignmentTakesEffectIff` | crates/gpq-remote/src/scheduler.rs:344-434 | An assignment takes effect if and only if its lease was delivered and committed, its Attempt is new, the Generation is queued with an Attempt left, that very pool is neither rejected nor failed out of memory, and has a slot left |
| `Transactions.AssignmentCommits` | crates/gpq-remote/src/scheduler.rs:344-434 | Then exactly the Attempt, the count, the Running state and the claim are committed |
| `Transactions.ConfirmationTakesEffectIff` | crates/gpq-remote/src/db/attempts.rs:273-292 | A confirmation takes effect if and only if the Attempt is leased, and marks it as running |
| `Transactions.FailureTakesEffectIff` | crates/gpq-remote/src/db/attempts.rs:375-472 | A failure takes effect if and only if the Attempt is live, closes it, frees its slot and moves its Generation by cancellation, cause, count and candidates |
| `Transactions.RejectionTakesEffectIff` | crates/gpq-remote/src/db/attempts.rs:573-648 | A lease is handed back if and only if it is unconfirmed and its Generation running; row, count, slot and state go back and the pool is noted |
| `Transactions.AcceptanceTakesEffectIff` | crates/gpq-remote/src/db/generations.rs:371-459 | A result is taken if and only if its Attempt is live and its Generation running or cancelling |
| `Transactions.AcknowledgementTakesEffectIff` | crates/gpq-remote/src/db/attempts.rs:662-725 | An acknowledgement takes effect if and only if the Attempt's Generation is cancelling, and closes the Attempt if it is live |
| `Transactions.SubmissionTakesEffectIff` | crates/gpq-remote/src/db/generations.rs:186-228 | A submission takes effect if and only if its id is new, and queues it with no Attempt |
| `Transactions.CancellationTakesEffectIff` | crates/gpq-remote/src/db/generations.rs:495-590 | A queued Generation is cancelled or expires, a running one is asked to stop, and no other is touched |
| `Transactions.ReportTakesEffectIff` | crates/gpq-remote/src/db/workers.rs:451-545 | A report changes a pool's size down to its claims at most, and registers a new one empty |
| `Transactions.RemovalTakesEffectIff` | crates/gpq-remote/src/db/workers.rs:451-466 | A removal takes with it exactly the Attempts and rejections of that pool |
| `DatabaseSafety.StepInv` | crates/gpq-remote/src/db/attempts.rs:123-725 | Every transaction keeps: claims = live Attempts <= slots, one live Attempt per Generation, at most MAX_ATTEMPTS, distinct numbers, no live Attempt on an excluded pool |
| `DatabaseSafety.RunInv` | crates/gpq-remote/src/scheduler.rs:344-434 | So does any sequence of transactions, stale passes included |
| `DatabaseSafety.BeganInv` | crates/gpq-remote/src/db/attempts.rs:123-192 | Beginning an Attempt keeps the invariant |
| `DatabaseSafety.EndedInv` | crates/gpq-remote/src/db/attempts.rs:308-472 | Settling or removing a live Attempt keeps the invariant |
| `DatabaseSafety.FailureEnds` | crates/gpq-remote/src/db/attempts.rs:375-472 | Recording a failure settles exactly that Attempt, releases its slot and moves only its Generation |
| `DatabaseSafety.RejectEnds` | crates/gpq-remote/src/db/attempts.rs:573-648 | Rejecting a lease removes exactly that Attempt, returns its number and slot, and records the pool |
| `DatabaseSafety.DropPoolInv` | crates/gpq-remote/src/db/workers.rs:451-466 | Removing a pool with everything that refers to it keeps the invariant |
| `DatabaseSafety.ReportIsQuiet` | crates/gpq-remote/src/db/workers.rs:467-510 | A capability report never touches Attempts or claims and cannot undercut the claims |
| `DatabaseSafety.GenerationFollowsLifecycle` | crates/gpq-domain/src/state.rs:149-174 | Every transaction moves a Generation along its lifecycle relation or leaves it |
| `DatabaseSafety.AttemptFollowsLifecycle` | crates/gpq-domain/src/state.rs:206-230 | Every transaction moves an Attempt along its relation, or removes it by rejection or with its pool |
| `DatabaseSafety.LiveStaysActiveIff` | crates/gpq-remote/src/db/attempts.rs:662-725 | A transaction leaves live Attempts with active Generations if and only if it is no stale acknowledgement, one by an earlier Attempt while a later one is live |
| `ActiveAttempts.ReachableStaysActiveIff` | crates/gpq-remote/src/db/attempts.rs:662-725 | Over any run from the empty tables no live Attempt outlives the active states of its Generation if and only if no acknowledgement is stale |
| `ActiveAttempts.StaleAcknowledgementHappens` | crates/gpq-remote/src/db/attempts.rs:662-725 | A stale acknowledgement is reachable and leaves a live Attempt of a cancelled Generation |
| `ActiveAttempts.ActiveHasAttemptIff` | crates/gpq-remote/src/db/workers.rs:451-466 | Over any run from the empty tables an active Generation has a live Attempt if and only if the pool it was last leased to is still registered |
| `ActiveAttempts.RemovedPoolStrands` | crates/gpq-remote/src/db/workers.rs:451-466 | A reachable active Generation without any live Attempt, its pool removed |
| `Outcomes.FailureDecides` | crates/gpq-remote/src/db/attempts.rs:375-472 | A failure settles the Attempt and moves its Generation exactly as cancellation, cause, Attempts used and remaining candidates say |
| `Outcomes.TerminalIsForever` | crates/gpq-domain/src/state.rs:149-174 | No run changes how a Generation ended |
| `Outcomes.AcceptanceEnds` | crates/gpq-remote/src/db/generations.rs:371-459 | Taking a result ends a Generation that had not ended, settles its live Attempt and frees exactly one slot |
| `Outcomes.AcceptedAtMostOnce` | crates/gpq-remote/src/db/generations.rs:371-459 | Over any run at most one result of a Generation is accepted |
| `Retry.StepBudget` | crates/gpq-remote/src/db/attempts.rs:440-470 | Attempts left plus pools not yet rejecting never grows except by one per new pool, and every lease takes one |
| `Retry.LeasesAreBounded` | crates/gpq-domain/src/failure.rs:83-98 | A Generation is leased at most as often as that budget, plus one per pool registered meanwhile |
| `Retry.StepPotential` | crates/gpq-remote/src/db/attempts.rs:440-470 | Every return to Queued strictly decreases budget plus execution |
| `Retry.ReturnsEndAnAttempt` | crates/gpq-remote/src/db/attempts.rs:375-648 | Only the end of its own live Attempt re-queues a Generation, and an Attempt is then still unused |
| `Retry.RetriesEnd` | crates/gpq-domain/src/failure.rs:83-98 | A fresh Generation re-queues at most MAX_ATTEMPTS - 1 + number of pools times, plus one per pool registered meanwhile |
| `Retry.RejectionAndExhaustionBurn` | crates/gpq-remote/src/db/native_exclusions.rs:9-60 | A rejected lease and an out-of-memory failure exclude their pool |
| `Retry.StepBurned` | crates/gpq-remote/src/db/native_exclusions.rs:43-60 | An excluded pool stays excluded, or is gone for good |
| `Retry.NeverLeasedAgain` | crates/gpq-remote/src/scheduler.rs:350-359 | After any run, an assignment to such a pool changes nothing |
| `Retry.ReachableIsSafe` | crates/gpq-remote/src/scheduler.rs:344-434 | The invariants hold after every run from the empty tables |
| `Overtaking.ChoiceIsOlder` | crates/gpq-domain/src/schedule.rs:71-87 | A choice made from a stale snapshot past a waiting overdue Generation is one of the older Generations |
| `Overtaking.StepTotal` | crates/gpq-domain/src/failure.rs:83-98 | Each lease of an older Generation takes one from their common budget |
| `Overtaking.OvertakingIsBounded` | crates/gpq-domain/src/schedule.rs:71-87 | While an overdue eligible Generation waits, the slot's committed leases of other work number at most the remaining budget of the older Generations |
| `Overtaking.OverdueIsNeverOvertaken` | crates/gpq-domain/src/tenant.rs:34-40 | The same bound from the moment it is overdue, with everything submitted from then on |
| `PlannedOrder.PlannedIsChosen` | crates/gpq-remote/src/scheduler.rs:269-326 | What a pass over any snapshot plans for a slot is a choice past the waiting Generation |
| `PlannedOrder.SnapshotStays` | crates/gpq-remote/src/scheduler.rs:262-326 | A snapshot stays a possible reading of the queue through any later transactions |
| `PlannedOrder.TurnsAreOrdered` | crates/gpq-remote/src/scheduler.rs:262-434 | Any sequence of passes, however stale, and other transactions makes a run of such choices |
| `PlannedOrder.PassesOvertakeBoundedly` | crates/gpq-remote/src/scheduler.rs:262-434 | So the bound on overtaking holds of any such sequence from the moment a Generation is overdue for a single slot |
| `FreshPass.QueuedHasAttemptLeft` | crates/gpq-remote/src/db/attempts.rs:145-160 | After any run every queued Generation has an Attempt left |
| `FreshPass.CurrentPlanIsReady` | crates/gpq-remote/src/scheduler.rs:262-342 | What a pass over the current tables plans for a pool can all be committed |
| `FreshPass.FreshPlanIsCarriedOut` | crates/gpq-remote/src/scheduler.rs:262-434 | After any run, what a pass over the current tables plans for a pool is committed to the last assignment if the leases are delivered, each candidate with the next Attempt number and a slot of its own |
| `Pool.PoolState.TryAcquire` | crates/gpq-worker/src/pool.rs:108-116 | Succeeds exactly on a ready pool with a free slot and then takes it |
| `Pool.PoolState.Release` | crates/gpq-worker/src/pool.rs:118-125 | Removes the attempt and frees the slot only if it was there |
| `Pool.PoolState.Restore` | crates/gpq-worker/src/pool.rs:143-164 | Puts the child back with cleanup pending and the pool withdrawn |
| `Pool.PoolState.TakeForRecovery` | crates/gpq-worker/src/pool.rs:356-369 | Hands out the old child and withdraws the pool |
| `Pool.PoolState.TakeForUnload` | crates/gpq-worker/src/pool.rs:434-444 | Hands out the child of an idle pool |
| `Pool.PoolState.TakeForReclaim` | crates/gpq-worker/src/pool.rs:462-480 | Hands out the child only if the attempt holds the slot, and otherwise changes nothing |
| `Pool.PoolState.TakeForShutdown` | crates/gpq-worker/src/pool.rs:490-495 | Hands out the child and leaves readiness as it was |
| `Pool.PoolState.Observe` | crates/gpq-worker/src/pool.rs:506-532 | Records an exit and tells whether to terminate or to restart |
| `Pool.PoolState.AcceptProbe` | crates/gpq-worker/src/pool.rs:811-824 | Publishes slot and backend after the readiness probe |
| `Pool.PoolState.Refresh` | crates/gpq-worker/src/pool.rs:586-605 | Recomputes readiness and the slot without disturbing its holder |
| `Pool.PoolState.FailTermination` | crates/gpq-worker/src/pool.rs:853-864 | Withdraws the pool after a failed termination |
| `Pool.PoolState.AnnounceStart` | crates/gpq-worker/src/pool.rs:649-661 | Withdraws the pool and asks for a restart until the start succeeds |
| `Pool.PoolState.AdoptSpawned` | crates/gpq-worker/src/pool.rs:715-720 | Takes the spawned child over with cleanup pending |
| `Pool.PoolState.LoseProbe` | crates/gpq-worker/src/pool.rs:574-582 | A failed refresh makes a ready pool unready and leaves any other alone |
| `Pool.PoolState.MarkUnready` | crates/gpq-worker/src/pool.rs:871-884 | Empties the pool |
| `PoolSafety.StepInv` | crates/gpq-worker/src/pool.rs:53-884 | Every section, future drop and lease drop keeps the accounting, ownership and phase invariants |
| `PoolSafety.RunInv` | crates/gpq-worker/src/pool.rs:53-884 | So does every interleaving: slots_total and slots_free are exact, at most one attempt is busy, pending cleanup excludes readiness |
| `PoolSafety.ChildrenAreLostIff` | crates/gpq-worker/src/pool.rs:487-501 | A live child escapes ownership if and only if a shutdown's termination fails or its future is dropped |
| `PoolSafety.OneChildPerPool` | crates/gpq-worker/src/pool.rs:313-559 | As long as no shutdown loses one, no interleaving has two live children |
| `PoolSafety.TakenChildIsAccountedFor` | crates/gpq-worker/src/pool.rs:138-170 | A child taken out is verified as terminated, still guarded, or back in the state, even when the future is dropped |
| `PoolSafety.SpawnsIntoEmptyPool` | crates/gpq-worker/src/pool.rs:649-720 | After any run, a child is spawned only where the pool and the operation have none and the slot is free; other live children are those lost by a shutdown |
| `PoolSafety.RecordingFindsChild` | crates/gpq-worker/src/pool.rs:738-744 | After any run, the process is there where its identity is recorded, so the `unreachable!` is never reached |
| `PoolSafety.NoChildIsOverwritten` | crates/gpq-worker/src/pool.rs:649-884 | The process field is only ever kept or handed to the operation in flight |
| `PoolSafety.NoOtherAttemptIsKilled` | crates/gpq-worker/src/pool.rs:413-485 | A reclaim faces at most the named attempt's slot, an idle unload and a recovery a free one, throughout termination |
| `PoolSafety.StaleDropIsHarmlessIff` | crates/gpq-worker/src/pool.rs:62-69 | Dropping a stale lease leaves the holder alone if and only if their attempts differ |
| `PoolSafety.HolderDropFrees` | crates/gpq-worker/src/pool.rs:62-69 | Dropping the holder's lease frees the slot of a ready pool |
| `PoolSafety.FailedShutdownAllowsSecondChild` | crates/gpq-worker/src/pool.rs:487-501 | A reachable state with two live children after a shutdown whose termination failed |
| `PoolSafety.DroppedShutdownLeavesReadyPool` | crates/gpq-worker/src/pool.rs:487-501 | A reachable state, after a shutdown dropped half-way, of a ready pool without a child |
| `PoolSafety.HeadlessBeginsIff` | crates/gpq-worker/src/pool.rs:487-501 | A ready pool loses its child if and only if a shutdown takes it |
| `PoolSafety.HeadlessOutlivesShutdownIff` | crates/gpq-worker/src/pool.rs:487-501 | It is still without one when that shutdown is over if and only if the shutdown was dropped half-way |
| `PoolSafety.ReadyPoolHasChild` | crates/gpq-worker/src/pool.rs:313-605 | Over any run that drops no shutdown, a ready pool has its child whenever no shutdown is under way |
| `PoolProgress.EmptyPoolIsRestartedIff` | crates/gpq-worker/src/pool.rs:503-559 | After any run, a liveness check starts a child in an empty pool if and only if one exited, was reclaimed or was given up by an acquisition with no completed start or shutdown since |
| `PoolProgress.CleanedPoolIsRestartedIff` | crates/gpq-worker/src/pool.rs:533-551 | After any run, a verified termination is followed by a start for an acquisition, and for a liveness check if and only if a child is wanted in that sense |
| `PoolProgress.SuspectChildIsTakenIff` | crates/gpq-worker/src/pool.rs:506-537 | After any run, a liveness check takes the child if and only if it has exited, or was spawned or put back without a completed probe since |
| `PoolProgress.ExitedChildIsReplaced` | crates/gpq-worker/src/pool.rs:503-559 | After any run, a child seen to have exited is cleaned up after and, undisturbed, replaced by one that serves a free slot |
| `PoolProgress.WantedChildIsStarted` | crates/gpq-worker/src/pool.rs:552-557 | After any run, a wanted child is, undisturbed, started by the next liveness check |
| `PoolProgress.FreeSlotIsGranted` | crates/gpq-worker/src/pool.rs:313-411 | After any run, an undisturbed acquisition that finds no attempt on the slot is granted it, whatever state the child was in |
| `PoolProgress.BusySlotIsRefused` | crates/gpq-worker/src/pool.rs:340-411 | After any run, an acquisition that finds an attempt on the slot changes nothing |
| `PoolProgress.IdleChildIsUnloadedIff` | crates/gpq-worker/src/pool.rs:413-425 | An unload begins if and only if there is a child, idle for long |
| `PoolProgress.UnloadEmpties` | crates/gpq-worker/src/pool.rs:426-453 | An undisturbed unload leaves the pool empty, and a restart wanted only if it was before |
| `PoolProgress.ReleasedMemoryIsEnough` | crates/gpq-worker/src/pool.rs:426-433 | A child that gives its memory back stays |
| `PoolProgress.ReclaimedPoolIsRestarted` | crates/gpq-worker/src/pool.rs:456-485 | A reclaim takes the child if and only if the attempt holds its slot, and the next liveness check starts another |
| `PoolProgress.FailedTerminationIsRetried` | crates/gpq-worker/src/pool.rs:853-868 | A failed termination puts the child back unready, and the next liveness check tries again |
| `PoolProgress.RefreshBeginsIff` | crates/gpq-worker/src/pool.rs:560-575 | A refresh is made if and only if the child's backend is known |
| `PoolProgress.RefreshPublishes` | crates/gpq-worker/src/pool.rs:574-605 | After any run, a refresh publishes what the probes say around the slot's holder, and a lost one withdraws the slot |
| `PoolProgress.ShutdownIsFinal` | crates/gpq-worker/src/pool.rs:487-501 | A shutdown that terminates its child leaves an empty pool that no liveness check starts again |
| `PoolProgress.FailedStartLetsGo` | crates/gpq-worker/src/pool.rs:385-411 | A start that fails anywhere, a pool found unready and a grant that finds no free slot let go of the lock and change nothing else |
| `PoolProgress.FailedProbesPublish` | crates/gpq-worker/src/pool.rs:811-824 | A child whose probes fail is kept, and its pool published without a slot |
| `PoolProgress.DroppedFutureLetsGo` | crates/gpq-worker/src/pool.rs:138-170 | What each operation leaves if its future is dropped where it awaits |
| `PoolProgress.DropEmptiesIff` | crates/gpq-worker/src/pool.rs:62-125 | After any run, dropping a lease empties the slot if and only if its attempt is on it, and frees it in a ready pool |
| `Store.LocalArtifactStore.CopyIn` | crates/gpq-worker/src/artifacts.rs:211-227 | The copy loop stages the source whatever sizes the reads return, by a run of file steps |
| `Store.LocalArtifactStore.Publish` | crates/gpq-worker/src/artifacts.rs:202-244 | Publishes exactly on a matching manifest, otherwise leaves only the part file; both are runs of the file steps |
| `Store.LocalArtifactStore.OpenForRead` | crates/gpq-worker/src/artifacts.rs:249-272 | Opens data and manifest of an available Artifact exactly for offsets within it |
| `Store.LocalArtifactStore.Delete` | crates/gpq-worker/src/artifacts.rs:276-282 | Removes the directory if it is there and nothing else |
| `Store.LocalArtifactStore.Expire` | crates/gpq-worker/src/artifacts.rs:289-320 | Removes and reports exactly the directories whose age has reached the limit |
| `Store.LocalArtifactStore.ReconcileOnStartup` | crates/gpq-worker/src/artifacts.rs:325-368 | Keeps exactly the available directories and reports every entry in its list |
| `StoreSafety.SlotStepInv` | crates/gpq-worker/src/artifacts.rs:202-368 | Every file step of publishing and removing keeps the per-Artifact invariant |
| `StoreSafety.RunInv` | crates/gpq-worker/src/artifacts.rs:202-368 | So does any interleaving of steps and crashes |
| `StoreSafety.KeptIsComplete` | crates/gpq-worker/src/artifacts.rs:325-368 | After any steps and crash, what a scan keeps matches its manifest in length and digest and has no part file |
| `StoreSafety.PublishedSurvivesIff` | crates/gpq-worker/src/artifacts.rs:341-366 | An output whose publish returned and whose removal had not begun survives with its manifest if and only if the scan's reads do not fail on it |
| `StoreSafety.ReconcileIsIdempotent` | crates/gpq-worker/src/artifacts.rs:325-368 | A second scan reports everything available and removes nothing |
| `StoreSafety.ReconcileSurvivesCrash` | crates/gpq-worker/src/artifacts.rs:325-368 | A scan that only cut directories it would remove leaves to the next one what one complete scan would have kept |
| `StoreSafety.ScanCutsShort` | crates/gpq-worker/src/artifacts.rs:325-368 | Any run of a scan's file steps and crashes has only cut such directories |
| `StoreSafety.CrashedScansChangeNothing` | crates/gpq-worker/src/artifacts.rs:325-368 | After any history and a crash, scans that crash part-way leave to the next complete one what the first would have kept |
| `StoreSafety.ReportPartitions` | crates/gpq-worker/src/artifacts.rs:346-366 | The three lists split the entries, available exactly on the kept ones |
| `StoreSafety.LostWasBeingRemoved` | crates/gpq-worker/src/artifacts.rs:355-359 | A manifest without data is only found where a removal had begun |
| `StoreColumns.KeptIff` | crates/gpq-worker/src/artifacts.rs:341-366 | A scan keeps a directory if and only if its manifest can be read and its data is seen, and leaves it as it is |
| `StoreColumns.ReportedIff` | crates/gpq-worker/src/artifacts.rs:341-366 | Lost are exactly readable manifests without data, incomplete exactly directories without a readable manifest |
| `StoreColumns.ExpiredIff` | crates/gpq-worker/src/artifacts.rs:289-320 | A directory expires if and only if its completion is at least the limit ago |
| `StoreColumns.PublishedExpiresIff` | crates/gpq-worker/src/artifacts.rs:289-320 | After any run, an output not being removed expires if and only if its own publication is that long ago |
| `StoreColumns.RemovalBeginsIff` | crates/gpq-worker/src/artifacts.rs:276-366 | Any directory can be removed; a scan begins only on one that it does not keep and that nothing is being published to |
| `StoreColumns.OnlyRemovalsRemove` | crates/gpq-worker/src/artifacts.rs:276-366 | Files go only while a removal is under way, and the directory only when it is empty |
| `StoreColumns.RemovalCompletesIff` | crates/gpq-worker/src/artifacts.rs:276-282 | In whatever order the files go, the directory goes if and only if every file in it has |
| `StoreColumns.VerifiedIff` | crates/gpq-domain/src/artifact.rs:121-135 | A manifest accepts exactly its size and digest, and the size is compared first |
| `Models.U64RoundTrip` | crates/gpq-worker/src/models.rs:417-422 | The 8-byte big-endian length reads back |
| `Models.UnframeFrames` | crates/gpq-worker/src/models.rs:408-426 | Reading the frames back yields the files |
| `Models.FramesUnframe` | crates/gpq-worker/src/models.rs:408-426 | Whatever reads back as frames is the framing of the files read |
| `Models.PreimageIsInjective` | crates/gpq-worker/src/models.rs:408-458 | Equal hasher input means equal lists of paths and contents |
| `ModelTree.FilesDetermineTree` | crates/gpq-worker/src/models.rs:352-401 | The list of relative paths and contents determines the directory tree, empty directories aside |
| `ModelTree.SamePreimageIff` | crates/gpq-worker/src/models.rs:352-458 | Two directories give the same hasher input if and only if they agree up to empty directories |
| `Models.RacedSizeIsAmbiguous` | crates/gpq-worker/src/models.rs:418-423 | A file that has grown since its size was read can make the stream that of another directory |
| `Models.RacedFramesAgreeIff` | crates/gpq-worker/src/models.rs:417-426 | With sizes read earlier than the contents, the stream is that of the contents read if and only if every size is still true |
| `Models.RacedStreamReadsAs` | crates/gpq-worker/src/models.rs:408-426 | Such a stream is the digest input of a directory if and only if it reads back as it, and reads back as the contents hashed if and only if every size is still true |
| `Models.FeedDirectory` | crates/gpq-worker/src/models.rs:408-458 | The digest loops feed exactly the framed stream whatever the read sizes |
| `Models.HashCache.HashModel` | crates/gpq-worker/src/models.rs:62-86 | Result and cache file of one call, errors and failed saves included |
| `Models.CacheIsFromHistory` | crates/gpq-worker/src/models.rs:62-86 | Every cached entry is the fingerprint and digest of an earlier call's asset |
| `Models.CacheRefinesRehashing` | crates/gpq-worker/src/models.rs:62-86 | If equal metadata implies equal material, every successful call returns the current digest, whatever the cache held |
| `Models.SecondCallIsRightIff` | crates/gpq-worker/src/models.rs:70-76 | A second call is right if and only if an equal fingerprint comes with an equal digest |
| `WebM.VideoTimestampInRange` | crates/gpq-inference/native/media.cpp:169-177 | Every nameable frame has a timestamp within the signed 64-bit range |
| `WebM.VideoTimestampsIncrease` | crates/gpq-inference/native/media.cpp:169-177 | Frame timestamps strictly increase up to 240 fps |
| `WebM.FrameIsOnTime` | crates/gpq-inference/native/media.cpp:169-177 | A frame's timestamp is the nanosecond nearest to its place |
| `WebM.PacketIsOnTime` | crates/gpq-inference/native/media.cpp:435-456 | A packet's timestamp is exactly the time of the samples before it at 48 kHz |
| `WebM.PacketsFitExactly` | crates/gpq-inference/native/media.cpp:596-605 | Packets = pre-skip + output samples + padding in 0..959, and no 64-bit product wraps |
| `WebM.PlanSucceedsIff` | crates/gpq-inference/native/media.cpp:538-605 | For counts a caller can pass, planning succeeds if and only if the audio has a usable rate and is within one video frame of the video; no later range check can fail |
| `WebM.PlanSucceedsInNumbers` | crates/gpq-inference/native/media.cpp:538-605 | In numbers: 1 to 240 fps, 8 to 192 kHz, at least one sample at 48 kHz, and nearest lengths at most one frame apart |
| `WebM.TrimRoundTrip` | crates/gpq-inference/native/media.cpp:457-463 | DiscardPadding and CodecDelay in nanoseconds round back to the exact sample count |
| `WebM.TrimInRange` | crates/gpq-inference/native/media.cpp:640-642 | The conversion does not wrap for a 16-bit count |
| `WebM.PlaysExactly` | crates/gpq-inference/native/media.cpp:456-475 | A player that skips the codec delay and drops the padding of the last packet plays exactly the video's length in samples |
| `WebM.FillPacket` | crates/gpq-inference/native/media.cpp:435-447 | The input loop fills the buffer with the packet's samples and silence after the end |
| `WebM.PacketsCarryAudio` | crates/gpq-inference/native/media.cpp:435-447 | All packets together hold each sample once, in place, then silence |
| `WebM.NextEmission` | crates/gpq-inference/native/media.cpp:674-686 | One decision in 64-bit arithmetic picks the exact next frame or packet |
| `WebM.MergeTracks` | crates/gpq-inference/native/media.cpp:672-701 | The loop ends with every frame and packet once, ascending by time with video first on ties |
| `WebM.MergeIsUnique` | crates/gpq-inference/native/media.cpp:672-701 | Only one such order exists |
| `WebM.TracksStayInOrder` | crates/gpq-inference/native/media.cpp:672-701 | Indices of each track ascend, timestamps never decrease, equal ones are video before audio |
| `WebM.OpusHeadFields` | crates/gpq-inference/native/media.cpp:643-653 | The header is that of section 5.1 of RFC 7845, and its pre-skip is exact if and only if the lookahead fits 16 bits |
| `Riff.WalkChunks` | crates/gpq-inference/native/media.cpp:377-406 | The loop ends, indexes only in bounds, and computes the walk |
| `Riff.WalkInBounds` | crates/gpq-inference/native/media.cpp:377-406 | What is found lies inside the declared end |
| `Riff.WalkFindsFirst` | crates/gpq-inference/native/media.cpp:390-397 | After any other chunks, the first VP8 chunk is found with exactly its payload |
| `Riff.WalkFoundMeans` | crates/gpq-inference/native/media.cpp:383-405 | Whatever is found lies behind a serialised list of other chunks and a VP8 header giving its size |
| `Riff.FileRoundTrip` | crates/gpq-inference/native/media.cpp:371-406 | For any file serialised from chunks with odd-size padding, exactly the first VP8 payload is returned |
| `Riff.FileWithoutVp8` | crates/gpq-inference/native/media.cpp:377-412 | A file without a VP8 chunk is rejected |
| `Riff.ExtractFrame` | crates/gpq-inference/native/media.cpp:369-421 | A frame is passed on if and only if it is a keyframe of the expected size (section 9.1 of RFC 6386) |
| `Riff.TagsAreLetters` | crates/gpq-inference/native/media.cpp:371-390 | The bytes compared are those of the letters RIFF, WEBP and VP8 with a blank |
| `Riff.HeaderReadsBack` | crates/gpq-inference/native/media.cpp:406-419 | A header written for a size (section 9.1 of RFC 6386) reads back as that size, and as a keyframe if and only if its tag says so |
| `Riff.KeyframeHasHeader` | crates/gpq-inference/native/media.cpp:406-419 | Whatever counts as a keyframe starts with the header written for the size read from it |
| `Riff.FrameAcceptedIff` | crates/gpq-inference/native/media.cpp:369-421 | From file to frame: accepted if and only if the first VP8 chunk starts with a keyframe header of the expected size |
| `Riff.AcceptedMeans` | crates/gpq-inference/native/media.cpp:371-406 | Whatever is accepted lies in a RIFF file of kind WEBP, inside its declared and present size |
| `Infer.NextInv` | crates/gpq-worker/src/infer.rs:68-126 | Every step keeps: an active job holds the permit, native code runs only the active job, a cancelled one keeps being retried |
| `Infer.RegistrationSucceeds` | crates/gpq-worker/src/infer.rs:85-104 | Registration cannot fail after a successful acquire |
| `Infer.KnocksOnlyMarkedJobs` | crates/gpq-worker/src/infer.rs:357-392 | Native cancellation only reaches the run of the named job while it is active and marked |
| `Infer.RetryCoversWindow` | crates/gpq-worker/src/infer.rs:369-389 | A job cancelled between the first check and native code is reached by its next retry |
| `Infer.MarkedIffNamed` | crates/gpq-worker/src/infer.rs:112-117 | Over any run, a job is marked while active if and only if a cancel naming its id came since it was registered |
| `Infer.UnnamedIsNeverKnocked` | crates/gpq-worker/src/infer.rs:357-392 | Over any run, a job that no cancel names since is never reached natively, whatever retries of earlier jobs are left over |
| `Infer.CancelIsSeen` | crates/gpq-worker/src/infer.rs:479-494 | A cancel that names the active job before its terminal check is seen by one of the two checks |
| `Infer.ReleaseIsTruthful` | crates/gpq-worker/src/infer.rs:348-352 | When both reads of `/release` succeed, nothing is active or running at the second |
| `Infer.JobSlot.MarkCancelled` | crates/gpq-worker/src/infer.rs:112-117 | Marks exactly the named active job and tells whether that is new |
| `Infer.JobSlot.Register` | crates/gpq-worker/src/infer.rs:85-104 | Registers exactly when nothing is active |
| `Infer.JobSlot.DropGuard` | crates/gpq-worker/src/infer.rs:119-126 | Clears the active job only if it is the guard's |
| `Infer.ExecuteBlocking` | crates/gpq-worker/src/infer.rs:473-539 | Whatever the receiver does, it gets a prefix of the intended events |
| `Infer.TerminalIffRoom` | crates/gpq-worker/src/infer.rs:527-539 | Exactly one terminal event, last, if and only if the terminal send succeeds |
| `Infer.CancelledEmitsNoOutput` | crates/gpq-worker/src/infer.rs:479-494 | An execution one of whose checks saw a cancellation emits no output and, with room, reports it |
| `Infer.CancelSuppressesOutput` | crates/gpq-worker/src/infer.rs:357-494 | So over any run a job cancelled by name before its terminal check emits no output |
| `Infer.CompleteIff` | crates/gpq-worker/src/infer.rs:490-516 | Complete is reported if and only if generation succeeded uncancelled with every output valid and the receiver stayed |
| `Infer.EndsAsIff` | crates/gpq-worker/src/infer.rs:479-539 | How an execution ends, and under which kind each native error and an invalid output are reported |
| `Infer.OutputsUntilInvalid` | crates/gpq-worker/src/infer.rs:496-514 | Outputs are emitted in order up to the first that is not valid |
| `Infer.ProgressIsFinite` | crates/gpq-worker/src/infer.rs:484-488 | Progress is reported for exactly the finite fractions, in order |
| `Infer.EarlyCancelPreventsStart` | crates/gpq-worker/src/infer.rs:479-482 | Over any run, a job cancelled by name before its first check never enters native code |
| `Infer.FreePermitStarts` | crates/gpq-worker/src/infer.rs:433-470 | After any run, a job gets to native code, undisturbed, if and only if the permit is free |
| `Infer.GeneratingEnds` | crates/gpq-worker/src/infer.rs:490-541 | After any run, a job whose generation returns concludes as its mark says and leaves permit and slot free |
| `Infer.CancelReachesNative` | crates/gpq-worker/src/infer.rs:357-368 | A cancel that names the generating job reaches native code at once, marks the job and starts to retry |
| `Infer.IdleCancelChangesNothing` | crates/gpq-worker/src/infer.rs:357-392 | A cancel for another job changes nothing, and a retry whose job is over only ends |
| `Infer.RefusedJobEnds` | crates/gpq-worker/src/infer.rs:455-482 | After any run, a job with an invalid request, or found cancelled, gives permit and slot back without native code |
| `Text.TrimView` | crates/gpq-inference/native/bridge.cpp:442-450 | The shrinking loops trim both ends |
| `Text.SplitJoin` | crates/gpq-inference/src/lib.rs:655-668 | Splitting a joined list of comma-free parts gives the parts |
| `BackendSpec.ResolvedIsFixed` | crates/gpq-inference/src/lib.rs:705-741 | A resolved device is an enumerated name that resolves to itself |
| `DeviceRules.ResolveDeviceIff` | crates/gpq-inference/src/lib.rs:705-741 | A text names the first device of that name in any case, or, only where there is none, the first one that metal, vulkan or cuda stand for |
| `DeviceRules.ParamItemAcceptedIff` | crates/gpq-inference/src/lib.rs:641-668 | An item is accepted if and only if it has a known selector or none, and the disk or a named device |
| `DeviceRules.ParamsBackendAcceptedIff` | crates/gpq-inference/src/lib.rs:637-669 | An assignment is accepted if and only if it is not blank and every item is, and lists them in order |
| `DeviceRules.LimitAcceptedIff` | crates/gpq-inference/src/lib.rs:684-701 | A limit is accepted if and only if its device is named and not yet taken and its amount finite |
| `DeviceRules.MaxVramAcceptedIff` | crates/gpq-inference/src/lib.rs:671-703 | A memory limit is accepted if and only if it is not blank and either one positive number, or finite amounts for named devices, none twice; the result lists them in order |
| `DeviceRules.LastDefaultCounts` | crates/gpq-inference/native/bridge.cpp:460-495 | Of several parts that give the default, bare or under a key in any case, the last one counts |
| `DeviceRules.LastDiffusionCounts` | crates/gpq-inference/native/bridge.cpp:460-495 | So it is for the diffusion backend and its four keys |
| `DeviceRules.DiffusionIsPreferred` | crates/gpq-inference/native/bridge.cpp:493-495 | The parser returns the diffusion backend unless that is empty, else the default |
| `DeviceRules.SpacesAre` | crates/gpq-inference/native/bridge.cpp:442-450 | What is trimmed is blank, tab, line feed, vertical tab, form feed and carriage return |
| `DeviceRules.TrimCuts` | crates/gpq-inference/native/bridge.cpp:442-450 | Trimming cuts spaces from both ends, and all of them |
| `DeviceRules.JoinSplit` | crates/gpq-inference/src/lib.rs:655-668 | Splitting at commas loses nothing |
| `BackendSpec.BackendAssignment` | crates/gpq-inference/src/lib.rs:555-573 | The growing text is the joined list of resolved entries, or the first error of default and overrides in order |
| `BackendSpec.DiffusionBackend` | crates/gpq-inference/native/bridge.cpp:460-495 | The consuming loop picks what applying the trimmed parts in order gives |
| `BackendSpec.PrinterAndParserAgree` | crates/gpq-inference/native/bridge.cpp:460-495 | The parser picks the resolved diffusion override when there is one, the resolved default otherwise |
| `BackendSpec.OverridesAgree` | crates/gpq-inference/src/lib.rs:564-572 | With overrides this holds for names without comma or surrounding space, equals signs included |
| `BackendSpec.OverrideAgreesIff` | crates/gpq-inference/src/lib.rs:564-572 | A name printed as default and override is read back if and only if it has no comma and no surrounding space |
| `BackendSpec.AllOverridesAgreeIff` | crates/gpq-inference/src/lib.rs:555-573 | All configurations with overrides over some device names agree if and only if every name is such |
| `BackendSpec.AllConfigurationsAgreeIff` | crates/gpq-inference/src/lib.rs:555-573 | All configurations, plain defaults included, agree if and only if no name has an equals sign either |
| `BackendSpec.DefaultAgreesIff` | crates/gpq-inference/src/lib.rs:560-563 | Alone, a name is read back if and only if it has no comma, equals sign or surrounding space |
| `BackendSpec.CommaSmugglesOverride` | crates/gpq-inference/native/bridge.cpp:460-495 | A comma in an override's device name yields a diffusion backend that was never configured |
| `BackendSpec.ConfigurationsAgree` | crates/gpq-inference/src/lib.rs:555-573 | From selectors to parsed backend, for devices with clean names |
| `Validators.ValidateParamsBackend` | crates/gpq-inference/src/lib.rs:637-669 | The collecting loop computes the normalised assignment or the first error |
| `Validators.ParamsBackendIsFixed` | crates/gpq-inference/src/lib.rs:637-669 | Validating a normalised residency assignment returns it unchanged where no device name has an equals sign or is blank |
| `Validators.ParamItemIsFixedIff` | crates/gpq-inference/src/lib.rs:641-668 | An item's normal form validates to itself if and only if the item has no leading equals sign, or its device no equals sign, or the device reads as a selected device itself |
| `Validators.ParamsBackendIsFixedIff` | crates/gpq-inference/src/lib.rs:637-669 | Validating a normalised assignment returns it unchanged if and only if it is not blank and every item is of that kind, whatever the devices are called |
| `Validators.EqualsSignIsNotFixed` | crates/gpq-inference/src/lib.rs:637-669 | A device named like an assignment to an unknown selector is accepted after an equals sign, and the normal form is rejected |
| `Validators.ValidateMaxVram` | crates/gpq-inference/src/lib.rs:671-703 | The collecting loop computes the normalised limits or the first error |
| `Validators.MaxVramIsFixed` | crates/gpq-inference/src/lib.rs:671-703 | Validating a normalised memory limit returns it unchanged, whatever the devices are called |
| `Validators.LimitsAreDistinct` | crates/gpq-inference/src/lib.rs:684-693 | Accepted limits name as many distinct enumerated devices as entries |

## Left out

- Async runtime, sockets, HTTP, Connect and protobuf conversion, LISTEN/NOTIFY, S3 and presigned transfers: plumbing.
- The delivery channel map (`subscribe_delivery`, `push_delivery`, `end_delivery`): any push, stale ones included, is an arbitrary input of the download, which covers every content of the map.
- `commit_offset` on a row that is no longer delivering updates nothing and still counts as persisted in the source; the model's committed offset then differs from the row.
- Worker ownership and lease expiry in the Attempt transactions: they only turn an event into one that changes nothing. Lease times, heartbeats and deadlines are not modelled.
- The capability rows behind `any_candidate_remains`: the retry decision takes its answer as an input.
- The limit on the number of fetched candidates: the candidate list is any list with distinct ids.
- Deletion of Generations and of Workers other than through their pools.
- Overtaking.OvertakingIsBounded: counts committed leases; assignments that fail (no free slot, send refused) are not bounded by anything in the source. Companions of a batch larger than one are ordered by priority and are not covered by the starvation guard.
- Database.Remote.TryAssignLease: `build_lease_assignment` and the event log rows are left out; their errors roll back like a refused send.
- The async operations of the pool supervisor are transitions between state-lock sections rather than methods, because lease drops and dropped futures come between them; the sections themselves are methods. Unready reasons, probes and timestamps are left out.
- PoolSafety.OneChildPerPool: spawning is one step, so a spawn interrupted inside the process module is not covered.
- StoreSafety.KeptIsComplete: crashes of the process, not power loss; the source does not flush to stable storage. Entries of the root whose names are no Artifact ids are skipped by the source and do not appear.
- Models.CacheRefinesRehashing: assets do not change during a call. Metadata, symbolic links and cancellation are one optional reading of the asset; directory listings appear already sorted.
- WebM.PacketsFitExactly: `rounded_sample_count` can hand `llround` a value above the signed 64-bit range for absurd audio lengths; rounding is exact here. Sample values, encoders, the muxer and the resampler are foreign.
- Validators.ValidateMaxVram: number syntax is a parameter; Unicode spaces do not count as blank.
- Infer.ExecuteBlocking: forwarding of the events to the client, and panics inside native generation.
- Process groups, credentials, telemetry, CLI, console and build scripts.
