# Proofs about the hub stores and the release scripts

This project models the durable transactional stores of `hub/src` and the algorithmic and log
cores of `scripts`, and proves what they keep over every run.

Each Durable Object transaction is one atomic step. A store therefore appears twice: as pure step
functions on the values it keeps, over which a run is any sequence of commands, and as a class
whose methods rewrite the same fields with the source's own control flow. Every such method is
proved to make exactly the step of its step function; the theorems are about all runs of the steps. The
`Laws` modules say what each step answers and writes in any consistent store in the caller's terms, branch
by branch and field by field, so that neither a method nor its step function is the only word on an
operation.

| component | modules |
|---|---|
| executor operation store: lanes, queue, index, watchdog | ExecutorModel, ExecutorSafety, ExecutorProgress, ExecutorEdges, ExecutorPromotion, ExecutorLaws, ExecutorStore |
| provider operation store and the dispatch body that drives it | ProviderModel, ProviderSafety, ProviderEdges, ProviderAttempts, ProviderBodies, ProviderHolding, ProviderLaws, ProviderStore |
| KV migration store | MigrationModel, MigrationSafety, MigrationLaws, MigrationStore |
| host authorization store | HostAuthorization, HostLaws, HostAuthorizationStore |
| release transaction journal | ReleaseJournal, ReleaseJournalSafety, ReleaseJournalLaws, ReleaseJournalFile |
| inventory Merkle root | Merkle |
| duplicate-name JSON scanner | JsonText, JsonScan, JsonProofs, JsonLaws, JsonScanner |
| replay store and envelope verifier | ReplayModel, ReplaySafety, ReplayLaws, ReplayStore |
| candidate Git control executor | GitControlModel, GitControlSafety, GitControlFailures, GitControlDenial, GitControlProvider |
| sync runs | SyncRunModel, SyncRunSafety, SyncRunLaws, SyncRunStore |
| length-prefixed envelope encoding | LengthPrefix, TextBytes, EnvelopeContext |

`dafny verify dfyconfig.toml` checks the whole project.

## How the source is read

- Identifiers, keys and run ids are naturals. The code compares them for equality and by a total
  order only, and identifiers of bounded length are finitely many, so a natural is the rank of an
  identifier in that order. Digests, tokens and object ids are naturals compared for equality.
- Times are integer milliseconds. The time a step decides on is a parameter of it; it is assumed
  not to go back only where a statement says `Ordered`.
- A replay caller captures its time before the awaits that precede the transaction
  (hub/src/private-executor-handler.ts:107), so replay events carry the captured time and the
  commit time; `Clocked` says that captures precede commits and commits are in order.
- SHA-256, signatures and canonical JSON are function-valued parameters. `CollisionFree` and
  `Canonical` state what is trusted of them and are required only by the lemmas that need them.
- Records, index, queue and lane keys are separate maps. The source keeps them under one key
  prefix, so the executor and provider theorems speak of operation ids other than the reserved
  words `active` and `queue` (hub/src/executor-operation-store.ts:16-24,
  hub/src/provider-operation-store.ts:6).
- A thrown error aborts its transaction: the step returns the old store and an error reply.
- Git is modelled with an adversarial network: a push once sent may reach the remote at any later
  time, repeatedly or never, its answer may be lost, and other writers may move any ref the
  capability does not bind. As in Git, a lease is not looked at for a ref that already has the
  wanted value.

## What the proofs found

- A journal transition may carry the event id `init`; it is accepted and written
  (`ReservedEventBricksTheJournal`), and from then on no call changes a byte and no load ever succeeds
  (`ReservedEventIsForever`). Over all sequences of calls the file is refused exactly when one of them
  was such a transition (`RunIsRefusedExactly`).
- A repeated tombstone authorization answers `authorized` without looking at the number of zero
  scans it was asked for (`RepeatAuthorizationSkipsTheCount`). This happens exactly for a migration
  already authorized with the same window (`UnbackedAuthorizationExactly`).
- Context bytes identify two parameter names that differ only in which unpaired surrogate they hold,
  because text encoding replaces each by U+FFFD (`LoneSurrogatesCollide`); the exact condition is
  `ContextBytesExactly`. An envelope that was actually created is not affected, because its source
  reference must be printable ASCII (`CreatedEnvelopeBindsItsContext`).
- The MAC input refuses some plaintexts that the creator's own size check admits
  (`SomeAdmittedPlaintextIsRefused`): exactly those longer than the limit less the additional data
  and 8 bytes (`AdmittedPlaintextIsRefusedExactly`).
- The first check of the Git executor reads the completion ref before the claim ref, so a claim that
  lands between these two reads makes the loser report an inconsistent remote although the refs
  never are (`RaceReportsInconsistency`, against `OneClaimLandsWhole`). On a clean remote that is
  exactly when it does (`FailureTellsWhenTheClaimLanded`).
- A push can be reported as denied while it is still underway (`DenialMayComeTooSoon`). If it lands
  later the transaction is complete and no executor will ever emit its readback
  (`DeniedPushMayCompleteSilently`). Denial is reported exactly when the executor's own claim had not
  landed before its first confirming read (`DeniedExactly`), and a landed claim can still be read back
  exactly when it had (`ReadbackCanComeExactly`).
- Two dispatch bodies can hold claims of one operation at once: the second captured its time before
  the deadline and claims after a tick and a replay (`TwoBodiesMayHold`). `SecondHolderExactly` says
  when, and `OneLiveBody` that it never happens when claims are no earlier than the ticks before them
  and outcomes are recorded by their own bodies.
- A replayed envelope can be accepted a second time although the clock only goes forward: the second
  call captures its time before the expiry and commits after a sweep at the expiry
  (`LateCommitIsAcceptedAgain`). A scope reopens exactly by such a sweep (`ReopenedExactly`), and a
  call that commits before the expiry never gets a second acceptance (`EnvelopeAcceptedAtMostOnce`).
- An empty sync run id is taken for no run at all (`EmptyIdIsForgotten`); two runs are started at
  once exactly when a start comes beside it (`TwoStartedExactly`). The callers draw random ids
  (hub/src/container.ts:280-281, hub/src/store.ts:191), so the other sync theorems take ids to be
  fresh and nonempty.
- Host generations increase strictly but need not be consecutive, and the chain is stated that way.
- A migration read is fenced by the stored epoch, not by the epoch the caller names, so read fencing
  is stated about superseded migrations.
- A provider start after success is not promised to return the existing operation: verification
  rewrites the generation reference that a restart is compared with.

## Model

| member | source | states |
|---|---|---|
| ExecutorSafety.ReachableStoreIsConsistent | hub/src/executor-operation-store.ts:146-531 | In every reachable store the index is exactly the executing operations, the queue exactly the queued ones, together at most 256; a lane has at most one exclusive holder, every lane key names it, and queued work always has a held lane |
| ExecutorSafety.RunKeepsInv | hub/src/executor-operation-store.ts:146-531 | The full invariant, index, queue and lane keys, survives every interleaving of transactions from any store that has it |
| ExecutorProgress.TerminalIsFinal | hub/src/executor-operation-store.ts:238-497 | No transaction rewrites a succeeded, failed or reconciliation record |
| ExecutorProgress.TickLowersWeight | hub/src/executor-operation-store.ts:407-497 | Past every deadline plus 15 minutes, a tick lowers the store's weight (queued 3, active 2, timed out or cancelling 1) by at least the size of the index |
| ExecutorProgress.TicksDrainTheStore | hub/src/executor-operation-store.ts:407-531 | Watchdog ticks alone empty index and queue of any reachable store: as many ticks as the store weighs suffice |
| ExecutorProgress.NoOvertaking | hub/src/executor-operation-store.ts:499-531 | Under a nondecreasing clock the exclusive holder of a lane was never created after an operation queued on that lane |
| ExecutorEdges.NoneIsOvertaken | hub/src/executor-operation-store.ts:146-531 | Whatever the clock does, no step of a consistent store gives an exclusive operation its lane while one of the same lane that was created strictly earlier is queued |
| ExecutorEdges.NoOvertakingAtAnyStep | hub/src/executor-operation-store.ts:146-531 | The same for every step of every run, with no assumption on the clock |
| ExecutorEdges.EdgesHaveCauses | hub/src/executor-operation-store.ts:146-531 | Every status change is in an explicit table of command, earlier record and new status, with its invocation and deadline conditions; which queued operation is promoted is said by PromotedExactly |
| ExecutorEdges.CausesTakeEffect | hub/src/executor-operation-store.ts:146-497 | Conversely, every entry of the table is carried out on an operation that is not queued |
| ExecutorPromotion.PromotedExactly | hub/src/executor-operation-store.ts:273-531 | In a consistent store a queued operation is promoted exactly when the step stops the exclusive holder of its lane and no other operation queued there precedes it by creation time, then id |
| ExecutorEdges.AdmissionIsExact | hub/src/executor-operation-store.ts:146-236 | A new operation is refused only for an untimely deadline or a full store; it queues last exactly when it is exclusive and somebody executes exclusively in its lane, and otherwise starts and is indexed |
| ExecutorLaws.NewOperationLaw | hub/src/executor-operation-store.ts:146-236 | The exact reply, record, index, queue and lane keys of a begin with a new id: invalid outside the 15 minutes, unavailable from 256 on, queued behind a running exclusive operation of the lane, started otherwise |
| ExecutorLaws.KnownOperationLaw | hub/src/executor-operation-store.ts:146-236 | The exact reply and record of a begin with a known id: conflict exactly when fingerprint, schedule or exclusiveness differ, joined under its own invocation, taken over exactly when it runs without one, shown as it is otherwise |
| ExecutorLaws.StartedCanComplete | hub/src/executor-operation-store.ts:146-363 | Whoever is told that the operation started can complete it under that invocation, whether it was new, promoted or had timed out, and it ends succeeded or failed as completed |
| ExecutorLaws.TimeoutLaw | hub/src/executor-operation-store.ts:238-271 | A timeout is kept as the invocation's outcome unless it has one, and moves the record, field by field, exactly when the operation is active under that invocation |
| ExecutorLaws.CancelLaw | hub/src/executor-operation-store.ts:387-405 | A cancel moves exactly active and timed-out operations, keeps their invocation and raises an alert if there is none |
| ExecutorLaws.CompletionLaw | hub/src/executor-operation-store.ts:273-363 | A completion of a known operation answers it as it is when finished, a mismatch exactly without the running invocation, and otherwise finishes it with every other field kept, out of the index, and changes no record that was not queued |
| ExecutorLaws.TickLaw | hub/src/executor-operation-store.ts:407-497 | What a tick makes of every single record, field by field: timed out at the deadline, handed to reconciliation a quarter of an hour later, promoted with a fresh start time and no invocation, or unchanged |
| ExecutorLaws.TickReportsLaw | hub/src/executor-operation-store.ts:407-497 | The tick reports exactly the operations it timed out and those it stopped |
| ExecutorLaws.AlarmIsWhenATickActs | hub/src/executor-operation-store.ts:805-809 | The alarm of an executing operation is the first time at which a tick would change it |
| ExecutorStore.OperationStore.BeginOperation | hub/src/executor-operation-store.ts:146-236 | The begin transaction makes exactly the begin step: new store and reply |
| ExecutorStore.OperationStore.RecordInvocationTimeout | hub/src/executor-operation-store.ts:238-271 | The timeout transaction makes exactly the timeout step |
| ExecutorStore.OperationStore.CompleteOperation | hub/src/executor-operation-store.ts:273-363 | The completion transaction makes exactly the completion step, lane handover included |
| ExecutorStore.OperationStore.RequestCancellation | hub/src/executor-operation-store.ts:387-405 | The cancel transaction makes exactly the cancel step |
| ExecutorStore.OperationStore.NextQueued | hub/src/executor-operation-store.ts:499-515 | The queue scan returns the candidate of the lane that no other candidate precedes by creation time, then id |
| ExecutorStore.OperationStore.Release | hub/src/executor-operation-store.ts:499-531 | Releasing a lane deletes its key and promotes that candidate; the index grows by it and no other record changes |
| ExecutorStore.OperationStore.SweepIndex | hub/src/executor-operation-store.ts:411-466 | The index loop ends with the swept records, the marked, stopped and remaining ids, and the least due time over what remains |
| ExecutorStore.OperationStore.ReleaseStopped | hub/src/executor-operation-store.ts:468-486 | The second loop hands the lanes of all stopped operations on, in order, and keeps the least due time exact |
| ExecutorStore.OperationStore.RunWatchdog | hub/src/executor-operation-store.ts:407-497 | One tick makes exactly the watchdog step; the next alarm is absent exactly when the index is empty and otherwise the greater of now+1 and the least due time left in it |
| ProviderSafety.RunKeepsInv | hub/src/provider-operation-store.ts:304-684 | Fences, index and record facts survive every interleaving of transactions |
| ProviderSafety.OneUnresolvedPerTarget | hub/src/provider-operation-store.ts:304-684 | In every reachable store a target has at most one unresolved operation, and that operation owns the target's fence |
| ProviderSafety.SuccessIsBacked | hub/src/provider-operation-store.ts:542-620 | Every succeeded operation was claimed, completed strictly before its deadline, and holds passed canary, passed postconditions and a state oid |
| ProviderSafety.TerminalIsFinal | hub/src/provider-operation-store.ts:304-684 | A terminal record is frozen for the rest of any run |
| ProviderSafety.CancelIsIrrevocable | hub/src/provider-operation-store.ts:482-540 | After an accepted cancel every later status is cancel_requested, cancel_needs_reconciliation, cancelled or superseded |
| ProviderSafety.WatchdogLeavesNothingOverdue | hub/src/provider-operation-store.ts:621-684 | After a tick no prepared, dispatching, awaiting or cancelling operation is at or past its deadline, all of them are indexed and nothing terminal is, even with no prefix listing |
| ProviderEdges.EdgesHaveCauses | hub/src/provider-operation-store.ts:304-684 | Every status change of any store is in an explicit table by command, capability, deadline, response, nonce and binding |
| ProviderEdges.CausesTakeEffect | hub/src/provider-operation-store.ts:304-684 | Conversely every entry of the table is carried out in a consistent store, so the table is exactly what the six transactions do to statuses |
| ProviderLaws.StartLaw | hub/src/provider-operation-store.ts:304-355 | The exact answer and store of a start: a known id is existing exactly when all start fields agree one by one and a conflict otherwise; a new id is fenced exactly by the unresolved operation of its target, and otherwise prepared with that request, fence and index entry |
| ProviderLaws.ClaimLaw | hub/src/provider-operation-store.ts:357-411 | A claim wins exactly a prepared, unblocked operation with time left, and gives it this invocation and one more attempt; a blocked or overdue one fails with that reason |
| ProviderLaws.OutcomeLaw | hub/src/provider-operation-store.ts:413-480 | Which outcomes are refused, repeated, in conflict or unknown, and every field of the record that an accepted one leaves |
| ProviderLaws.DecisionLaw | hub/src/provider-operation-store.ts:482-540 | A decision is applied exactly when it is trusted, within a quarter of an hour either way, names the operation as it stands, has an unused nonce and is permitted to its capability and status; the record is given for each action |
| ProviderLaws.VerificationLaw | hub/src/provider-operation-store.ts:542-620 | A verification is taken exactly of an awaiting or cancelling operation whose observed state it saw; it succeeds exactly in time, uncancelled and with both checks passed, and then records the last success |
| ProviderLaws.TickLaw | hub/src/provider-operation-store.ts:621-684 | What a tick makes of every single record, which operations stay indexed, and exactly which it reports as expired and as reconciled |
| ProviderLaws.TickFenceLaw | hub/src/provider-operation-store.ts:621-684 | A tick opens exactly the fences of the operations it fails |
| ProviderAttempts.AttemptsAreBounded | hub/src/provider-operation-store.ts:357-411 | The attempt number counts the successful claims and is at most 1 plus the applied replay_once decisions, at most 1 for native_cas and 0 for blocked |
| ProviderAttempts.ClaimsMeetTheDeadline | hub/src/provider-operation-store.ts:357-411 | Every claim of a run carries a time strictly before the deadline its operation shows for the rest of the run, and a blocked operation is never claimed |
| ProviderAttempts.NonceActsOnce | hub/src/provider-operation-store.ts:482-540 | Over any run a decision nonce takes effect at most once |
| ProviderBodies.OneWritePerClaim | hub/src/provider-executor.ts:371-481 | Over every interleaving of dispatch bodies, step by step, with each other and with other transactions, a body claims at most once and writes its target at most once, only under its own claim |
| ProviderBodies.WritesAreBounded | hub/src/provider-executor.ts:328-481 | The target writes of an operation are those of different bodies, and never exceed its attempts nor 1 plus its applied replays |
| ProviderHolding.ReclaimedExactly | hub/src/provider-executor.ts:371-400 | A claim of an operation claimed before succeeds exactly when it carries a time before the deadline and a replay since freed the operation, with no claim, due tick or cancel after it |
| ProviderHolding.SecondHolderExactly | hub/src/provider-executor.ts:371-400 | While one body holds its claim, another comes to hold the operation beside it under exactly that condition |
| ProviderHolding.OneLiveBody | hub/src/provider-executor.ts:328-481 | If claims carry times no earlier than the ticks before them and only a live body records the outcome of its invocation, two bodies are never between claim and record of one operation at once |
| ProviderHolding.TwoBodiesMayHold | hub/src/provider-executor.ts:328-481 | A run of two bodies, a tick and a replay after which both hold a claim of one operation |
| ProviderStore.OperationStore.StartOperation | hub/src/provider-operation-store.ts:304-355 | The start transaction makes exactly the start step: prepared, existing, fenced, conflict or invalid |
| ProviderStore.OperationStore.ClaimOperation | hub/src/provider-operation-store.ts:357-411 | The claim transaction makes exactly the claim step, failing blocked and overdue operations |
| ProviderStore.OperationStore.RecordDispatchOutcome | hub/src/provider-operation-store.ts:413-480 | The outcome transaction makes exactly the outcome step, replayed and conflicting outcomes included |
| ProviderStore.OperationStore.ApplyControlDecision | hub/src/provider-operation-store.ts:482-540 | The decision transaction makes exactly the decision step |
| ProviderStore.OperationStore.VerifyOperation | hub/src/provider-operation-store.ts:542-620 | The verification transaction makes exactly the verification step |
| ProviderStore.OperationStore.Sweep | hub/src/provider-operation-store.ts:625-676 | The watchdog loop ends with the expired records, opened fences, kept index, reported ids and least deadline |
| ProviderStore.OperationStore.RunWatchdog | hub/src/provider-operation-store.ts:621-684 | One tick makes exactly the watchdog step; the next alarm is absent exactly when the index is empty and otherwise the greater of now+1 and the least deadline left in it |
| ProviderStore.DispatchResponse | hub/src/provider-executor.ts:386-481 | A dispatch reports committed exactly when preparation was usable and the target applied the write, with the target's oid; anything else is ambiguous without one |
| ProviderStore.OperationStore.DispatchBody | hub/src/provider-executor.ts:371-481 | The body is at most start, claim and outcome, going on exactly when the operation is prepared and exactly when its claim wins; it writes the target only under that claim, records what the write reported, and answers the owner's, the existing or the final status |
| MigrationSafety.ReachableLedgerIsConsistent | hub/src/kv-migration-store.ts:405-677 | Every stored record passes the validator, a prepared migration is the head, and every other one is fully acknowledged with a smaller epoch |
| MigrationSafety.ExecIsFenced | hub/src/kv-migration-store.ts:405-677 | A step never lowers the head epoch, raises it strictly when the head changes, leaves every non-head record untouched, and only grows the head's: logs append-only, window write-once, status upward |
| MigrationSafety.SupersededIsFrozen | hub/src/kv-migration-store.ts:387-390 | A superseded migration is frozen for the rest of any run and every read of it is rejected as an old epoch |
| MigrationSafety.InvalidStateOnlyForReusedScan | hub/src/kv-migration-store.ts:405-677 | In a reachable store a writing call reports invalid state exactly when it reuses a scan id with other contents: the store never rejects its own data |
| MigrationSafety.ReadsAreNeverInvalid | hub/src/kv-migration-store.ts:679-720 | A read decision of a reachable store never reports invalid state |
| MigrationSafety.AckedIffComplete | hub/src/kv-migration-store.ts:271-337 | Valid acknowledgements are as many as the rows exactly when every row has one |
| MigrationSafety.HeadRowsAreReadable | hub/src/kv-migration-store.ts:679-720 | Every bound row of the head migration is readable from v1 or from v2 in every reachable state |
| MigrationSafety.V2ReadIsBacked | hub/src/kv-migration-store.ts:679-720 | A v2 read is allowed only of the head, and only when every row has an acknowledgement with its bound digest |
| MigrationSafety.TombstoneIsPermanentAndBacked | hub/src/kv-migration-store.ts:622-677 | An authorization is permanent, its window is never changed and had passed, and a contiguous block of at least the required zero scans at or after the window backs it for ever |
| MigrationSafety.RepeatAuthorizationSkipsTheCount | hub/src/kv-migration-store.ts:622-677 | After preparing, committing, one zero scan and one authorization, a repeated call is authorized for 99 scans |
| MigrationSafety.AuthorizedVouchesWhenItDecides | hub/src/kv-migration-store.ts:622-677 | The call that decides is backed by its required count; a repeated call changes nothing |
| MigrationSafety.UnbackedAuthorizationExactly | hub/src/kv-migration-store.ts:622-677 | Some requirement is authorized unbacked exactly when the migration was already authorized with that window |
| MigrationLaws.PrepareLaw | hub/src/kv-migration-store.ts:405-467 | When a preparation is invalid, stale, a repeat or a conflict, and when it makes the given rows the new head under its epoch |
| MigrationLaws.AcknowledgeLaw | hub/src/kv-migration-store.ts:469-517 | An acknowledgement of the prepared head is applied exactly when the row is bound to that digest and has none yet; a repeat, a mismatch and an unbound key are told apart, and applying adds that acknowledgement in order and nothing else |
| MigrationLaws.ScanLaw | hub/src/kv-migration-store.ts:519-577 | When a scan is recorded, repeated or refused, and that recording appends it and nothing else |
| MigrationLaws.CommitLaw | hub/src/kv-migration-store.ts:579-620 | In a consistent store a prepared migration is committed under its epoch exactly when every row has the acknowledgement with its own digest; otherwise the answer is the number of rows that miss it |
| MigrationLaws.ReachableCommitLaw | hub/src/kv-migration-store.ts:579-620 | The same for every reachable store |
| MigrationLaws.TombstoneLaw | hub/src/kv-migration-store.ts:622-677 | A first authorization comes exactly for a committed head, an agreeing window that has come and the required number of zero scans at its end since then; every other answer and the recorded window are given |
| MigrationLaws.ReadLaw | hub/src/kv-migration-store.ts:679-720 | The exact answer for every bound row of the head, from either side and with any observed digest |
| MigrationLaws.UnboundReadLaw | hub/src/kv-migration-store.ts:679-720 | The exact answer for every key that is bound by no row |
| MigrationStore.ValidateRows | hub/src/kv-migration-store.ts:217-229 | The row loop accepts exactly the strictly ordered lists with no repeated target key |
| MigrationStore.ValidateSourceRows | hub/src/kv-migration-store.ts:231-246 | The scan-row loop accepts exactly the strictly ordered lists |
| MigrationStore.ValidateAcks | hub/src/kv-migration-store.ts:300-310 | The acknowledgement loop accepts exactly the sorted lists that bind rows with their digests |
| MigrationStore.ValidateScans | hub/src/kv-migration-store.ts:311-322 | The scan loop accepts exactly lists with increasing times, fresh ids and valid rows |
| MigrationStore.CountTrailingZerosSince | hub/src/kv-migration-store.ts:392-400 | The backward loop counts the zero scans at the end that were observed at or after a time |
| MigrationStore.ValidStoredMigration | hub/src/kv-migration-store.ts:271-337 | The structural validator accepts exactly the valid records |
| MigrationStore.KVMigrationStore.PrepareMigration | hub/src/kv-migration-store.ts:405-467 | The prepare transaction makes exactly the prepare step |
| MigrationStore.KVMigrationStore.AcknowledgeApplied | hub/src/kv-migration-store.ts:469-517 | The acknowledgement transaction makes exactly the acknowledgement step, the sorted insertion included |
| MigrationStore.KVMigrationStore.ObserveFullScan | hub/src/kv-migration-store.ts:519-577 | The scan transaction makes exactly the scan step |
| MigrationStore.KVMigrationStore.CommitMigration | hub/src/kv-migration-store.ts:579-620 | The commit transaction makes exactly the commit step |
| MigrationStore.KVMigrationStore.AuthorizeTombstone | hub/src/kv-migration-store.ts:622-677 | The tombstone transaction makes exactly the tombstone step |
| MigrationStore.KVMigrationStore.DecideRead | hub/src/kv-migration-store.ts:679-720 | The read decision is the decision function of the stored state, which stays as it is |
| HostAuthorization.ListErrorExact | hub/src/host-authorization-store.ts:181-193 | The list check passes exactly the strictly increasing lists |
| HostAuthorization.MappingsErrorExact | hub/src/host-authorization-store.ts:208-246 | The mapping checks pass exactly the canonical tables: strictly increasing keys and lists |
| HostAuthorization.ActivateAppends | hub/src/host-authorization-store.ts:457-543 | On a store that holds a chain, activation either extends that chain by the submitted generation or changes nothing, and never reports conflict or invalid state |
| HostAuthorization.RunIsItsHistory | hub/src/host-authorization-store.ts:457-543 | Every reachable store is exactly the store of its history, and the history is one hash chain from generation 1 |
| HostAuthorization.HistoryIsAppendOnly | hub/src/host-authorization-store.ts:457-543 | Later commands only extend the history |
| HostAuthorization.EqualHeadsEqualHistories | hub/src/host-authorization-store.ts:457-543 | Two reachable stores with the same head hash hold the same history and are equal |
| HostAuthorization.ActivateNeverConflicts | hub/src/host-authorization-store.ts:457-543 | Activation in a reachable store never reports conflict or invalid state |
| HostLaws.ActivatedExactly | hub/src/host-authorization-store.ts:457-543 | After any run an activation answers activated exactly when the document is readable, in order, canonical, verified and in its interval, the expectation is none or the last hash, and it is generation 1 of an empty history or exceeds the last generation and names its hash |
| HostLaws.ActivationLaw | hub/src/host-authorization-store.ts:457-543 | Every answer of an activation over the history, replay, stale and head mismatch included, and that the history grows exactly with an activation |
| HostLaws.LookupLaw | hub/src/host-authorization-store.ts:545-628 | The answer of every lookup over the history: a caller that names a role is denied, then head, interval and mapping decide in this order |
| HostLaws.ListFaultLaw | hub/src/host-authorization-store.ts:181-193 | The fault reported for a list is that of its first entry out of order |
| HostLaws.MappingsFaultLaw | hub/src/host-authorization-store.ts:208-246 | The fault reported for a table is that of its first offending mapping |
| HostLaws.GenerationFaultLaw | hub/src/host-authorization-store.ts:208-246 | A document is malformed exactly when its fields are out of order, and otherwise has the fault of its table |
| HostAuthorization.LookupIsExact | hub/src/host-authorization-store.ts:545-628 | Lookup authorizes a mapping exactly when it is the head generation's unique mapping for that caller and instance, inside the validity interval and under the expected head |
| HostAuthorizationStore.ValidateSortedList | hub/src/host-authorization-store.ts:181-193 | The list loop reports exactly the first fault of the list |
| HostAuthorizationStore.ValidateMappings | hub/src/host-authorization-store.ts:231-246 | The mapping loop reports exactly the first fault of the table |
| HostAuthorizationStore.ValidateGeneration | hub/src/host-authorization-store.ts:208-246 | Input validation reports exactly the generation's fault, if any |
| HostAuthorizationStore.AuthorizationStore.ActivateGeneration | hub/src/host-authorization-store.ts:457-543 | The activation transaction makes exactly the activation step |
| HostAuthorizationStore.AuthorizationStore.LookupMapping | hub/src/host-authorization-store.ts:545-628 | The lookup answers exactly the lookup function and writes nothing |
| ReleaseJournal.ParseOfText | scripts/release_transaction.py:432-447 | The loader's parse of written rows gives those rows back |
| ReleaseJournal.TextOfParse | scripts/release_transaction.py:432-447 | Whatever parses is the canonical text of the rows it gives |
| ReleaseJournalSafety.InitializeLeavesLoadable | scripts/release_transaction.py:516-559 | A successful initialize leaves a journal the loader accepts, headed by that event, and reports its status |
| ReleaseJournalSafety.SubmitLeavesLoadable | scripts/release_transaction.py:562-624 | A successful transition leaves a loadable journal, holding the event, exactly when its id is not the reserved one |
| ReleaseJournalSafety.ReservedEventBricksTheJournal | scripts/release_transaction.py:562-624 | A transition with the reserved id is accepted on a fresh journal, and the load after it fails |
| ReleaseJournalSafety.ReservedEventIsForever | scripts/release_transaction.py:516-624 | After a successful transition with the reserved id no call of any later sequence changes a byte and no load succeeds |
| ReleaseJournalSafety.RunIsRefusedExactly | scripts/release_transaction.py:516-624 | The file that any sequence of calls leaves is refused by the loader exactly when one of them was a successful transition with the reserved id |
| ReleaseJournalSafety.ResubmissionIsIdempotent | scripts/release_transaction.py:562-624 | Resubmitting a successful event leaves the bytes unchanged and answers the same |
| ReleaseJournalSafety.ReinitializeIsIdempotent | scripts/release_transaction.py:516-559 | Repeating a successful initialize leaves the bytes unchanged and answers the same |
| ReleaseJournalSafety.TornAppendIsNotRead | scripts/release_transaction.py:432-494 | A crash after any proper prefix of an append reads as the old journal when nothing was written and is rejected otherwise |
| ReleaseJournalSafety.EqualLastHashEqualJournals | scripts/release_transaction.py:234-369 | Two loadable journals with the same last record hash are the same bytes |
| ReleaseJournalSafety.CompletionIsEarned | scripts/release_transaction.py:306-369 | A completed journal passed approved and dispatching exactly once each and carries an external id or an observation digest |
| ReleaseJournalSafety.RunIsLoadable | scripts/release_transaction.py:516-624 | After any sequence of calls without the reserved id an existing journal loads |
| ReleaseJournalLaws.SubmitLaw | scripts/release_transaction.py:562-624 | Every answer of a submission: done exactly when this very entry is in a later row, changing no byte, or when its id is in none, its transaction is the first row's and its edge and evidence are admitted, then growing by its row; a conflict exactly for a foreign transaction or for the id with another entry; an error otherwise |
| ReleaseJournalLaws.InitializeLaw | scripts/release_transaction.py:516-559 | Every answer and the bytes left by an initialization |
| ReleaseJournalLaws.StatusLaw | scripts/release_transaction.py:497-513 | The status shows the last row's state and hash and the latest external version and observation that any row carries |
| ReleaseJournalLaws.LoadedExactlyWhatCallsWrite | scripts/release_transaction.py:306-447 | The loader accepts a file exactly when some sequence of calls without the reserved event id writes it |
| ReleaseJournalFile.ValidateChain | scripts/release_transaction.py:306-353 | The validation loop with its running state, seen events and prior hash accepts exactly the accepted chains |
| ReleaseJournalFile.Journal.InitializeJournal | scripts/release_transaction.py:516-559 | Initialize makes exactly the initialize step on the file |
| ReleaseJournalFile.Journal.SubmitTransition | scripts/release_transaction.py:562-624 | Transition makes exactly the transition step on the file |
| Merkle.SplitIsLargestPower | scripts/release_manifests.py:298-317 | The tree's split point is the largest power of two below the number of leaves, as in section 2.1 of RFC 6962 |
| Merkle.PairingKeepsTree | scripts/release_manifests.py:308-316 | One round of pairing with odd promotion keeps the recursive tree's root |
| Merkle.NextLevel | scripts/release_manifests.py:308-316 | The inner loop pairs neighbours and moves an odd last digest up unchanged |
| Merkle.MerkleRoot | scripts/release_manifests.py:298-317 | The bottom-up loop returns the root of the recursive tree, and the empty digest for no rows |
| Merkle.RootIsInjective | scripts/release_manifests.py:298-317 | Roots are equal exactly when the row lists are, the empty one included |
| Merkle.SmallRoots | scripts/release_manifests.py:298-317 | The root of no, one, two and three rows, the odd third digest carried up unhashed |
| JsonProofs.NameRoundTrips | hub/src/security-executor.ts:927-945 | Decoding a printed name gives its meaning back, whichever escapes spell it (section 7 of RFC 8259) |
| JsonProofs.ValueScans | hub/src/security-executor.ts:908-975 | On the print of any value the scanner reports a duplicate exactly when some object inside repeats a decoded name, and otherwise stops exactly at the end of the print |
| JsonProofs.MembersScan | hub/src/security-executor.ts:927-959 | From any set of earlier names, the member loop reports a duplicate exactly when a name clashes with them, with another, or a value holds one |
| JsonProofs.DuplicatesAreFoundExactly | hub/src/security-executor.ts:904-997 | For every JSON text, with any whitespace and escapes, the scanner's answer is whether some object at some depth repeats a decoded name |
| JsonLaws.DecodesExactly | hub/src/security-executor.ts:927-945 | The inside of a string token decodes exactly when it is a legal spelling, and then to what that spelling means |
| JsonLaws.HexDigitsExactly | hub/src/security-executor.ts:927-945 | A hexadecimal digit is one of the sixteen in either case and nothing else, with its value |
| JsonLaws.NestingHidesNothing | hub/src/security-executor.ts:904-975 | However deep arrays and objects nest a value, the scanner finds its duplicates and no others |
| JsonScan.ScanValue | hub/src/security-executor.ts:908-925 | The scan strictly advances the index and never leaves the text, which is why the mutual recursion ends |
| JsonScanner.SkipJsonWhitespace | hub/src/security-executor.ts:993-997 | The whitespace loop computes the skip the proofs use |
| JsonScanner.ScanJsonString | hub/src/security-executor.ts:977-991 | The string loop, skipping two characters at a backslash, finds the end the proofs use |
| JsonScanner.ScanJsonValue | hub/src/security-executor.ts:908-925 | The value scanner with its token loop computes the recursive scan |
| JsonScanner.ScanJsonObject | hub/src/security-executor.ts:927-959 | The member loop with its growing key set computes the recursive scan |
| JsonScanner.ScanJsonArray | hub/src/security-executor.ts:961-975 | The item loop computes the recursive scan |
| JsonScanner.HasDuplicateJsonKeys | hub/src/security-executor.ts:904-906 | On every JSON text, with any whitespace and escapes, the answer of the running scanner is whether some object at some depth repeats a decoded name |
| ReplaySafety.IntervalsNeverOverlap | hub/src/executor-replay-store.ts:87-163 | On one clock that does not go back, the intervals from commit to expiry of the accepted consumptions of one scope never overlap, whatever times the callers captured and whatever is swept |
| ReplaySafety.RefusedExactlyWhileHeld | hub/src/executor-replay-store.ts:87-163 | In any run, with no assumption on captured times, a well-formed consumption is refused exactly when an earlier acceptance of its scope, not swept away since, lasts beyond the captured time |
| ReplaySafety.ReopenedExactly | hub/src/executor-replay-store.ts:87-163 | A consumption that captured a time inside the interval of an earlier acceptance is accepted exactly when a sweep between the two removed the row and nothing accepted after that sweep lasts beyond the captured time |
| ReplaySafety.RemovalIsLate | hub/src/executor-replay-store.ts:125-163 | The sweep that first removes an accepted row carries a time at or past its expiry |
| ReplaySafety.EnvelopeAcceptedAtMostOnce | hub/src/executor-envelope-verifier.ts:105-163 | Over any run on one clock that does not go back, at most one call that commits before the envelope expires gets its body |
| ReplaySafety.LateCommitIsAcceptedAgain | hub/src/executor-envelope-verifier.ts:117-163 | With a clock that only goes forward, an envelope accepted at 5 and swept at its expiry 10 is accepted again by a call that captured 6 and commits at 11 |
| ReplaySafety.SweepAdvances | hub/src/executor-replay-store.ts:125-163 | One page moves the boundary between swept and unswept keys exactly to the returned cursor, or to the end |
| ReplayLaws.ConsumeLaw | hub/src/executor-replay-store.ts:87-118 | The exact answer and rows of a consumption |
| ReplayLaws.VerifyLaw | hub/src/executor-envelope-verifier.ts:117-163 | An envelope is accepted exactly when it is authentic, in its lifetime and its scope is free, and only then is its scope consumed |
| ReplayLaws.PageLaw | hub/src/executor-replay-store.ts:125-163 | A page is the least keys beyond the cursor, as many as the limit allows |
| ReplayLaws.SweepLaw | hub/src/executor-replay-store.ts:125-163 | A sweep removes a row exactly when it is in the page and expired |
| ReplayStore.DurableReplayStore.ConsumeScope | hub/src/executor-replay-store.ts:87-118 | The consume transaction makes exactly the consume step |
| ReplayStore.DurableReplayStore.SweepPage | hub/src/executor-replay-store.ts:125-163 | The page loop removes exactly the expired rows of the page, counts what it removed, and returns the cursor of a full page |
| ReplayStore.DurableReplayStore.SweepAll | hub/src/executor-replay-store.ts:125-163 | A cursor-driven pass at a fixed time ends and removes exactly the expired rows |
| ReplayStore.DurableReplayStore.VerifyEnvelope | hub/src/executor-envelope-verifier.ts:117-163 | The verifier accepts only authentic envelopes inside their lifetime and consumes their scope in the same step |
| GitControlSafety.AcceptsExactly | scripts/candidate_git_control.py:369-396 | A push is accepted exactly when each bound ref is as expected or already as wanted |
| GitControlSafety.StoreLands | scripts/candidate_git_control.py:369-396 | A stored push puts every bound ref to its wanted value and moves no other |
| GitControlSafety.SecondPushIsInert | scripts/candidate_git_control.py:369-396 | On refs that a claim has taken, any push moves nothing |
| GitControlSafety.OneClaimLandsWhole | scripts/candidate_git_control.py:635-817 | With any number of executors at most one claim ever lands, it is some executor's own claim, and the bound refs are all as they were or all as it wants them |
| GitControlSafety.LandedRefsNeverMove | scripts/candidate_git_control.py:635-817 | Once claim and completion are set, every bound ref keeps its value whatever happens next |
| GitControlSafety.OneReadback | scripts/candidate_git_control.py:717-926 | At most one executor emits a readback, even when answers are lost, and its reported before and after values are true |
| GitControlSafety.FailuresAreExplained | scripts/candidate_git_control.py:649-817 | A readback mismatch, a successful replay and a replay that changed state are never reported, whatever the interleaving |
| GitControlFailures.FailureTellsWhenTheClaimLanded | scripts/candidate_git_control.py:761-790 | In every run on a clean remote, a finished first check reports a completed transaction exactly when the claim landed before its first read, an inconsistent one exactly when it landed between the first two, a failed precondition exactly when it landed later but before the last, and passes exactly when all reads came before |
| GitControlFailures.DirtyRemoteIsRefused | scripts/candidate_git_control.py:761-790 | On any other remote no claim lands and every finished check fails: completed exactly when the refs are some landed state, failed precondition exactly when claim and completion are absent, inconsistent otherwise |
| GitControlDenial.DeniedExactly | scripts/candidate_git_control.py:800-817 | An executor whose confirming pass is over reports a denied push exactly when its own claim had not landed before the first read of that pass |
| GitControlDenial.ReadbackCanComeExactly | scripts/candidate_git_control.py:800-926 | Once a claim has landed, some continuation ends in a readback exactly when all confirming reads of its executor follow the landing |
| GitControlDenial.DeniedPushMayCompleteSilently | scripts/candidate_git_control.py:800-817 | A denied push still underway may land; the refs are then complete and no continuation emits a readback |
| GitControlDenial.DenialMayComeTooSoon | scripts/candidate_git_control.py:800-817 | A run on a clean remote that reports denial while the push is still underway |
| GitControlSafety.RaceReportsInconsistency | scripts/candidate_git_control.py:761-790 | A run on a clean remote where the loser reports inconsistent state |
| GitControlProvider.Provider.ReadOptional | scripts/candidate_git_control.py:597-626 | A read is counted and answered exactly when remote and ref are allowed |
| GitControlProvider.Provider.DenialProbe | scripts/candidate_git_control.py:602-617 | A probe reports a refusal exactly for a foreign remote or a ref outside the namespace, and reaches nothing |
| GitControlProvider.Provider.PushClaim | scripts/candidate_git_control.py:635-647 | One counted call; the refs take the push exactly when it arrives and every lease holds |
| GitControlProvider.Provider.CompletedReplayProbe | scripts/candidate_git_control.py:649-714 | On any refs: the probe fails as a success exactly when the replay is accepted and answered, otherwise passes exactly when the refs hold the winner's landed state, which it then leaves alone; the calls are counted exactly |
| GitControlProvider.Provider.Execute | scripts/candidate_git_control.py:717-926 | Alone on its remote the executor emits exactly when the refs are as expected and the push arrives, answered or not; each refusal is explained by the refs and leaves them as they were |
| SyncRunSafety.NewerIsAStrictOrder | hub/src/store.ts:474-491 | The comparison is a strict order on all records, stamped and sequenced or not |
| SyncRunSafety.NewerIsTotal | hub/src/store.ts:474-491 | Two terminal runs of a consistent store are always ordered |
| SyncRunSafety.OneStartedRun | hub/src/store.ts:155-196 | With fresh ids at most one run is started and the active key names it |
| SyncRunSafety.TwoStartedExactly | hub/src/store.ts:155-196 | With distinct ids, empty or not, two runs are started at once at some point exactly when a run is started while the one with the empty id is started and no other is active |
| SyncRunSafety.PointersNameTheMaximum | hub/src/store.ts:394-432 | With fresh ids each pointer names a run exactly when it is newer than every other terminal run, or clean success, however clocks ran |
| SyncRunSafety.RepeatedCompletionIsInert | hub/src/store.ts:380-392 | Completing a run again changes nothing and answers the stored record |
| SyncRunSafety.FinishedIsFrozen | hub/src/store.ts:336-378 | With fresh ids a finished run's record never changes again in any run |
| SyncRunSafety.FinishedRecordsAreExplained | hub/src/store.ts:336-378 | In every run a finished record tells the completion that finished it, and is a clean success exactly when that was a zero exit at a readable time |
| SyncRunSafety.CompletionIsNeverForgotten | hub/src/store.ts:336-432 | In any store whatever, after a completion call the pointers name terminal, or clean, runs the completed one is not newer than |
| SyncRunSafety.CounterCountsFinishedRuns | hub/src/store.ts:461-472 | The sequence counter is the number of finished runs, repeats or not |
| SyncRunSafety.HealthyExactly | hub/src/store.ts:249-334 | Health is healthy exactly when no run is started, the newest clean success is recent and matches, and the newest completion did not fail |
| SyncRunSafety.EmptyIdIsForgotten | hub/src/store.ts:155-176 | With an empty run id a second run starts beside the first |
| SyncRunLaws.StartLaw | hub/src/store.ts:155-176 | A start is refused exactly while a run is started, and otherwise writes that run and makes it active |
| SyncRunLaws.EnsureLaw | hub/src/store.ts:178-196 | Ensuring answers the started run, and otherwise starts the given one |
| SyncRunLaws.CompletionLaw | hub/src/store.ts:336-378 | Every answer of a completion, the finished record field by field, its number, and the pointers it leaves |
| SyncRunLaws.NewerLaw | hub/src/store.ts:474-491 | Of two finished runs the newer is the one that ended later, at the same time the one completed later, with unreadable times last |
| SyncRunLaws.LastCompletionIsTheLast | hub/src/store.ts:394-414 | While end times follow the order of completion the completion pointer names the run completed last |
| SyncRunLaws.HealthLaw | hub/src/store.ts:249-334 | Every answer of the health report: active, unknown, drift, stale, degraded, healthy, in that order of precedence |
| SyncRunStore.RunStorage.PutStartedRun | hub/src/store.ts:155-176 | The start transaction makes exactly the start step |
| SyncRunStore.RunStorage.EnsureStartedRun | hub/src/store.ts:178-196 | The ensure transaction returns the started run or makes exactly the start step |
| SyncRunStore.RunStorage.NextCompletionSequence | hub/src/store.ts:461-472 | The counter advances by one, or is refused unchanged when it is negative or exhausted |
| SyncRunStore.RunStorage.AdvanceLastCompletion | hub/src/store.ts:394-414 | The completion pointer advances exactly as the step says and nothing else changes |
| SyncRunStore.RunStorage.AdvanceLastSuccess | hub/src/store.ts:416-432 | The success pointer advances exactly as the step says and nothing else changes |
| SyncRunStore.RunStorage.CompleteRun | hub/src/store.ts:336-378 | The completion transaction makes exactly the completion step, the repair path included |
| LengthPrefix.DecodeOfEncode | hub/src/executor-provider-crypto.ts:196-215 | Every list of parts is recovered from its encoding |
| LengthPrefix.EncodeOfDecode | hub/src/executor-provider-crypto.ts:196-215 | Whatever decodes is the one encoding of what it decodes to |
| LengthPrefix.U32IsBigEndian | hub/src/executor-provider-crypto.ts:196-215 | A length is four bytes, most significant first |
| LengthPrefix.EncodeLengthPrefixed | hub/src/executor-provider-crypto.ts:196-215 | The two loops refuse exactly the lists whose whole exceeds 16 MiB and otherwise fill the buffer with the encoding |
| TextBytes.SameBytesExactly | hub/src/executor-provider-crypto.ts:184-194 | Two strings encode to the same bytes exactly when they are equal after unpaired surrogates are replaced |
| TextBytes.RepairExactly | hub/src/executor-provider-crypto.ts:184-194 | What encoding identifies, unit by unit: exactly a surrogate whose partner is not beside it counts as U+FFFD |
| EnvelopeContext.ContextBytesExactly | hub/src/executor-provider-crypto.ts:217-228 | Context bytes are equal exactly when the contexts are, up to unpaired surrogates in the parameter name |
| EnvelopeContext.ContextIsReadBack | hub/src/executor-provider-crypto.ts:160-228 | A decoder of the bytes finds schema, operation, generation, source, lifecycle label, version and target digest in this order, and in the source its own six parts |
| EnvelopeContext.AdditionalDataIsReadBack | hub/src/executor-provider-crypto.ts:736-746 | A decoder finds the context first and then each reference's kind and id, in order |
| EnvelopeContext.MacInputIsReadBack | hub/src/executor-provider-crypto.ts:748-750 | A decoder finds the additional data and then the plaintext |
| EnvelopeContext.LoneSurrogatesCollide | hub/src/executor-provider-crypto.ts:123-158 | Two different valid contexts with the same bytes |
| EnvelopeContext.AdditionalDataExactly | hub/src/executor-provider-crypto.ts:736-746 | Additional data is equal exactly when the contexts are, to the same extent, and the reference lists are |
| EnvelopeContext.CreatedEnvelopeBindsItsContext | hub/src/executor-provider-crypto.ts:566-600 | The additional data of an envelope that could be created equals that of no other valid context or reference list |
| EnvelopeContext.MacInputIsInjective | hub/src/executor-provider-crypto.ts:748-750 | Equal MAC inputs come from equal additional data and equal plaintext |
| EnvelopeContext.AdmittedPlaintextIsRefusedExactly | hub/src/executor-provider-crypto.ts:566-614 | For a creatable context and references, a plaintext the creator admits is refused by the MAC input exactly when it is longer than the limit less the additional data and 8 bytes |
| EnvelopeContext.SomeAdmittedPlaintextIsRefused | hub/src/executor-provider-crypto.ts:566-614 | Every creatable envelope has a plaintext that the creator admits and the MAC input refuses |
| EnvelopeContext.ContextErrorExact | hub/src/executor-provider-crypto.ts:123-182 | The ordered checks pass exactly the valid contexts, and report a source boundary exactly for a readable source out of its bounds in an otherwise safe context |
| EnvelopeContext.CanonicalProviderContextBytes | hub/src/executor-provider-crypto.ts:217-228 | Bytes are returned for exactly the valid contexts, the size limit never refusing one; any other gets the error of its first failing check |
| EnvelopeContext.EnvelopeAdditionalData | hub/src/executor-provider-crypto.ts:736-746 | Additional data is returned for exactly the valid contexts, whatever the valid references; any other context gets its error |
| EnvelopeContext.EnvelopeMacInput | hub/src/executor-provider-crypto.ts:748-750 | The MAC input is returned exactly when both parts with their lengths fit the limit, and is then their encoding |

## Left out

- ExecutorStore.OperationStore.CompleteOperation: does not model the stored result bytes and their digest check, nor `readResult`, which compares the same digest again; the outcome keeps the result digest.
- Alarm registration, which is separate from the computed next alarm.
- The provider coordinator's `run` and the verification body: they sequence the modelled transactions and add cleanup of envelopes.
- Observation times stored with provider outcomes: they are not compared.
- `readHead` of the host store and the read-only accessors: each returns one stored value.
- Field-shape checks, regular expressions, base64 and date parsing: preconditions or abstract predicates.
- Signing and signature checks, key derivation, AES-GCM, HMAC and SHA-256: function parameters.
- JsonScanner.HasDuplicateJsonKeys: its answer is stated on JSON texts; every caller parses the text next and fails on any other, whatever the scanner said.
- JSON numbers: the scanner's own token rule is modelled; a number is any run of number characters, a superset of the grammar.
- File locks, fsync and replacement of journal and manifest files: the journal is its bytes.
- Git objects, refspec syntax, authentication and the token file: a push is its leases and updates, applied atomically.
- ProviderStore.OperationStore.DispatchBody: does not model the request checks before the start transaction, because they decide nothing about writes; of the response it keeps the status.
- ReplayStore.DurableReplayStore.SweepPage: does not model stored rows that are malformed, because the store never writes one.
- HTTP routing, rendering, ingest, container handling, command-line front ends and the Go packages: they would add easy members only.
