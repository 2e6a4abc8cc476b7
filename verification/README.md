# Verification of the evidence, identity and receipt cores

These Dafny modules model the parts of the repository on which its promises rest, and prove those
promises of the model for all inputs, all runs or all interleavings.

* **Evidence replay ledger** (`ledger.dfy`, `ledger_*.dfy`, `admission.dfy`, `store.dfy`, `evidence_rows.dfy`,
  `assessment_rows.dfy`, `dependency_text.dfy`, `text.dfy`): observations, withdrawals and registered assessments
  as tables; the eager and the lazy invalidation path, the latch, the second admission check, what a lookup, a
  check and a registration do to one row, and the store object whose methods are proved to have the effect of the
  table operations.
* **Invocation protocol** (`invocation.dfy`, `provider_gates.dfy`, `quiet_run.dfy`): one request as atomic steps
  (resolve, plan and register, check, dispatch, answer, check, resolve, release) between which any operations of
  other requests happen.
* **Identity lifecycle replay** (`lifecycle*.dfy`, `payloads.dfy`, `chronology.dfy`): admission of events and
  snapshots, copies of one event, the fold of designations, screening, what the report lists, and continuation
  from snapshots.
* **JSON nesting depth** (`json_depth.dfy`, `json_readers.dfy`): the computed depth against the grammar of RFC 8259,
  sections 2 to 7, and against a reader; reading a body in chunks (`body_bounds.dfy`).
* **Finance indicators** (`indicators.dfy`, `signals.dfy`, `market_votes.dfy`) over exact reals.
* **Receipt chains** (`hash_chain.dfy`, `receipts.dfy`, `counsel.dfy`, `numbering.dfy`) and the **fabric** that
  decides evaluations and records them (`fabric.dfy`, `fabric_decisions.dfy`, `fabric_receipts.dfy`).
* **Rate limiting** (`rate_limit.dfy`, `rate_threads.dfy`, `bounded_logs.dfy`), **attestation** of a deployed commit
  (`attestation.dfy`, `attestation_reads.dfy`) and **claim review** (`claim_integrity.dfy`, `claim_spans.dfy`,
  `sorting.dfy`).

The specification functions follow the branches of the source. What they mean is stated apart from them: for each
operation there is a result that gives its outcome on the inputs alone, with the kinds, fields and constants
written out (`GatesOpenExactly`, `ResolvesExactly`, `ActiveExactly`, `DecisionsExactly`, `ReadyOnRequest` and others).

`dafny verify dfyconfig.toml` checks everything.

## How the model stands for the program

* Hashes are functions without collisions; the assumption is a named predicate (`CollisionFree`, `Faithful`,
  `SealsFaithful`) in the precondition of each theorem that needs it. A SHA-256 digest in the ledger is the number
  its hexadecimal text denotes, without an upper bound, so that such functions exist.
* Payloads of events are parsed JSON values. Their digest is taken of a text with sorted members, so it is a function
  of the canonical form, in which an object has no order, while `str` of a designation sees the order; the laws are
  injectivity of the digest on canonical forms (`SealsFaithful`) and of `str` on values that are no texts
  (`ShowsFaithful`). A stored summary is always the sorted text, so its digest is a function of the text itself.
* A value on its way into a receipt of the fabric has a canonical form or not: numbers that are not finite, texts
  UTF-8 cannot express and foreign types have none. Objects in it have no order.
* Clock values of the ledger are integers counting the smallest step of a floating-point number; instants of the
  identity replay are microseconds. Adding a freshness period to a time is exact.
* SQLite tables are maps, a transaction works on a copy that is committed as a whole or not at all, and
  `ORDER BY observed_at DESC, receipt_id ASC LIMIT 1` is the predicate `IsNewest`.
* A stored summary is its text together with whether it parses without a duplicate member or a non-finite number.
* Failures of the database connection, and of the clock, are inputs of an operation.
* Lists the program returns sorted and without repetitions are sets or maps in the reports.
* In a plan the gates that do not look at evidence are inputs, and so are the provider's reply and its parsing.
* An adapter registered with the fabric is a function that may fail; text operations such as `strip` and `upper`
  are parameters.
* Square roots are a parameter with the defining property of an exact root.

## Where code and documentation differ

* The docstring of `json_nesting_depth` says the result is never below the depth a parser reaches. It is below it
  on texts such as `]`, where it is -1 and a parser reaches depth 0. `DepthTooLowOnlyIfNegative` gives the exact
  condition on the text, and the bound of 64 protects every reader all the same.
* The replay means to keep one of several copies deterministically (`frontier_contracts.py:345`). It does not when a
  designation is named by an object: copies of the event with its members in another order count as duplicates, and
  the first to arrive names the designation (`ObjectDesignation`). `OrderIndependentExactly` and `FirmExactly` give
  the exact conditions.
* The rate limit reads the clock before it takes the lock. With a clock that never goes back it can still admit
  sixty-one calls within a minute (`OvertakingAdmits`); `OvertakingExactly` says when queue and log agree, and
  `LockedReadsDecide` that reading under the lock would do.
* A fabric evaluation opens its session's chain before it hashes the receipt. If that fails a session without
  receipts is left with an empty chain, which verification then calls ok (`NotANumberLeavesEmptyChain`,
  `EmptyChainExactly`).
* `macd` accepts a fast window longer than the slow one. The averages are then paired at different moments, and the
  second length guard, which never fires otherwise, can refuse the call.
* The evaluation of the fabric has a branch that holds an effect for lack of a human binding. The built-in binding
  check denies the same requests first (`MissingBindingDenies`).
* The attestation describes VERIFIED as serving exactly the judged revision before and after the capture. That the
  rooms in between come from it needs deployments that only move forward; `RollbackEscapes` shows what happens
  otherwise.

## Model

| member | source | states |
|---|---|---|
| Store.ObservationStore.Put | deploy/szl_verticals/store.py:103-136 | storing a receipt replaces the row under its identifier and sweeps the assessments that depend on its payload, in one commit; an oversized summary or a broken store changes nothing |
| Store.ObservationStore.InvalidateChangedPayload | deploy/szl_verticals/replay_store.py:124-143 | the eager pass changes exactly the standing assessments of the session that depend on the payload, to what the ledger specification says; a preselected row always has a dependency on the payload, so the "malformed" error cannot arise |
| Store.ObservationStore.SweepRow | deploy/szl_verticals/replay_store.py:133-143 | one preselected row: invalidated with the changes found among its dependencies on the payload, or left alone |
| Store.ObservationStore.PreselectsDependents | deploy/szl_verticals/replay_store.py:125-131 | the textual preselection picks the dependent standing rows of the session and no others |
| Store.ObservationStore.ChangesOf | deploy/szl_verticals/replay_store.py:145-188 | the loop over the recorded dependencies reports, in order, exactly those that no longer hold, each with the first reason that applies |
| EvidenceRows.LapseExactly | deploy/szl_verticals/replay_store.py:146-188 | of the reasons for which a dependency no longer holds the first that applies is reported: withdrawn, not fresh, replaced, not observed, invalid, summary changed, times changed |
| EvidenceRows.LapseWithoutRow | deploy/szl_verticals/replay_store.py:152-160 | a payload without a row is reported as withdrawn if it was withdrawn, else as missing |
| EvidenceRows.WriteInvalidatesForCause | deploy/szl_verticals/replay_store.py:124-143 | a write to a payload changes an assessment only if it is a standing one of that session whose dependency on that payload no longer holds, and records why |
| AssessmentRows.ChangesListed | deploy/szl_verticals/replay_store.py:146-188 | the changes are those dependencies that no longer hold, in their recorded order, each with its reason |
| Store.ObservationStore.WithdrawEach | deploy/szl_verticals/replay_store.py:292-298 | each payload is marked once and swept, in ascending order |
| Store.ObservationStore.WithdrawPayloads | deploy/szl_verticals/replay_store.py:280-304 | either every payload is withdrawn and swept or, on any error including one unknown payload, nothing changes |
| EvidenceRows.WithdrawsExactly | deploy/szl_verticals/replay_store.py:280-304 | a withdrawal is refused exactly for a bad scope, a bad list, a bad reading or one payload without a row; otherwise exactly the listed payloads are marked, at the reading or at their earlier time |
| Store.ObservationStore.ResolveEvidence | deploy/szl_verticals/evidence.py:128-228 | the resolution yields the specified snapshot: records in ascending payload order, blockers, state; UNAVAILABLE with its blocker when the lookup fails or returns no list |
| EvidenceRows.PutThenResolve | deploy/szl_verticals/evidence.py:162-228 | a stored genuine receipt that is the newest for its payload and not withdrawn resolves, from the moment it was observed until it expires, to a complete snapshot with its one record; the conditions on connector, status 200 to 299, label, freshness, origin and sizes are written out |
| EvidenceRows.ResolvesExactly | deploy/szl_verticals/evidence.py:128-228 | a resolution is complete if and only if there are references, each has such a row, and together they stay within the byte budget |
| EvidenceRows.CompleteIsRead | deploy/szl_verticals/evidence.py:162-228 | conversely each record of a complete snapshot is what some latest row of the session shows, which meets every one of those conditions |
| EvidenceRows.AdmitInExactly | deploy/szl_verticals/evidence.py:165-216 | a lookup yields a record if and only if the latest row of the payload qualifies |
| EvidenceRows.WithdrawnNeverResolves | deploy/szl_verticals/evidence.py:171-172 | a withdrawn payload never resolves again, whatever is stored afterwards |
| EvidenceRows.CachedExactly | deploy/szl_verticals/store.py:138-166 | a query is answered from the ledger exactly by its latest row, and only if that row is observed, fresh and not withdrawn |
| Store.ObservationStore.CheckAssessment | deploy/szl_verticals/replay_store.py:239-269 | a check reports and stores the same findings, keeps latched reasons, and never lowers the last check time; when it has to resolve again and the evidence store is UNAVAILABLE it fails and stores nothing |
| AssessmentRows.CheckExactly | deploy/szl_verticals/replay_store.py:239-269 | a check fails exactly on a standing row without dependencies, or with more than 64 that would have to be resolved again; otherwise it reports what it stores, and the last check time is the later of the two |
| AssessmentRows.FoundExactly | deploy/szl_verticals/replay_store.py:247-262 | a standing row is found to say which dependencies lapsed and why, that the clock went back if the reading precedes the last check, and that its admission changed only if nothing else did and resolving again gives another snapshot |
| Store.ObservationStore.RegisterAssessment | deploy/szl_verticals/replay_store.py:204-237 | registration inserts at most one row, only within capacity, only for a complete snapshot of the session, and checks it in the same transaction |
| AssessmentRows.RefusedExactly | deploy/szl_verticals/replay_store.py:204-230 | why a registration is refused, in order of precedence: scope, snapshot, clock, identity, and 10 000 assessments in the session |
| AssessmentRows.RegisteredExactly | deploy/szl_verticals/replay_store.py:220-237 | a new assessment records what each record of its snapshot says and what of it no longer holds at that moment; a snapshot without records is refused, and registering again is a check |
| Store.ObservationStore.AssessmentStatus | deploy/szl_verticals/replay_store.py:271-278 | the status of an assessment under the current connector registry |
| DependencyText.FilterFindsDependents | deploy/szl_verticals/replay_store.py:125-137 | searching the stored text for the quoted payload member finds a row exactly when the row depends on the payload |
| DependencyText.OccursIsNamed | deploy/szl_verticals/replay_store.py:128-129 | the search for the needle is a search among the quote-separated words of the text |
| DependencyText.HexInjective | deploy/szl_verticals/replay_store.py:89-91 | different digests have different texts |
| LedgerSafety.StandingAssessmentsDescribeLedger | deploy/szl_verticals/replay_store.py:124-188 | after any operations with genuine receipts, a row is invalidated exactly when it has reasons, and every standing assessment has all payloads unwithdrawn and every dependency equal (receipt, summary digest, times) to the row the newest-first order picks |
| LedgerSafety.RunKeeps | deploy/szl_verticals/replay_store.py:124-304 | the eager invariant holds after every history of puts, withdrawals, registrations and checks |
| LedgerSafety.InvalidateRestores | deploy/szl_verticals/replay_store.py:124-143 | after a write to one payload the eager pass restores the invariant for every assessment |
| LedgerSafety.PutKeeps | deploy/szl_verticals/store.py:103-136 | storing a genuine receipt keeps the invariant; the receipt identifier binds the whole row, so a replaced row only changes its summary |
| LedgerSafety.CheckKeeps | deploy/szl_verticals/replay_store.py:239-269 | a check keeps the invariant |
| LedgerHistory.InvalidationIsFinal | deploy/szl_verticals/replay_store.py:204-269 | once an assessment has reasons they are frozen, later checks and re-registrations never report it CURRENT, and a CURRENT result is dated at or after every earlier check of that assessment |
| LedgerHistory.RunExtends | deploy/szl_verticals/replay_store.py:204-304 | over any further history withdrawals stay, rows stay, latched reasons stay, last check times do not decrease |
| LedgerHistory.StatusReflectsRow | deploy/szl_verticals/replay_store.py:191-202 | an outcome says CURRENT exactly when the stored row has no reasons after the operation |
| LedgerHistory.CapacityKept | deploy/szl_verticals/replay_store.py:222-226 | in no history does a session come to hold more than ten thousand assessments |
| LedgerScopes.SessionsDoNotInterfere | deploy/szl_verticals/store.py:103-236 | for any histories that agree on the operations of one (vertical, scope), that session gets the same resolution, cache, status, registration and capacity results, whatever the other sessions did |
| LedgerScopes.HistoryOfSession | deploy/szl_verticals/store.py:103-236 | the session sees the history with all foreign operations removed |
| LedgerScopes.OwnOperation | deploy/szl_verticals/replay_store.py:204-304 | an operation of a session reads and writes its own part of the ledger only |
| LedgerScopes.ForeignOperation | deploy/szl_verticals/official_connectors.py:28-59 | an operation of another session leaves this part untouched; for stored receipts this rests on the identifier binding the scope |
| LedgerThreads.NoFalseRegression | deploy/szl_verticals/replay_store.py:104-122 | with a clock that does not go back and is read under the lock, no interleaving of transactions records ASSESSMENT_CLOCK_REGRESSED |
| LedgerThreads.ActKeepsOrder | deploy/szl_verticals/replay_store.py:118-122 | last check times stay at or below the holder's reading and that at or below the clock |
| LedgerThreads.TransactionIsolated | deploy/szl_verticals/replay_store.py:104-122 | whatever other threads attempt between its steps, a transaction runs on the ledger it found, dated by the clock at its reading, and leaves the lock free |
| LedgerThreads.AbortedChangesNothing | deploy/szl_verticals/replay_store.py:104-122 | an aborted transaction changes nothing but the lock it gives back |
| LedgerThreads.EarlyReadingLatches | deploy/szl_verticals/replay_store.py:108-114 | with a reading taken before the lock a later one can come first; the check then reports the regression on unchanged evidence, and after any further operations every check reports it again |
| Admission.CheckersAgree | deploy/szl_verticals/replay_store.py:247-262 | for a complete snapshot, the recorded dependencies hold now if and only if resolving its payloads again, with any budget at least as large, gives the very same snapshot |
| Admission.CompleteIgnoresLargerBudget | deploy/szl_verticals/evidence.py:162-228 | a complete resolution is unchanged by any larger byte budget |
| Admission.CompleteIsExact | deploy/szl_verticals/evidence.py:162-228 | a resolution is complete only when every requested payload is admitted, one record each in order |
| Admission.AdmissionCheckNeverFires | deploy/szl_verticals/replay_store.py:251-262 | while the registry stands still, EVIDENCE_ADMISSION_CHANGED is never recorded in any history |
| Invocation.ReleaseRestsOnUndisturbedEvidence | deploy/szl_verticals/intelligence.py:738-816 | under every interleaving with other requests, output is released only if the events that registered, confirmed and settled it stand in that order in the run: the first found every gate open, at least the minimum number of distinct references cited and the row CURRENT, the second was the status check after the reply and found it CURRENT, no cited record changed between them, not even and back, the third resolved at its own time to the planned snapshot, fresh at the reading it took next, and no cited payload was withdrawn up to then |
| Invocation.GatesRecorded | deploy/szl_verticals/intelligence.py:656-816 | in every run whatever was planned, confirmed or settled points to the very event that passed the gate, with its time and its readings |
| Invocation.BlockersExactly | deploy/szl_verticals/intelligence.py:571-590 | a plan lists a blocker exactly when it is due: each of the gates, the states of the evidence and its minimum written out |
| Invocation.GatesOpenExactly | deploy/szl_verticals/intelligence.py:571-590 | a plan has no blocker if and only if source and revision are bound, vertical, endpoint, floor, budget and serving contract hold, and a complete snapshot without blockers cites the minimum and is fresh |
| ProviderGates.PlanRegistersExactly | deploy/szl_verticals/intelligence.py:571-600 | a planning event opens its gate if and only if all that holds, the snapshot was resolved for this request and its registration comes back CURRENT; otherwise nothing is invoked |
| ProviderGates.StepExactly | deploy/szl_verticals/intelligence.py:738-816 | an event takes a request from one phase to the next if and only if it opens that gate, for each of the seven gates |
| ProviderGates.ThroughAllGates | deploy/szl_verticals/intelligence.py:738-816 | however others interleave, a request that got to a phase passed every gate before it in order, each opened by an event that met its conditions on the ledger of that moment |
| ProviderGates.ReleasedThroughGates | deploy/szl_verticals/intelligence.py:738-816 | of a released request the events that registered, confirmed and settled it come strictly in this order, each opened its gate, and the ledger after each is what the call of that gate left |
| ProviderGates.ReleasedRecordsStand | deploy/szl_verticals/intelligence.py:738-816 | of a released request every cited record was the genuine latest row of its payload, as shown and not withdrawn, at every moment from the registering event to the status check after the reply |
| Invocation.AfterConsistent | deploy/szl_verticals/intelligence.py:656-816 | at every moment the planned snapshot is complete, in scope and tied to the stored dependencies |
| Invocation.StepIsOperation | deploy/szl_verticals/intelligence.py:738-816 | every step of a request changes the ledger by one ledger operation or not at all |
| QuietRun.QuietRunReleases | deploy/szl_verticals/intelligence.py:542-816 | conversely, a request nobody disturbs, over evidence that resolves to at least the minimum of references and outlives it, gets through every gate and releases its output |
| QuietRun.FreshAccepted | deploy/szl_verticals/intelligence.py:787-807 | a complete fresh snapshot passes status and both re-resolutions while the ledger stands still |
| JsonDepth.DepthExactOnJson | deploy/szl_verticals/http_bounds.py:97-113 | for every serialization of every JSON value (any white space, any escapes) the computed depth is the container depth of the value |
| JsonDepth.DepthBoundsReaders | deploy/szl_verticals/http_bounds.py:97-113 | on every text a reader that stops at the first impossible character goes no deeper than the larger of zero and the computed depth |
| JsonDepth.BoundProtectsReaders | deploy/szl_verticals/http_bounds.py:124-143 | a text that passes the bound of 64 takes no reader deeper than 64 |
| JsonReaders.ReadersReachDepth | deploy/szl_verticals/http_bounds.py:97-113 | on every serialization of a value the reader gets exactly as deep as the value is, so that neither the computed depth nor the bound could be lower |
| JsonDepth.DepthTooLowOnlyIfNegative | deploy/szl_verticals/http_bounds.py:105-108 | the computed depth is below the depth reached exactly when it is negative, that is when of the brackets outside strings the first closes and after it the opening ones never outnumber the closing ones; then no reader enters a container |
| JsonDepth.ShownIsVisible | deploy/szl_verticals/http_bounds.py:110-113 | on every text the passes that delete, split, select and join leave the brackets that one reading from left to right finds outside strings |
| JsonDepth.NegativeDepthExists | deploy/szl_verticals/http_bounds.py:97-113 | the text "]" has computed depth -1 |
| JsonDepth.OutsideIsEvenWords | deploy/szl_verticals/http_bounds.py:110-111 | deleting escapes and keeping every second piece leaves exactly the characters outside strings |
| JsonDepth.PeakIsDeepest | deploy/szl_verticals/http_bounds.py:112-113 | the largest running balance is the largest number of open brackets at any point |
| BodyBounds.Accumulate | deploy/szl_verticals/http_bounds.py:158-187 | the first chunk that is late, no bytes or too much decides, with its own error; a body without such a chunk is judged by its total length and the declared one, however it is cut |
| BodyBounds.FaultExactly | deploy/szl_verticals/http_bounds.py:158-187 | a chunk is late after 8 seconds, invalid without bytes, or takes the total over 131 072 bytes, in this order |
| BodyBounds.JudgedExactly | deploy/szl_verticals/http_bounds.py:158-187 | a body read in time is accepted exactly when its total length is within the budget and the one declared, if any |
| BodyBounds.UniqueObject | deploy/szl_verticals/http_bounds.py:54-64 | an object is built exactly when no member name is repeated, and then holds every member |
| Lifecycle.ReplayIdentityLifecycle | deploy/szl_verticals/frontier_contracts.py:295-519 | the replay of snapshots and events gives the specified report or the specified rejection |
| LifecycleReport.ActiveExactly | deploy/szl_verticals/frontier_contracts.py:366-391 | a designation of a stream is active in the report if and only if the last event of the stream on it whose kind is DESIGNATION_ADDED, DESIGNATION_REMOVED or DELISTED is an addition, or there is none and a snapshot carried it; the member that names it is designation_id, else target_event_id, else the event id |
| LifecycleReport.ReportedLists | deploy/szl_verticals/frontier_contracts.py:374-391 | the reported changes are exactly the ids of the events of the four identity-change kinds, and the unmatched removals those that found nothing to remove, both in replay order |
| LifecycleReport.RowsExactly | deploy/szl_verticals/frontier_contracts.py:327-358 | every event handed in is replayed once, as itself or as one of its copies, in order of instant, entity, source, then id |
| Chronology.BelowExactly | deploy/szl_verticals/frontier_contracts.py:354-358 | texts are compared at the first place where they differ, a prefix coming first |
| LifecycleReport.SnapshotsExactly | deploy/szl_verticals/frontier_contracts.py:239-325 | snapshots are taken if and only if each is fit, with its time, members and digest, and no two are of one stream |
| LifecycleReport.EventsExactly | deploy/szl_verticals/frontier_contracts.py:327-352 | events are taken if and only if each is fit and those of one identity have one content |
| LifecycleReport.VerdictsExactly | deploy/szl_verticals/frontier_contracts.py:424-519 | what each state and decision of an accepted report says of the claim, the verifier, the source states, the ages and the history |
| LifecycleReport.ReportedNames | deploy/szl_verticals/frontier_contracts.py:475-498 | the report names exactly the entities of the events and snapshots handed in, and exactly the prior ids that came back as event ids |
| Lifecycle.ReadSnapshots | deploy/szl_verticals/frontier_contracts.py:316-325 | snapshots are admitted in turn; the first inadmissible or repeated one rejects the call |
| Lifecycle.ReadEvents | deploy/szl_verticals/frontier_contracts.py:327-352 | events are admitted in turn; copies are recorded, a conflicting copy, an event ahead of the clock or one not after its snapshot rejects the call |
| Lifecycle.FoldInOrder | deploy/szl_verticals/frontier_contracts.py:366-400 | one pass over the ordered events maintains designations, as-of instants, operations, unmatched removals and changes of all streams |
| LifecycleAdmission.AdmittedExactly | deploy/szl_verticals/frontier_contracts.py:327-352 | a sequence is admitted if and only if every event is admissible by itself and no two of one identity differ in their canonical form |
| LifecycleAdmission.AdmissionIgnoresOrder | deploy/szl_verticals/frontier_contracts.py:327-358 | sequences with the same events, in whatever order and multiplicity, are admitted alike and keep rows that are alike: equal up to the order of members within payloads, equal instants in one deterministic spelling |
| LifecycleAdmission.DuplicatesCounted | deploy/szl_verticals/frontier_contracts.py:336-343 | every copy of an event beyond the first is reported once under its id |
| LifecycleCopies.ReplayIgnoresOrder | deploy/szl_verticals/frontier_contracts.py:327-358 | when the copies of an event that could be kept name one designation, permuting the incoming events leaves the whole report unchanged, or both are rejected |
| LifecycleCopies.ReplayAbsorbsCopies | deploy/szl_verticals/frontier_contracts.py:336-346 | under the same condition, appending copies of events already there changes nothing but the list of duplicates |
| LifecycleCopies.OrderIndependentExactly | deploy/szl_verticals/frontier_contracts.py:333-346 | every order of arrival keeps the same events and designations if and only if, for each event, the copies with the least spelling of the instant name one designation |
| LifecycleCopies.FirmExactly | deploy/szl_verticals/frontier_contracts.py:201-206 | no copy of an event can change the report by coming first if and only if the event touches no designation or the value naming it holds no object with two members |
| LifecycleCopies.FirmUniform | deploy/szl_verticals/frontier_contracts.py:201-206 | in a history of such events the copies agree, so that its order does not matter |
| LifecycleCopies.ObjectDesignation | deploy/szl_verticals/frontier_contracts.py:201-206 | an addition whose designation is the object {"a": 1, "b": 2} and its copy with the members turned round are duplicates, and which one is active depends on which came first |
| Payloads.OrderlessDetermined | deploy/szl_verticals/evidence_contract.py:20-21 | a value without an object of two members is determined by its sorted JSON text |
| Lifecycle.Ahead | deploy/szl_verticals/frontier_contracts.py:165-167 | the reported skew is the number of seconds ahead, rounded up, and zero exactly when not ahead |
| LifecycleAdmission.SkewBounded | deploy/szl_verticals/frontier_contracts.py:159-167 | no accepted replay reports a skew above the allowed 300 seconds |
| LifecycleOrder.ActiveIsLive | deploy/szl_verticals/frontier_contracts.py:366-391 | after the replay a designation is active exactly when the last event touching it added it, or none did and a snapshot carried it |
| LifecycleOrder.AmbiguitiesExact | deploy/szl_verticals/frontier_contracts.py:393-404 | an ambiguity is reported exactly for the designations both added and removed at one instant of a stream |
| LifecycleOrder.OrderMattersExactly | deploy/szl_verticals/frontier_contracts.py:354-404 | all orders of the events that respect their instants give the same active designations if and only if every reported ambiguity is superseded by a later event on its designation |
| LifecycleOrder.TieMatters | deploy/szl_verticals/frontier_contracts.py:393-404 | for an ambiguity that is not superseded there is another order with another outcome |
| LifecycleScreening.UnmatchedExact | deploy/szl_verticals/frontier_contracts.py:379-391 | no unmatched removal is reported exactly when every removal finds its designation live |
| LifecycleScreening.ClearExactly | deploy/szl_verticals/frontier_contracts.py:424-457 | CLEAR if and only if the claims are undoubted, the verifier accepts every stream, everything was observed within a year, every removal was grounded, no instant both adds and removes a designation and nothing is live at the end |
| LifecycleScreening.ClearMeansRemoved | deploy/szl_verticals/frontier_contracts.py:424-457 | under CLEAR, for every event that added a designation, the one some copy of it names is removed by a strictly later event of its stream, and its own one whenever its copies agree |
| LifecycleReport.ClearRemovesLater | deploy/szl_verticals/frontier_contracts.py:424-457 | the same on the events alone: a later event of the stream, by the instants their times name, of kind DESIGNATION_REMOVED or DELISTED, names what some copy of the adding event names |
| LifecycleScreening.ClearMeansCarriedRemoved | deploy/szl_verticals/frontier_contracts.py:424-457 | under CLEAR every designation a snapshot carried is removed by an event after that snapshot |
| LifecycleScreening.ClearIsMeasured | deploy/szl_verticals/frontier_contracts.py:437-471 | a CLEAR report is complete, measured and verified, and lists no reason, no unmatched removal and nothing active |
| LifecycleScreening.HistoryExact | deploy/szl_verticals/frontier_contracts.py:369-372 | the verifier is shown exactly the events of the stream, in replay order |
| LifecycleStreams.FoldViewed | deploy/szl_verticals/frontier_contracts.py:366-391 | what the replay holds about a stream depends on the events of that stream only |
| LifecycleContinuation.SnapshotRoundTrip | deploy/szl_verticals/frontier_contracts.py:239-280 | a snapshot taken of a named stream passes its own admission unchanged |
| LifecycleContinuation.SnapshotsRestore | deploy/szl_verticals/frontier_contracts.py:239-325 | handing in all emitted snapshots restores exactly the designations and instants they were taken of |
| LifecycleContinuation.TallyPortable | deploy/szl_verticals/frontier_contracts.py:499-502 | every snapshot an accepted replay of well-named events emits can be handed in again, now or later |
| LifecycleComposition.AcceptanceComposes | deploy/szl_verticals/frontier_contracts.py:327-352 | a history whose second part is later, stream by stream, is accepted if and only if the second part is accepted after the first and no event is in both |
| LifecycleComposition.ContinuationRefinesReplay | deploy/szl_verticals/frontier_contracts.py:295-519 | replaying a prefix, feeding its snapshots back and replaying the suffix gives the designations and snapshots of replaying the whole; ambiguities add up and unmatched removals follow one another, stream by stream |
| Indicators.EmaSeries | services/finance/engine.py:64-70 | the loop yields the exponential average at every index from the first full window on |
| Indicators.EmaWithin | services/finance/engine.py:64-70 | each exponential average lies between the bounds of its inputs |
| MarketVotes.EmaWeights | services/finance/engine.py:64-70 | the average is the sum of the prices with closed weights: the first window shares equally, each later price takes 2/(w+1), and every price loses that share to each one after it |
| MarketVotes.EmaSteady | services/finance/engine.py:64-70 | on prices that rise by equal steps it lags behind by half its window |
| Indicators.EmaScaled | services/finance/engine.py:64-70 | the exponential average scales with the unit of the prices |
| Indicators.ComputeMacd | services/finance/engine.py:89-100 | the averages are paired from the end of the shorter list on, at the same moment while the fast window is no longer than the slow one; the second length guard fires exactly when fast <= length < fast + signal - 1 and slow + signal <= length |
| Indicators.HistogramScaled | services/finance/engine.py:89-100 | the histogram scales with the unit of the prices, for all windows |
| Indicators.GainsAndLosses | services/finance/engine.py:75-77 | the gains and the losses between neighbouring prices |
| Indicators.ComputeRsi | services/finance/engine.py:73-86 | the loops yield the relative strength index of Wilder's averages |
| Indicators.RsiBounded | services/finance/engine.py:73-86 | the index lies between 0 and 100 |
| MarketVotes.WilderWeights | services/finance/engine.py:78-82 | the averages behind the index have closed weights with the share 1/p |
| MarketVotes.StrengthExactly | services/finance/engine.py:83-86 | the index is 100 exactly when the average loss is zero, 0 exactly when only the average gain is, above 50 exactly when there is no loss or the gain exceeds it; below 30 and above 70 exactly when 7 gains are less than 3 losses and 3 gains more than 7 losses |
| MarketVotes.StrengthRises | services/finance/engine.py:83-86 | it rises strictly with the average gain and falls strictly with the average loss |
| MarketVotes.RsiEnds | services/finance/engine.py:73-86 | from a period of two on, the index is 100 if and only if no price fell, and 0 if and only if some fell and none rose |
| Indicators.RsiScaled | services/finance/engine.py:73-86 | the index does not depend on the unit of the prices |
| Signals.BollingerZ | services/finance/engine.py:103-111 | the deviation of the last price of the window in standard deviations, zero on a flat window |
| Signals.DeviationBounded | services/finance/engine.py:103-111 | its square is at most the window length less one |
| Signals.StandardisedScaled | services/finance/engine.py:103-111 | it does not depend on the unit of the prices |
| Signals.MaxDrawdown | services/finance/engine.py:146-154 | on positive prices the running result is the minimum of s[j]/s[i]-1 over all i <= j; a running peak of zero is a division by zero |
| Signals.LeastChangeScaled | services/finance/engine.py:146-154 | the least change does not depend on the unit of the prices |
| Signals.RequireSeries | services/finance/engine.py:42-56 | a short series or one point that is no finite number refuses the whole |
| Signals.SignalSuite | services/finance/engine.py:173-202 | the suite is refused exactly for short or malformed series and otherwise gives the votes and the verdict of the four indicators |
| MarketVotes.VotesExactly | services/finance/engine.py:173-202 | the score is the number of votes for a rise less those against, each vote stated on sums and squares of the prices; BULLISH and BEARISH need a margin of two |
| MarketVotes.StraightRunsDoNotCarry | services/finance/engine.py:173-202 | closes that only rise have the trend for and the strength index against them and never make a bullish verdict; closes that only fall never make a bearish one |
| MarketVotes.SteadyRise | services/finance/engine.py:173-202 | closes that rise by equal steps are scored exactly -1: the trend for, momentum and strength index against |
| Signals.VotesIgnoreUnit | services/finance/engine.py:173-202 | multiplying all prices by any positive factor leaves the vote score, and so the verdict, unchanged |
| HashChain.SoundIsChained | frontier_fabric/receipts.py:84-133 | verification accepts exactly the chains that appending produces |
| HashChain.HeadDeterminesChain | frontier_fabric/receipts.py:79-133 | two verified chains with the same head are the same chain, in length and in every covered field |
| HashChain.AppendSound | frontier_fabric/receipts.py:84-110 | appending keeps a chain verifiable |
| FinanceReceipts.ReceiptChain.Append | services/finance/receipts.py:36-50 | one link more, sealed over its position, the head before it and its content |
| FinanceReceipts.ReceiptChain.Verify | services/finance/receipts.py:55-67 | CONSISTENT exactly on sound chains; otherwise the index of the first bad link and whether the link or the seal fails there |
| Fabric.ReceiptChain.Append | frontier_fabric/receipts.py:84-110 | one link more, sealed over its position, the head before it and its content, exactly when the content has a canonical form; otherwise nothing changes |
| Fabric.ReceiptChain.Verify | frontier_fabric/receipts.py:112-133 | every fault of every link in order; ok exactly on sound chains |
| FabricDecisions.FaultsExactly | frontier_fabric/receipts.py:112-133 | at each link exactly the faults it has are named: position, previous hash, own hash |
| Fabric.VerticalFabric.Propose | frontier_fabric/engine.py:271-292 | the caller's proposal, else that of the first bound model, else the unavailable one; a model answering under another identity is an error |
| FabricDecisions.ProposalExactly | frontier_fabric/engine.py:271-292 | the proposal is the one of the caller, else the answer of the first declared model that is bound, if under its own name, else the unavailable one |
| Fabric.VerticalFabric.RunKernels | frontier_fabric/engine.py:294-321 | one result for each declared kernel in order, unbound ones as unavailable; a failing or misnamed adapter is an error |
| FabricDecisions.KernelsExactly | frontier_fabric/engine.py:294-321 | the results are complete if and only if every bound kernel answers under its own name; each is that answer, or marks the kernel as unavailable |
| Fabric.VerticalFabric.EvaluateRequest | frontier_fabric/engine.py:323-424 | the result is the assessment, provided its receipt can be sealed; then its own session has one link more and no other is touched; a failed assessment leaves the chains alone, and one whose receipt cannot be sealed fails after its session was given a chain |
| Fabric.VerticalFabric.AssessRequest | frontier_fabric/engine.py:323-390 | the checks, the proposal, the kernels and the decision in the order of the source, with the first error there is |
| FabricDecisions.DecisionsExactly | frontier_fabric/engine.py:334-371 | DENY if and only if some blocking result failed or a complete human binding upper-cases to DENY; ALLOW if and only if none failed, the binding allows a requested effect, there is a proposal and the strict gate misses no kernel; BLOCKED goes with DENY, MEASURED with ALLOW, and a HOLD is UNAVAILABLE without a proposal or where the strict gate misses a kernel for an effect, else ADVISORY |
| FabricDecisions.ChecksExactly | frontier_fabric/engine.py:51-209 | a built-in check that blocks has failed if and only if the payload exceeds 1 000 000, a source or citation is not of the vertical, the effect leaves the boundary, or a needed binding is incomplete |
| FabricReceipts.ReportedChecks | frontier_fabric/engine.py:51-209 | the six built-in results: which check each is, whether it passed and blocks, and its claim state |
| FabricReceipts.ErrorsExactly | frontier_fabric/engine.py:323-396 | which error an assessment ends with, in order of precedence, and what it holds otherwise |
| FabricReceipts.ReceiptExactly | frontier_fabric/engine.py:373-412 | an evaluation is sealed into the chain of its own session exactly when every text it shows can be written and every value has a canonical form |
| FabricReceipts.CanonicalExactly | frontier_fabric/receipts.py:32-61 | a value has a canonical form if and only if every part one comes to along some path is of a JSON type, its texts writable and its numbers finite |
| Fabric.FailureOpensExactly | frontier_fabric/engine.py:397-400 | an evaluation that fails at its receipt changes the chains if and only if its session had none |
| Fabric.NotANumberLeavesEmptyChain | frontier_fabric/engine.py:397-400 | a proposal of the caller with confidence NaN, no kernel being bound, is assessed to the end, its receipt cannot be sealed, and a new session is left with an empty chain |
| Fabric.VerticalFabric.RegisterKernel | frontier_fabric/engine.py:238-241 | a kernel is bound only under a repository id of the organisation; the chains stay as they are |
| Fabric.VerticalFabric.RegisterModel | frontier_fabric/engine.py:233-236 | a model is bound only under a repository id of the organisation; the chains stay as they are |
| Fabric.VerticalFabric.VerifySession | frontier_fabric/engine.py:426-437 | ok exactly when the session has a chain, with the number of its links, which may be none |
| Fabric.RunBuildsChains | frontier_fabric/engine.py:397-424 | over any run a session has a chain if and only if one of its evaluations got as far as its receipt; the chain holds exactly its sealed evaluations in order, one sound link each |
| Fabric.EmptyChainExactly | frontier_fabric/engine.py:397-437 | a session has an empty chain if and only if evaluations got as far as its receipt and none could be sealed |
| Fabric.AllowedExactly | frontier_fabric/engine.py:51-385 | ALLOW if and only if an effect is requested, a complete human binding allows it, all boundaries hold for request and proposal, no kernel stops it and, under the strict gate, none is missing |
| Fabric.AdaptersCannotAuthorise | frontier_fabric/engine.py:214-385 | whatever models and kernels are registered, a request without that binding and those boundaries is never allowed |
| Fabric.MissingBindingDenies | frontier_fabric/engine.py:196-209 | an effect that needs a human binding and lacks a complete one is denied; the HOLD branch written for it is never reached |
| Counsel.Chains.Chain | deploy/szl_verticals/counsel.py:41-55 | one receipt more on the session's log, chained to the last hash; hashes chain without end while the last 500 receipts are kept |
| Counsel.TailIsLinked | deploy/szl_verticals/counsel.py:41-55 | what is kept is chained, its first receipt to the one dropped last |
| Counsel.RetainedExactly | deploy/szl_verticals/counsel.py:41-55 | the last 500 receipts of a session are retained, chained from the one dropped last or from the start |
| Counsel.SealedBinds | deploy/szl_verticals/counsel.py:44 | as long as hashes and step names hold no separator, the hashed text determines previous hash, step and payload |
| BoundedLogs.PushedIsLast | deploy/szl_verticals/counsel.py:20-20 | keeping the end while appending is keeping the end of the whole log |
| RateLimit.Limiter.RateOk | deploy/szl_verticals/sentra.py:55-63 | the part of a call under the lock: the call is logged, and decided as the queue left by the calls before it, in the order they took the lock, decides |
| RateLimit.CallFollows | deploy/szl_verticals/sentra.py:55-63 | when the times reach the queue in order, a queue of 120 call times stays the end of the complete log and decides like it |
| RateLimit.AllowedExactly | deploy/szl_verticals/sentra.py:55-63 | by a log in order a call is admitted if and only if there were fewer than sixty before it or the sixtieth before it is a window or more ago, denied calls counting |
| RateLimit.SpanBounded | deploy/szl_verticals/sentra.py:55-63 | by a log in order at most sixty calls are admitted in any span shorter than sixty seconds |
| RateLimit.DecidedInOrder | deploy/szl_verticals/sentra.py:55-63 | queue and complete log agree on every call whose time and whose predecessors came under the lock in order |
| RateLimit.StretchBounded | deploy/szl_verticals/sentra.py:55-63 | in whatever order the times came: of calls that took the lock one after the other and are all timed less than a window apart, at most sixty are admitted |
| RateLimit.QueueHolds | deploy/szl_verticals/sentra.py:55-63 | a queue never holds more than 120 times, and of calls timed within a window it holds the last 120 |
| RateThreads.OvertakingExactly | deploy/szl_verticals/sentra.py:56-61 | a call that takes the lock right after one timed a, itself timed b, is decided as the complete log would, whatever calls came before in order, if and only if a <= b |
| RateThreads.OvertakingAdmits | deploy/szl_verticals/sentra.py:56-61 | sixty calls at second 0, a reading at 59 that waits for the lock, a reading at 60 that gets it first: sixty-one calls within 59 seconds are admitted under a clock that never goes back |
| RateThreads.LockedReadsDecide | deploy/szl_verticals/sentra.py:56-57 | were the clock read under the lock, every interleaving would decide each call as the complete log does |
| RateThreads.RunBounded | deploy/szl_verticals/sentra.py:55-63 | in every interleaving each call is decided by the queue of the calls that took the lock before it, and the bound on stretches holds |
| Attestation.AwaitRevision | tools/attest_live_intelligence.py:131-156 | polling ends at the first conclusive poll, a revision seen before keeping the verdict of the poll that saw it first, or with the polls; the last revision read is reported |
| Attestation.CaptureRooms | tools/attest_live_intelligence.py:159-214 | the capture succeeds exactly when every read meets its contract and no two rooms are the same bytes; recorded are the digests up to the first bad read |
| Attestation.Attest | tools/attest_live_intelligence.py:226-287 | polling, capture and the read after it produce the specified report, with state, revisions and recorded rooms |
| Attestation.VerifiedExactly | tools/attest_live_intelligence.py:226-287 | VERIFIED if and only if the first conclusive poll read the judged commit, the capture after it succeeded and the read after that names the judged commit again |
| Attestation.SupersededExactly | tools/attest_live_intelligence.py:226-287 | SUPERSEDED by a commit if and only if the first conclusive poll proved it so, or read the judged commit and the read after a good capture names a commit then proved so; nothing captured is reported |
| Attestation.NotConvergedExactly | tools/attest_live_intelligence.py:226-262 | NOT_CONVERGED if and only if no poll of the run was conclusive |
| AttestationReads.StatesExactly | tools/attest_live_intelligence.py:226-287 | which state a report gets, on the replies alone: NOT_CONVERGED, VERIFIED and FAILED each if and only if the polls, the thirteen reads and the read after them are of its kind |
| AttestationReads.SupersededReads | tools/attest_live_intelligence.py:226-287 | which commit is named as superseding, and the read that names it |
| AttestationReads.SupersededWhenGitAnswers | tools/attest_live_intelligence.py:88-117 | where Git answers fully, a commit is judged SUPERSEDED if and only if it is a strict descendant of the judged one and on the view of main |
| AttestationReads.ReportShows | tools/attest_live_intelligence.py:226-287 | a report of a commit that was read shows the catalog and the rooms with the digests read at their ticks |
| AttestationReads.NotConvergedNamesLast | tools/attest_live_intelligence.py:131-156 | a report that never converged names the last revision read, if any was |
| AttestationReads.GrowingReports | tools/attest_live_intelligence.py:8-11 | over one growing history a site that moves on during the capture is reported as superseded, and one that moves on later as verified |
| Attestation.SupersedingIsProven | tools/attest_live_intelligence.py:88-117 | the commit a report names as superseding is a strict descendant of the judged one and on main |
| Attestation.VerifiedRoomsAreExact | tools/attest_live_intelligence.py:274-279 | while deployments only move forward, the judged commit was served throughout a verified attestation, and the report holds the digests of rooms it served, all different |
| Attestation.SupersededIsDescendant | tools/attest_live_intelligence.py:88-117 | SUPERSEDED implies a strict descendant of the judged commit that is on main |
| Attestation.StaleViewOnlyWeakens | tools/attest_live_intelligence.py:99-117 | an older view of main gives the same verdict or turns SUPERSEDED into UNPROVEN |
| Attestation.SupersededStays | tools/attest_live_intelligence.py:8-11 | once a strict descendant is served the judged commit never is again |
| Attestation.RollbackEscapes | tools/attest_live_intelligence.py:274-279 | on a site rolled back between the two revision reads the attestation returns VERIFIED although another commit served every room |
| ClaimIntegrity.ReviewClaim | deploy/szl_verticals/claim_integrity.py:164-209 | one claim: its anchors in order with status and duplicate flag, and the counts of distinct supporting and adverse passages |
| ClaimIntegrity.ReviewClaims | deploy/szl_verticals/claim_integrity.py:141-260 | the whole review, claims in order of their ids |
| ClaimSpans.ReadyOnRequest | deploy/szl_verticals/claim_integrity.py:210-219 | READY if and only if the revision is bound, every document hashes to its expected digest, every anchor quotes exactly its span of a listed document, and every claim has an anchor in its support |
| ClaimSpans.BlockersOnRequest | deploy/szl_verticals/claim_integrity.py:210-219 | each of the four blockers is listed exactly when the request has what it says |
| ClaimSpans.RowsExactly | deploy/szl_verticals/claim_integrity.py:160-209 | one row for each claim, in order of ids, and in each the anchors in order with their content and the counts of distinct quoted spans |
| ClaimSpans.StatusExactly | deploy/szl_verticals/claim_integrity.py:168-179 | which of the five statuses an anchor gets, as conditions on the request |
| ClaimSpans.TotalsOnRequest | deploy/szl_verticals/claim_integrity.py:148-236 | the digests of the documents, the distinct contents, the claims with quoted support and the anchors that are not matched, counted over all rows |
| ClaimSpans.ValidExactly | deploy/szl_verticals/claim_integrity.py:111-138 | a request is valid exactly when it has a claim, no span is empty, and no id and no anchor of a claim is repeated |
| ClaimIntegrity.ReviewIgnoresOrder | deploy/szl_verticals/claim_integrity.py:141-240 | permuting documents, claims and anchors leaves every row and metric unchanged |
| ClaimIntegrity.CountsArePassages | deploy/szl_verticals/claim_integrity.py:182-206 | support and adverse counts are the numbers of distinct (content, span) pairs |
| ClaimIntegrity.AliasAddsNothing | deploy/szl_verticals/claim_integrity.py:144-146 | quoting a passage again under another document id changes neither count |
| ClaimIntegrity.OneOriginalPerPassage | deploy/szl_verticals/claim_integrity.py:182-187 | there are as many non-duplicate matched anchors of a relationship as passages quoted in it |
| ClaimIntegrity.OriginalUnique | deploy/szl_verticals/claim_integrity.py:182-187 | of the anchors quoting one passage in one relationship at most one is not a duplicate |
| ClaimIntegrity.ReadyExactly | deploy/szl_verticals/claim_integrity.py:210-219 | no blocker exactly when the revision is bound, every document and every anchor matches and every claim has an anchor in its support |

## Left out

- HTTP routing, request models beyond the conditions used here, transports and provider payload parsers: plumbing around the modelled operations.
- Catalogs, profiles, connector definitions, formulas, pages and styles: constant data and presentation.
- SQLite files, journals and locks below the level of a transaction: a transaction is one atomic step that starts by reading the clock.
- SHA-256, HMAC and CPython's JSON reader: replaced by collision-free functions and by the grammar. Such functions exist over the records used here (`LedgerCodec.NumberedIsCollisionFree`, `HashChain.CountedIsFaithful`).
- The error mapping of `parse_strict_json`, non-finite constants and header predicates: single-branch members around the depth bound.
- `ObservationStore.recent`, `counts` and `status`: plain queries.
- `evaluate_coverage`, profiling evidence and finance authorization in `frontier_contracts.py`: straight-line field checks.
- The requests that bound list lengths and text lengths of lifecycle events and snapshots: the replay itself has no such bounds. A designation longer than 256 characters can be emitted in a snapshot that the request model then refuses.
- `volatility`, `sharpe`, `beta` and `portfolio_report`: closed formulas without a law the repository states for them.
- Floating-point rounding, `exp` and `log` scores: the indicators are over exact reals, and the advisory score only enters as valid or not.
- Invocation.ReleaseRestsOnUndisturbedEvidence: the provider's reply is any text, so nothing is said about what was released beyond the evidence it rests on.
- QuietRun.QuietRunReleases: assumes that no other request acts between the steps, which is one of the conditions a caller can arrange.
- LifecycleContinuation.TallyPortable: asks for events whose ids are not empty, as the request model demands of its callers.
- Signals.MaxDrawdown: the minimum over pairs is stated for positive prices; on others only refusal and division by zero are.
- Attestation.CaptureRooms: one flag for each read stands for what its contract asks of the page.
- Fabric.VerticalFabric.AssessRequest: the wording of the reasons and the figures the built-in checks report are left out, but for the texts they quote from the request; a value nested too deep for the interpreter is not modelled.
- Store.ObservationStore.ResolveEvidence: the refusal of malformed arguments is left to the callers, which pass checked ones.
- RateThreads.OvertakingExactly: is about one overtaken call after a log in order; what any interleaving keeps is stated by `RunBounded`.
- The digest of the request in a claim review (`input_sha256`) and the constant fields of all reports.
- Aliasing of the receipts returned to callers: entries are values here, so a caller changing a returned dictionary is not modelled.
