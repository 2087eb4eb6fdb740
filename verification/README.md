# Verified models of the AFSCP control-plane protocols

AFSCP is a storage control plane. Its durable records (repo fences, operation leases, audit outbox
rows, export sessions) move through small protocols, and its export gateway removes and renames user
files through file descriptors. This project models those protocols in Dafny and proves what they
promise, for every input, every run and every pattern of failing calls.

| file | models |
|---|---|
| `Fences.dfy`, `FenceOrder.dfy` | fence validation, `CanAcquire`, histories of the fence table, the comparator used for sorting |
| `Recovery.dfy`, `RepoRecovery.dfy` | the operation and fence recovery classifiers, `InspectRepoRecovery` |
| `Outbox.dfy`, `OutboxDelivery.dfy` | outbox record transitions, the outbox classifier, the SQL statements, delivery and stale-recovery passes |
| `Disk.dfy`, `SystemCalls.dfy`, `NoFollow.dfy` | an inode tree with link counts, a descriptor table, system calls that may each fail, the no-follow file system on top of them |
| `ExportLedger.dfy`, `ExportGateway.dfy`, `ExportReconcile.dfy` | the export-session tables as their SQL statements change them, concurrent gateway requests, the terminal reconcile pass |
| `OperationExec.dfy` | handler registration and the one-shot committer |
| `Paths.dfy`, `VolumeRoots.dfy`, `Routes.dfy` | path cleaning and containment, volume-root disjointness, the route table |
| `Common.dfy` | options, times, counting, string trimming, identifiers |

How the outside world is modelled:

- Time is an integer with a distinguished zero value. Clocks, owners and configuration are parameters.
- A store call answers in one of three ways: it takes effect, it fails, or it takes effect and its
  answer is lost. Which one is a parameter of every pass, so the theorems hold for all of them.
- The gateway is a machine of many requests. Each has a program counter, a stack of deferred calls, its
  own clock readings and its own file system handle, and may crash at any point. An execution is any
  interleaving of their steps, their heartbeats, their backends' opening and closing of files, and any
  other component's calls (creates, revokes, stale recoveries, reconciles). Only gateway requests begin
  and end rows, and the request id generator does not repeat an id.
- In the reconcile pass, calls by others are arbitrary sequences before each of its store calls.
- The kernel is a class with an inode tree, a descriptor table and an arbitrary fault schedule. A
  descriptor must be open to be closed or used, so a double close does not verify. Acyclicity is a ghost
  rank on inodes, which is also what makes the recursions terminate. That link counts cover the names of
  an inode is part of the kernel's invariant, kept by every call.
- Redaction, JSON encoding, hashing and `repo.Validate` are parameters.

Behaviour of the code that differs from what its names or messages suggest:

- The SQL statement for stale recovery takes no attempt limit, although the coordinator passes one: a
  stale row always goes back to `retry_wait`. Attempts can therefore exceed the limit
  (`OutboxDelivery.StaleRecoveryPassesTheLimit`), a pass keeps the limit exactly when it does not
  recover a row whose attempts are used up (`OutboxDelivery.LimitKeptIff`), and the `FailedTerminal`
  counter of a recovery pass is always zero.
- An event type made of spaces is accepted when an outbox record is created and refused by every later
  validation. The record functions therefore never move such a record (`Outbox.BlankTypeIsStuck`). The
  store's claim statement does: it counts an attempt and leaves the row delivering, and only then does
  reading the row back fail, so the claim fails after taking effect and nothing of its batch is offered
  to the deliverer (`OutboxDelivery.PoisonedPass`). A pass with an answered claim offers its batch exactly
  when no claimed record has a blank event type (`OutboxDelivery.PassOffersIff`), and
  `OutboxDelivery.GoodRecordIsHeldBack` is a run in which a good record is held back.
- Deferred calls protect a gateway request only from where they are deferred. A crash between opening the
  file system and deferring its close leaves the handle open, and a crash between the begin call and
  deferring the end call leaves the row to stale recovery; everywhere else both are cleaned up
  (`ExportGateway.EachHandleIsClosedOnce`, `ExportGateway.EachBeginHasItsEnd`). Runs that show both losses
  are `ExportGateway.HandleCanBeLeftOpen` and `ExportGateway.EndCanBeSkipped`.
- A begin call repeated on a row that is already open is answered but does not extend its expiry
  (`ExportLedger.BeginIff`); only a first begin or a heartbeat does (`ExportLedger.AnsweredIsKept`).
- A terminal status is not final: a reconcile to `failed` replaces it. `ExportLedger.TerminalChangesIff`
  says exactly when, and `ExportLedger.RevokedCanFail` is a run in which a revoked session becomes failed.

## Model

| member | source | states |
|---|---|---|
| Fences.AllowedIff | internal/fences/fences.go:200-268 | permission is given exactly to a well-formed request when every listed fence has a well-formed repo id and every fence of that repo is valid and not held |
| Fences.PermissionIsOrderFreeAndShrinks | internal/fences/fences.go:217-268 | permission does not depend on the order of the fences and adding fences never grants it |
| Fences.HolderDecides | internal/fences/fences.go:226-262 | with valid fences and one holder, the holder blocks wherever it stands: recovery is required exactly when it is expired or flagged, a lifecycle request that may wait waits for an active writer with no error, and any other refusal has the family of the holder's kind |
| Fences.FirstBlockerDecides | internal/fences/fences.go:200-268 | for every list, the first fence that does not let a well-formed request through blocks it: an unreadable or invalid one calls for recovery, a valid held one decides by status and kind |
| Fences.ValidIffSound | internal/fences/fences.go:101-164 | validation accepts exactly the fences sound field by field, and a valid fence is held exactly while active, expired or flagged |
| Fences.WellFormedIff | internal/fences/fences.go:270-284 | a request is well formed exactly by its ids, kind and mode, and an ill-formed one is refused as invalid with no blocking fence |
| Fences.DecisionIsOrderFree | internal/fences/fences.go:200-291 | with valid fences and at most one holder of the repo, the full decision with blocking fence and error is order-independent |
| Fences.NobodyHolds | internal/fences/fences.go:264-268 | a well-formed request for a repo that no valid fence holds is allowed with no blocking fence and no error |
| Fences.StepKeepsSafe | internal/fences/fences.go:95-160 | acquiring when allowed, and any change that keeps a row valid and does not re-hold it, keep all rows valid with at most one holder per repo |
| Fences.EveryRunIsSafe | internal/fences/fences.go:95-268 | in every run of fence steps from an empty table, all rows are valid and each repo has at most one holder |
| Fences.HeldRowExcludesOthers | internal/fences/fences.go:200-268 | in every run, while a row is held, whatever its expiry time, no request for its repo is allowed and every other row of the repo is let go |
| Fences.OnlyReleaseFrees | internal/fences/fences.go:95-160 | a row held in one table of a run and not in a later one was let go by a step in between on that very row, which released or recovered it and set its release time |
| FenceOrder.SortSorts | internal/inspection/repo_recovery.go:65-74 | the sorted list is in order of the comparator |
| FenceOrder.SortOrders | internal/inspection/repo_recovery.go:65-74 | the order is by repo id, then creation time, then fence id |
| FenceOrder.SortPermutes | internal/inspection/repo_recovery.go:65-74 | sorting keeps exactly the fences it was given |
| FenceOrder.SortedIsUnique | internal/inspection/repo_recovery.go:66-74 | two sorted lists of the same fences without ties are the same list |
| Recovery.OperationPlanIff | internal/inspection/recovery_planner.go:39-91 | for every record the exact condition of every action: noop, manual, and for an operation that still moves reclaim, finalize cancellation, wait, retry, claimable or recover by its state, lease and attempts |
| Recovery.LeaseDecides | internal/inspection/recovery_planner.go:39-91 | no plan claims, reclaims, retries or finishes an operation with a live lease; a wait lasts exactly until the lease expires, and then a running operation is reclaimed and a cancellation finished |
| Recovery.HeldFencePlan | internal/inspection/recovery_planner.go:93-111 | a valid held fence is waited for exactly while active and recovered exactly when expired or flagged |
| RepoRecovery.InspectRepoRecovery | internal/inspection/repo_recovery.go:51-185 | the loops over the sorted fences with early returns compute the specification Inspect, inspections and plan alike |
| RepoRecovery.StableInOrder | internal/inspection/repo_recovery.go:166-184 | the loop that updates the best plan computes the fold over all candidates, with its early returns |
| RepoRecovery.InspectionIgnoresOrder | internal/inspection/repo_recovery.go:65-103 | the whole result, including which failure is reported, is the same for every order of a tie-free list |
| RepoRecovery.DistinctIdsAreTieFree | internal/inspection/repo_recovery.go:66-74 | pairwise distinct fence ids leave no ties, so the result is order-independent for them |
| RepoRecovery.ManualIffNotHealthy | internal/inspection/repo_recovery.go:61-220 | the plan is manual exactly when the repo is not healthy (every fence valid, held, of this repo, with a matching holder that can move; the one own lifecycle fence in progress; only writer fences when stable; none when terminal), and noop exactly for a healthy stable repo with no fence |
| RepoRecovery.InProgressIffTyped | internal/inspection/repo_recovery.go:239-281 | a status is in progress exactly when one of five types of operation takes a repo through it |
| RepoRecovery.HealthyInProgressPlan | internal/inspection/repo_recovery.go:113-156 | the action for a healthy repo in progress from its fence's status and its holder's state, lease and attempts alone |
| RepoRecovery.HealthyStablePlan | internal/inspection/repo_recovery.go:158-184 | for a healthy stable repo with fences: recover if a fence that is no longer active has a holder not to be reclaimed, else reclaim if a holder's lease has run out, else wait |
| RepoRecovery.FoldIsMostUrgent | internal/inspection/repo_recovery.go:283-311 | folding by urgency returns one of the plans, and none is more urgent |
| RepoRecovery.NoopIffFree | internal/inspection/repo_recovery.go:105-184 | over any table of valid fences, noop is said exactly when the repo is neither in progress nor with an operator and CanAcquire allows any well-formed request for it |
| Outbox.EveryRunIsBounded | internal/audit/outbox.go:106-217 | over every run with a fixed limit: event kept, next retry set exactly in retry_wait, delivered time exactly in delivered, error text exactly in retry_wait and failed, attempts within the limit, effective transitions at most twice the limit |
| Outbox.TerminalIsAbsorbing | internal/audit/outbox.go:138-217 | delivered and failed records accept no transition |
| Outbox.BlankTypeIsStuck | internal/audit/outbox.go:106-217 | no run of the record functions moves a record whose event type is made of spaces |
| Outbox.FreshRecordMovesIff | internal/audit/outbox.go:106-159 | MarkDelivering accepts a new record exactly when its event type is not blank |
| OutboxRecovery.ValidatorsAgree | internal/inspection/recovery_planner.go:171-206 | the classifier's validator and the transitions' validator accept the same records |
| OutboxRecovery.PlanMatchesTransitions | internal/inspection/recovery_planner.go:113-156 | deliver exactly when due, recover exactly when stale, and both can then be done; noop exactly for delivered, manual exactly for failed, and a wait ends exactly at its computed time |
| OutboxRecovery.ReachableRecordsAreClassified | internal/inspection/recovery_planner.go:113-156 | the same for every record any run can reach; a manual one has used all its attempts |
| OutboxDelivery.StatementsRefineTransitions | internal/store/postgres/audit_outbox.go:204-238 | on valid rows the claim, confirm and fail statements do what the record transitions do |
| OutboxDelivery.StaleRecoveryRefinesIff | internal/store/postgres/audit_outbox.go:214-224 | the stale-recovery statement is the failure transition exactly while attempts remain |
| OutboxDelivery.DoKeeps | internal/auditdelivery/delivery.go:62-116 | every pass keeps the row invariant, loses no row, alters no event and leaves terminal rows alone |
| OutboxDelivery.AtLeastOnce | internal/auditdelivery/delivery.go:62-116 | over every run of non-overlapping passes: no record lost, delivered means accepted at least once, acceptances at most one plus failed confirmations, deliverer calls at most the attempts, attempts at most the limit plus stale recoveries |
| OutboxDelivery.DueIff | internal/store/postgres/audit_outbox.go:204-224 | a row can be claimed exactly when new or when its last failure or recovery plus that pass's backoff is over, and recovered exactly when delivering and claimed a threshold ago |
| OutboxDelivery.RetriedAfterBackoff | internal/audit/outbox.go:182-217 | over every run, a row put back by a pass is not claimed again before that pass's time plus its backoff, and can be from then on |
| OutboxDelivery.RecoveredAfterThreshold | internal/auditdelivery/stale.go:43-72 | a stale-recovery pass takes only rows claimed at least its threshold before |
| OutboxDelivery.TimeOfPass | internal/auditdelivery/delivery.go:118-149 | a configured time is the time of a pass, and the clock is asked only without one |
| OutboxDelivery.ErrorsAreRedacted | internal/audit/outbox.go:182-217 | over every run, a stored error text is empty, the stock text or an output of redaction |
| OutboxDelivery.LimitKeptIff | internal/store/postgres/audit_outbox.go:214-224 | a pass keeps the attempt limit exactly when it does not recover a row whose attempts are used up |
| OutboxDelivery.LimitHoldsOverRun | internal/auditdelivery/stale.go:43-72 | over a run in which no pass recovers such a row, attempts never exceed the limit |
| OutboxDelivery.PoisonedPass | internal/store/postgres/audit_outbox.go:72-94 | a pass that claims a row with a blank event type leaves the whole batch claimed and offers none of it to the deliverer |
| OutboxDelivery.PassOffersIff | internal/store/postgres/audit_outbox.go:72-94 | a delivery pass offers something to the deliverer exactly when its configuration is valid, its claim took effect and was answered, it claimed something and no claimed record has a blank event type |
| OutboxDelivery.GoodRecordIsHeldBack | internal/auditdelivery/delivery.go:62-116 | a concrete run in which a record whose event type is a space holds back a good record of its batch, which has used its attempt without being offered |
| OutboxDelivery.BlankTypeNeverEnds | internal/store/postgres/audit_outbox.go:260-318 | over every run a record with a blank event type is never offered to the deliverer and never delivered or failed |
| OutboxDelivery.StaleRecoveryPassesTheLimit | internal/auditdelivery/stale.go:43-72 | a concrete run with limit one whose record is attempted, and offered to the deliverer, twice |
| OutboxDelivery.PassAddsUp | internal/auditdelivery/delivery.go:77-116 | an error-free pass has claimed = delivered + recorded failures; otherwise exactly one failure, and it is the last thing done |
| OutboxDelivery.DeliverAllStopsAtFailure | internal/auditdelivery/delivery.go:77-116 | every claimed record is handled unless a mark call fails, and that record is the last handled |
| OutboxDelivery.Store.DeliverClaimed | internal/auditdelivery/delivery.go:77-116 | the loop with its counters and result list refines the delivery specification |
| OutboxDelivery.Store.DeliverOnce | internal/auditdelivery/delivery.go:62-116 | one pass changes the table as specified and its counters add up |
| OutboxDelivery.Store.RecoverOnce | internal/auditdelivery/stale.go:43-72 | one stale-recovery pass changes the table as specified and counts every row as retry_wait and none as failed for good |
| Disk.AllSafeMeans | internal/exportgateway/nofollow_unix.go:337-378 | the recursive safety check is exactly: every inode at or under the top is a directory or a singly linked file |
| Disk.OutsideIsUntouched | internal/exportgateway/nofollow_unix.go:380-450 | a removal confined to an entry leaves every path that is not at or under it resolving as before |
| Disk.InsideIsGone | internal/exportgateway/nofollow_unix.go:380-450 | after a removal no path at or under the entry resolves |
| Disk.CoverMeansSingle | internal/exportgateway/nofollow_unix.go:541-555 | where link counts cover the names, as every system call keeps it, a directory or singly linked file has one name |
| NoFollow.ValidateTreeAt | internal/exportgateway/nofollow_unix.go:337-378 | accepts only safe trees, accepts all of them when no call fails, ENOENT only for an absent entry, disk and descriptors untouched |
| NoFollow.UnlinkRegularAt | internal/exportgateway/nofollow_unix.go:433-450 | removes the one entry or nothing, descriptors untouched |
| NoFollow.DeleteTreeAt | internal/exportgateway/nofollow_unix.go:380-431 | whichever calls fail nothing changes outside the entry; success removes it; a safe tree is removed when no call fails; descriptors untouched |
| NoFollow.NoFollowFileSystem.OpenParent | internal/exportgateway/nofollow_unix.go:231-252 | refines path lookup: success adds one descriptor denoting the directory reached through real directories, failure adds none, ENOENT means a directory on the way lacks the next segment, and without faults it succeeds exactly on such paths |
| NoFollow.NoFollowFileSystem.RemoveAll | internal/exportgateway/nofollow_unix.go:91-119 | removes a safe subtree and nothing else, refuses an unsafe one, or one behind a link or file, with nothing changed, leaves an absent target alone, changes nothing outside the target whichever calls fail, and leaks no descriptor |
| NoFollow.RemoveAllThroughPaths | internal/exportgateway/nofollow_unix.go:91-119 | the same said of paths: outside paths resolve as before to nodes that are as before, but for the target's entry in its directory; inside is gone after success; unsafe targets are refused unchanged |
| NoFollow.NoFollowFileSystem.Close | internal/exportgateway/nofollow_unix.go:49-56 | the root descriptor is closed once and a second close does nothing; the gateway model closes its handles by the same function |
| NoFollow.NoFollowFileSystem.DupRoot | internal/exportgateway/nofollow_unix.go:254-264 | one new descriptor for the root, or an error and none |
| NoFollow.ValidateRenameEndpoint | internal/exportgateway/nofollow_unix.go:452-467 | accepts only safe trees, or an absent entry where allowed, and accepts these when no call fails |
| NoFollow.Mkdir | internal/exportgateway/nofollow_unix.go:58-72 | adds one empty directory at the path or changes nothing, descriptors untouched, and succeeds on an absent name when no call fails |
| NoFollow.OpenFile | internal/exportgateway/nofollow_unix.go:74-209 | one new descriptor on success and none on failure; it denotes a safe inode at the path; only a create of an absent name changes the tree; it succeeds only on openable paths, never for writing on the root, and on all of them when no call fails |
| NoFollow.StatPath | internal/exportgateway/nofollow_unix.go:153-229 | reports the safe inode the path denotes, succeeds on every such path when no call fails, leaks no descriptor |
| NoFollow.Rename | internal/exportgateway/nofollow_unix.go:121-151 | moves one name and changes no other entry, inodes keep their kind and only a replaced file loses a link, what is moved and what is replaced are safe trees, nothing changes on failure, it succeeds when possible and no call fails, the file system stays usable and no descriptor leaks |
| Paths.DavSegmentsIff | internal/exportgateway/nofollow_unix.go:317-335 | exactly which names are accepted, and that the segments are the name split at its slashes |
| Paths.DavSegmentsUndoBackendPath | internal/exportgateway/gateway.go:860-865 | splitting the backend path of well-formed segments gives the segments back |
| ExportLedger.EndAlwaysCloses | internal/store/postgres/export_sessions.go:559-583 | in an ordered ledger an end call on an existing row always succeeds and leaves it closed |
| ExportLedger.RecoveryIsAlwaysEligible | internal/store/postgres/export_sessions.go:585-606 | in an ordered ledger the count guards of stale recovery never reject a batch |
| ExportLedger.RecoveredIff | internal/store/postgres/export_sessions.go:585-606 | an open row is recovered exactly by a stale recovery at a set time that was offered it after its heartbeat ran out |
| ExportLedger.RecoveredAreCounted | internal/store/postgres/export_sessions.go:585-606 | the rows counted as recovered are exactly those that were open and are recovered |
| ExportLedger.HeartbeatIff | internal/store/postgres/export_sessions.go:545-557 | exactly which heartbeats are answered, and that they leave the later of the old and the sent expiry |
| ExportLedger.BeginIff | internal/store/postgres/export_sessions.go:517-543 | exactly which begins are answered, the row a first one leaves, and that a repeated one changes nothing |
| ExportLedger.AnsweredIsKept | internal/store/postgres/export_sessions.go:517-606 | after an answered first begin or heartbeat, no run in which every stale recovery comes before the expiry it sent recovers the row |
| ExportLedger.RevokeIff | internal/store/postgres/export_sessions.go:499-515 | what a revoke does to a session that has or has not ended, and that nothing else changes |
| ExportLedger.DoKeeps | internal/store/postgres/export_sessions.go:499-639 | every call keeps: counts equal open rows, terminal sessions have none, write rows only for read-write sessions; closed rows never change back and terminal sessions stay terminal, at most becoming failed |
| ExportLedger.RunKeeps | internal/store/postgres/export_sessions.go:499-639 | the same over every interleaving of calls |
| ExportLedger.TerminalSessionsAreDrained | internal/exportreconcile/reconcile.go:134-146 | in every run a revoked, expired or failed session has no open request and zero counts |
| ExportLedger.TerminalIff | internal/store/postgres/export_sessions.go:616-639 | a call gives a session a terminal status it did not have exactly when it is a reconcile of that session, at a set time, in its namespace, not done before, that finds it drained and was owed it: to revoked after a revoke, to expired past its expiry, to failed for a stated reason |
| ExportLedger.TerminalChangesIff | internal/store/postgres/export_sessions.go:616-639 | a terminal session's status changes exactly by a reconcile to failed, at a set time, for a stated reason, in its namespace, not done before, if it is not failed already |
| ExportLedger.RevokedCanFail | internal/store/postgres/export_sessions.go:616-639 | a concrete run in which a revoked session becomes failed |
| ExportLedger.WritesWithinRequests | internal/exportaccess/exportaccess.go:214-219 | active writes never exceed active requests |
| ExportLedger.KeysDiffer | internal/exportreconcile/reconcile.go:148-150 | idempotency keys of different session and target pairs differ, since no target name has a colon |
| ExportLedger.ReusedMeansAlreadyTerminal | internal/store/postgres/export_sessions.go:272-320 | a reconcile answered as reused found its session terminal and changed nothing |
| ExportGateway.EveryRunKeeps | internal/exportgateway/gateway.go:243-428 | every interleaving of any number of requests and other calls keeps the invariant that ties programs, deferred stacks, log, descriptors and ledger together |
| ExportGateway.EachBeginHasItsEnd | internal/exportgateway/gateway.go:389-428 | at every moment of every interleaving a request has at most one begin, over all ids, and at most as many ends, for the same ids; a finished one has its end unless it crashed between the begin call and deferring the end, and then exactly that end is missing |
| ExportGateway.EndCanBeSkipped | internal/exportgateway/gateway.go:389-428 | a concrete run that ends with a begin whose end was never sent |
| ExportGateway.EachHandleIsClosedOnce | internal/exportgateway/gateway.go:364-428 | a request opens at most one handle, over all descriptors, and closes it at most once, and a finished request has closed it unless it crashed between opening it and deferring its close |
| ExportGateway.HandleCanBeLeftOpen | internal/exportgateway/gateway.go:364-428 | a concrete run that ends with a handle opened and never closed |
| ExportGateway.DescriptorsAreAccountedFor | internal/exportgateway/gateway.go:364-428 | the open descriptors are exactly the backends' files and the handles still to be closed or left by a crash, and no two requests share one |
| ExportGateway.OpenRowsAreAccountedFor | internal/exportgateway/gateway.go:614-642 | the open rows of an export are exactly its requests in flight and its lost ones, less those recovered, and its request count is their number |
| ExportGateway.AdmitIff | internal/exportgateway/gateway.go:802-830 | exactly which requests are admitted, by session status, expiry at this clock reading, method and mode; a read-only session admits the four reading methods only, and others get 403 |
| ExportGateway.BeginIsLetIn | internal/exportgateway/gateway.go:614-628 | exactly which begins succeed, at the begin's own clock reading; the row is a write exactly for a method that does not only read, and then the session is read-write; a refusal is 403 when the store answered and 503 otherwise |
| ExportGateway.BeginPromises | internal/exportgateway/gateway.go:614-628 | a begin that succeeds gives its row the gateway's heartbeat time from its clock reading |
| ExportGateway.BeatPromises | internal/exportgateway/gateway.go:644-678 | a heartbeat that takes effect on an open row gives it the heartbeat time from its own reading |
| ExportGateway.LiveRequestKeepsItsRow | internal/exportgateway/gateway.go:644-678 | through any interleaving in which every stale recovery comes before a row's promised expiry, a request whose end is still to be sent keeps its row open |
| ExportGateway.EndSettles | internal/exportgateway/gateway.go:630-642 | an end the store carries out at a set time always closes the request's row |
| ExportGateway.Gateway.ServeHTTP | internal/exportgateway/gateway.go:243-428 | among any others, and with a backend that may crash, ServeHTTP runs to its end; then its begins equal its ends, its handle has been closed exactly as often as opened, and it was refused exactly when it did not begin |
| ExportReconcile.ListedIff | internal/store/postgres/export_sessions.go:608-614 | in an ordered ledger the listed sessions are exactly the drained ones that are revoking or active past expiry, and exactly those with a target |
| ExportReconcile.ListedIsReconcilable | internal/exportreconcile/reconcile.go:134-222 | the request built for a listed session, sent at once, makes it revoked if it was revoking and expired if it was active |
| ExportReconcile.SweepOneDecides | internal/exportreconcile/reconcile.go:79-109 | a session is skipped exactly when its reading has a count or is neither revoking nor active past expiry, and a terminalized one gets the status its reading calls for |
| ExportReconcile.TerminalizedAsCalledFor | internal/exportreconcile/reconcile.go:79-109 | when the loop ends a session it terminalized is revoked if read as revoking and expired if read as active, unless someone else reconciled it to failed |
| ExportReconcile.TerminalIsNeverListed | internal/store/postgres/export_sessions.go:608-614 | once terminal, a session is never listed again, whatever calls follow |
| ExportReconcile.IdentityIsStable | internal/exportreconcile/reconcile.go:148-227 | requests built for the same session and target at different times, from different readings, with other reasons and event ids, have the same operation id, key, scope and hash |
| ExportReconcile.RetryIsReused | internal/exportreconcile/reconcile.go:148-227 | once a reconcile request was carried out, a later one for the same session and target is answered as reused and changes nothing, whatever calls came in between |
| ExportReconcile.IdentitiesDiffer | internal/exportreconcile/reconcile.go:148-227 | requests for different sessions or targets have different keys and scopes |
| ExportReconcile.SweepFinishes | internal/exportreconcile/reconcile.go:79-109 | every session the loop counts as terminalized or reused is terminal with no open row when the loop ends |
| ExportReconcile.SweepAddsUp | internal/exportreconcile/reconcile.go:79-109 | without a failure the four counters account for every listed session, and at most one failure is counted |
| ExportReconcile.PassKeeps | internal/exportreconcile/reconcile.go:55-110 | a whole pass keeps the ledger in order |
| ExportReconcile.DoneIsNeverListedAgain | internal/exportreconcile/reconcile.go:55-110 | a session a pass terminalized or found done is never selected again after any later calls |
| ExportReconcile.RecoveryFailsOnlyWithTheStore | internal/exportreconcile/reconcile.go:63-70 | the stale-recovery step of a pass fails only when the store call does or there is no time |
| ExportReconcile.Runner.SweepListed | internal/exportreconcile/reconcile.go:79-109 | the loop with its counters refines the specification Sweep |
| ExportReconcile.Runner.RunOnce | internal/exportreconcile/reconcile.go:55-110 | refines Pass; an error-free pass has scanned = terminalized + reused + skipped + raceLost and scans all listed sessions or the limit, ten by default |
| OperationExec.BuildHandlers | internal/operationexec/operation.go:73-124 | the handler map is built exactly when all registrations are valid with distinct keys, and holds exactly them |
| OperationExec.OneShot | internal/operationexec/operation.go:186-208 | for any Commit calls, the store is called at most once and only with the executing operation's id and event type |
| OperationExec.Committer.Commit | internal/operationexec/operation.go:186-208 | one call's effect on the committer, and success exactly for a first, fitting, stored attempt |
| OperationExec.Execute | internal/operationexec/operation.go:136-169 | the exact outcome for any Commit calls: nil exactly when a handler is registered, time is set, the handler returned nil and made exactly one Commit call, which succeeded, and otherwise which error |
| Paths.CleanAbsIff | internal/config/config.go:1098-1115 | the clean absolute paths are exactly the slash-joined lists of plain segments |
| Paths.ContainsIff | internal/config/config.go:1117-1120 | containment is proper segment prefix |
| VolumeRoots.OverlapIff | internal/jvsrunner/runner.go:1277-1287 | overlap is segment prefix one way or the other, and symmetric |
| VolumeRoots.ValidRootIff | internal/config/config.go:1098-1106 | a root is valid exactly when it is a slash before one or more plain segments |
| VolumeRoots.ValidateVolumeRoots | internal/config/config.go:1098-1115 | accepts exactly the maps with valid ids, valid roots and no two overlapping roots, whatever the iteration order |
| VolumeRoots.OneRootPerPath | internal/config/config.go:1098-1115 | every clean path lies under at most one accepted root |
| VolumeRoots.DirectTargetIsSplit | internal/jvsrunner/runner.go:543-554 | no path is under both roots of a valid direct target, and the check is symmetric |
| Routes.RoutePathParams | internal/api/routes.go:100-121 | the loop over segments computes the parameters of the pattern, or fails with it |
| Routes.SegmentMatches | internal/api/routes.go:136-158 | a pattern segment with a placeholder matches exactly a non-empty value followed by the pattern's suffix, and yields that value |
| Routes.MatchIffAccepts | internal/api/routes.go:95-158 | a well-formed pattern matches a path exactly when no name occurs twice in it and its segments accept the path's segments one by one; the parameters have exactly the pattern's names, and filling them back in gives the path's segments |
| Routes.FillThenMatch | internal/api/routes.go:100-158 | filling any pattern with non-empty slash-free values and matching it back returns the values |
| RouteTable.AtMostOneRoute | internal/api/routes.go:19-51 | for every method and path at most one of the 31 routes matches |
| RouteTable.LookupIgnoresOrder | internal/api/routes.go:74-89 | first match over any routes of the table in any order finds the matching route |
| RouteTable.DispatcherGateAndLeafAgree | internal/api/shell.go:509-526 | for every request, the authorization gate and the leaf of a handler that owns routes of one method find exactly the dispatched route if it is theirs, and nothing otherwise |
| RouteTable.LifecycleLookupsAgree | internal/api/repo_lifecycle_handler.go:90-116 | this holds for the repo lifecycle handler with its five routes |

## Left out

- Fences.AllowedIff: error values carry their family and field, not the human-readable reason text.
- RepoRecovery.InspectRepoRecovery: the inspection-surface fields, which are constant, are not carried; `repo.Validate` is a boolean of the snapshot.
- OutboxDelivery.AtLeastOnce: delivery workers that overlap are not modelled; stale recovery during a slow delivery can cause further acceptances.
- NoFollow.OpenFile: file contents, permission bits and the exclusive-create flag are not modelled; truncation is a call that may fail.
- NoFollow.NoFollowFileSystem.RemoveAll: nobody else changes the tree during the call, and each file system object has one device.
- Paths.DavSegmentsUndoBackendPath: the UTF-8 check of segments is not modelled, since strings are sequences of characters.
- Paths.ContainsIff: `filepath.Rel` is modelled on clean absolute paths, the only ones both callers pass.
- ExportGateway.Gateway.ServeHTTP: the password check and the path policy are one arbitrary flag, the webdav backend is a step that opens and closes files and may crash, and a heartbeat may come at any time once started, even after the end.
- ExportGateway.EachBeginHasItsEnd: a deferred call that crashes itself counts as a call that failed.
- ExportReconcile.Runner.RunOnce: of the built operation record and audit event the fields for identity, times and reason are kept; the rest are constants or copies.
- OperationExec.Execute: a handler is its sequence of Commit calls and its return value; what else it does is not modelled.
- The opening of the payload root by path in `newNoFollowFileSystem`, and reading, writing and seeking in open files.
- The parsing of volume roots from configuration text, and the rest of configuration loading.
- Trimming and upper-casing of the HTTP method before route lookup.
- Checks that a store, deliverer or handler pointer is non-nil.
- The other PostgreSQL adapters, migrations, command entry points, HTTP servers, loggers and timers.
- API request validation, error envelopes and capability tables, which are single-branch facts or finite tables.
- The JVS command runner around its path checks, and the repository's contract lint tool.
