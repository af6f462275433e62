# AXE PABX: verified models of its stateful services

This project models, in Dafny, the parts of the AXE PABX control plane whose guarantees hold over whole runs,
and proves those guarantees. Run `dafny verify dfyconfig.toml`.

**Tenants (admin-api, backup).** Creating or removing a tenant touches eight configuration files,
`pjsip_dynamic.conf`, the extension store, the tenant registry and the AstDB family `tenant-did`. `Host` is the
machine. Every file operation, rename, AMI command and reload is a step of one of four kinds, and `Oracles` holds
for each kind the schedule of the faults that its steps meet: the operation itself (`forward`), the undoing inside
a context manager (`undoing`), the compensation (`compensating`), and the removals of temporaries (`removals`). A
command may also take effect although its caller is told that it failed. `ConfPublisher`, `TenantProvisioning`,
`TenantDeprovisioning` and `RestoreSandbox` are the transactions over it: for every schedule they say which outcome
is reported and what state is left. `Tenants` proves over every run of calls exactly when registry, files and AstDB
go on agreeing. "A failure that does not report an incomplete rollback restores everything" is not true of the
code: `RefusedRemovalLeavesFiles` and `RefusedRestorationKeepsNewText` exhibit the two failures that are not
reported, and the contracts give their exact conditions.

**Configuration generator (admin-api).** `ConfRender` writes the dynamic Asterisk files, `ConfInspect` reads them
again with thirty checks. `ConfRenderAll` proves that the generator never rejects its own output except for a file
beyond 2 MiB: the text is taken apart by the inspector's own searches (`ConfText`, `ConfReading`), not by a second
description of it.

**Outbound dialing (queue-api).** `OutboundAdmission` is the sliding-window limiter with its idempotency table and
its tickets in flight; `OutboundAdmissionRuns` relates it to a log of all grants. `OutboundRecords` holds the life
of one record to be dialed; `Callbacks`, `CallbackStore` and `Campaigns` are the two catalogs under it;
`Correlation` ties AMI events to attempts, and `OutboundEvents` is the handler that settles a callback by one;
`Reconcile` is the quarantine of stale claims, with the state that a crash can leave at every write.

**AMI and SIP transport (queue-api, lab).** `AmiTransport` is the protocol of one reader, many senders and `stop`
as interleaved steps. `AmiFraming` and `SipFraming` cut frames out of a stream whose slices may have any size;
section 7.5 of RFC 3261 gives the framing of the second. `AmiProtocol` is the printer and the parser of AMI text.

**AMI event mirrors (queue-api).** `QueueState` and `QueueMirror` hold the callers waiting, `QueueSla`,
`QueueSlaRuns` and `QueueSlaHistory` the service level, `Metrics` and `MetricsRuns` the calls of the day, `Dedupe`
the bounded memory that both of the latter use.

Conventions. A class has the fields of the class it models, and each of its methods is proved equal to a function
on a value of its state; the theorems are lemmas about those functions. A clock reading is an argument of the call
that makes it, and where the source reads the clock more than once in a call there is one argument for each
reading. Days are numbers, in the order of the calendar. Bytes are characters. Random ids are arguments.
`str.isprintable` is an arbitrary predicate on characters; the generator needs of it only that it excludes line
breaks and NUL.

## Model

| member | source | states |
|---|---|---|
| ConfPublisher.PublishConfBatch | admin-api/conf_publisher.py:47-104 | succeeds if and only if its caller does and no step meets a fault; then every named file has its new text; after a failure the tree is the old one but for the files whose restoration failed, which have their new text, and there are some if and only if a step of the undoing met a fault; temporaries are as before if and only if no removal was refused |
| ConfPublisher.RestoreSnapshot | admin-api/conf_publisher.py:34-44 | a target returns to its recorded content and mode or to absence; it fails if and only if one of its steps meets a fault, and then the tree is untouched |
| ConfPublisher.UndoPublished | admin-api/conf_publisher.py:90-101 | every published file is restored, last first, or is among the refused ones with its content unchanged; none is if and only if no step met a fault |
| TenantProvisioning.CreateExclusively | admin-api/tenant_provisioning.py:55-97 | no pre-existing file is overwritten or deleted; succeeds if and only if the caller does, no target existed, and no step and no removal of a temporary failed; after a failure the first few new files are left: none if and only if no unlink was refused, but all of them if only the removal of a temporary failed |
| TenantProvisioning.ProvisionTenant | admin-api/tenant_provisioning.py:100-156 | success if and only if the texts were rendered, no file of the tenant existed, and no step and no removal of a temporary failed; an incomplete rollback is reported if and only if a step of the compensation failed; which of the new files are left after a failure, what registry, AstDB and runtime are, and that nothing else changes |
| TenantProvisioning.RefusedRemovalLeavesFiles | admin-api/tenant_provisioning.py:94-97 | the failure that is not reported: if everything goes well but the removal of temporaries, all eight files stay although registry and AstDB do not know the tenant |
| TenantProvisioning.Compensate | admin-api/tenant_provisioning.py:127-153 | the second compensation phase restores the registry and unregisters the DID; it reports an incomplete rollback if and only if a step of it meets a fault |
| TenantDeprovisioning.RemoveTenant | admin-api/tenant_deprovisioning.py:77-146 | success if and only if the store could be read, the rest rendered, all eight files existed and no step failed, and then exactly the tenant's files, extensions, registry entry and DID are gone; an incomplete rollback is reported if and only if a step of the compensation failed; otherwise a failure restores every file, except that pjsip_dynamic.conf has its new text if and only if its restoration failed, and the store may change only its mode |
| TenantDeprovisioning.RefusedRestorationKeepsNewText | admin-api/conf_publisher.py:91-104 | the failure of a removal that is not reported: pjsip_dynamic.conf keeps its new text wherever its restoration is refused after AMI could not be reached |
| TenantDeprovisioning.CloseRetired | admin-api/tenant_deprovisioning.py:65-74 | retired files return with their content and mode, or the failure is reported as incomplete |
| TenantFiles.PathsNameTheirTenant | admin-api/tenant_deprovisioning.py:28-44 | each of the eight paths names its tenant, so no two tenants share a file |
| TenantFiles.PathsAreDistinct | admin-api/tenant_deprovisioning.py:28-44 | the eight paths of a tenant differ |
| Tenants.ValidateCreation | admin-api/tenants.py:100-145 | an accepted request has an id t3 or later and a DID that no registered tenant and no static route has |
| Tenants.ValidateRemoval | admin-api/tenants.py:148-166 | finds the registered tenant whose id was asked for, stripped and in lower case; none if and only if the id is malformed, not of the wizard, or not registered |
| Tenants.ProvisionKeepsAgreement | admin-api/tenant_provisioning.py:111-126 | a confirmed creation keeps ids and DIDs pairwise distinct and registry, files and AstDB in agreement |
| Tenants.RemovalKeepsAgreement | admin-api/tenant_deprovisioning.py:95-115 | a confirmed removal does |
| Tenants.RollbackKeepsAgreement | admin-api/tenant_deprovisioning.py:116-143 | so does a removal that failed without a report |
| Tenants.FailedCreationAgreesExactly | admin-api/tenant_provisioning.py:121-153 | a creation that failed without a report keeps the agreement if and only if it left no file |
| Tenants.Serve | admin-api/tenant_provisioning.py:100-156 | serves any sequence of creations and removals one by one: each request that is not admitted changes nothing, each other is its transaction from the state that the one before it left |
| Tenants.RunAgreesExactly | admin-api/tenant_deprovisioning.py:80-115 | over any such run that starts in agreement and reports no incomplete rollback, the three stores agree after every call if and only if every creation that failed did so by a step and with no unlink of its new files refused |
| RestoreSandbox.Sandbox.Restore | backup/restore_sandbox.py:32-78 | succeeds if and only if all nine components are in the snapshot and no rename fails, and then all are swapped; after a failure the sandbox is as it was but for the first few components that are still the restored ones and those that are lost, of which there are some if and only if a step of the undoing failed; nothing else is touched |
| RestoreSandbox.Sandbox.UndoAll | backup/restore_sandbox.py:71-77 | swapping back, last first, restores every component done so far, up to the first refusal |
| ConfRender.ValidatePersisted | admin-api/conf_generator.py:100-170 | accepts exactly the lists of acceptable records with distinct names and distinct numbers within a tenant |
| ConfReading.SectionsOfPjsip | admin-api/conf_generator.py:260-265 | the sections read from the written file are the stanzas of its records, line by line |
| ConfReading.StanzasAreFound | admin-api/conf_generator.py:268-276 | each record finds its own endpoint, auth and AOR stanza and no other |
| ConfGateTenant.ChunkIsFound | admin-api/conf_generator.py:279-285 | each record finds its own chunk of the dialplan |
| ConfGateTenant.DialsAreThose | admin-api/conf_generator.py:352-355 | the numbers that the search finds in a dialplan are those of its records, in order |
| ConfGateTenant.HintsAreThose | admin-api/conf_generator.py:366-372 | the hints read back are those of the records |
| ConfGateTenant.MailboxesAreThose | admin-api/conf_generator.py:373-379 | the mailboxes read back are those of the records |
| ConfGenerator.RenderingNames | admin-api/conf_generator.py:201-205 | the rendered files have exactly the expected names |
| ConfGenerator.CountOfNames | admin-api/conf_generator.py:384 | these are one and three for each tenant, all different |
| ConfGenerator.RenderingAt | admin-api/conf_generator.py:201-205 | each tenant's three files hold the text of its own records, whatever is rendered after them |
| ConfRenderAll.GeneratorPassesItsGate | admin-api/conf_generator.py:380-419 | of the thirty checks over the rendering of an accepted list all hold but DE-08, which holds if and only if no file exceeds 2 MiB |
| ConfRenderAll.RenderAll | admin-api/conf_generator.py:172-209 | raises if and only if a tenant id is none, a record is not acceptable or a file is too large; otherwise returns the rendering |
| OutboundAdmission.OriginateAdmission.Admit | queue-api/outbound_admission.py:68-116 | decides and updates windows, requests and tickets as the specification says, for every request and clock reading |
| OutboundAdmission.OriginateAdmission.Close | queue-api/outbound_admission.py:118-132 | settles a ticket and forgets its request only when it was rejected |
| OutboundAdmission.OriginateAdmission.CleanUp | queue-api/outbound_admission.py:51-66 | drops exactly what is too old |
| OutboundAdmissionRuns.SlidingWindowSafety | queue-api/outbound_admission.py:84-112 | at every instant at most the limit of grants to a tenant, and to an extension, lies within the last minute, over every run whose snapshots do not fall behind earlier readings, nor reservations behind a snapshot; reservations may fall behind one another, since stale ones are refused |
| OutboundAdmissionRuns.RunsAreExact | queue-api/outbound_admission.py:51-58 | each window is the part of the log of all grants that is younger than a minute |
| OutboundAdmissionRuns.RunsKeepTables | queue-api/outbound_admission.py:59-66 | every keyed ticket in flight has its pending request of the same moment, and a key has at most one ticket |
| OutboundAdmissionRuns.IdempotencyOverRuns | queue-api/outbound_admission.py:84-116 | between two grants for one request id lies a rejection of the first ticket or the whole time to live |
| OutboundAdmissionRuns.LateFinishLeavesNewerReservation | queue-api/outbound_admission.py:118-132 | a finish changes nothing about the request of another key, nor about that of its own key once a newer reservation exists |
| OutboundAdmissionRuns.LateSnapshotForgetsReservation | queue-api/outbound_admission.py:134-139 | one snapshot with a reading behind the last reservation lets the same request be granted twice at the same instant, and a limit of one be exceeded |
| OutboundAdmissionRuns.SnapshotHarmsExactly | queue-api/outbound_admission.py:51-58 | for any reading of a snapshot: the window that a later reservation finds is exact if and only if no grant is recent then, or the oldest recent grant before the snapshot is not in its future and the oldest that is recent at the reservation is not too old for the snapshot |
| OutboundRecords.DialsAreCounted | queue-api/callbacks.py:355-375 | in the life of a record the counter of attempts is the number of its dials, and never passes the limit |
| OutboundRecords.ChangesAreBounded | queue-api/callbacks.py:378-402 | every change of a record strictly decreases a measure, so its life has an end |
| OutboundRecords.FinishedForGood | queue-api/callbacks.py:363-368 | a record that is neither pending nor being dialed, as under manual review, never changes again |
| Callbacks.ValidateCatalog | queue-api/callbacks.py:86-154 | accepts exactly the valid catalogs: unique ids, sound active records, distinct source claims and distinct attempts |
| CallbackStore.CallingKeepsExactly | queue-api/callbacks.py:355-375 | reserving a callback leaves a catalog that loads again if and only if the attempt id is not one under way and the record carries no malformed answer |
| CallbackStore.MalformedAnswerSpoilsCatalog | queue-api/callbacks.py:86-154 | a valid catalog with a malformed answer on a pending record does not load any more once that record is reserved |
| CallbackStore.ResultKeeps | queue-api/callbacks.py:378-402 | a result keeps the catalog valid |
| CallbackStore.CancelKeeps | queue-api/callbacks.py:332-353 | a cancellation does |
| CallbackStore.RequestKeeps | queue-api/callbacks.py:199-248 | so does a new request |
| CallbackStore.SourceAsksOnce | queue-api/callbacks.py:218-226 | an AMI source that asked for a callback never adds a second one, whatever happened to the catalog in between, and is given the first record if and only if it brings the same number |
| CallbackStore.RetrySafety | queue-api/callbacks.py:332-402 | over any run a callback is dialed at most twice, its counter counts its dials, and what is finished stays as it is |
| CallbackStore.RunKeepsCatalog | queue-api/callbacks.py:157-176 | over any run with attempt ids that are not under way, from a valid catalog whose active records carry no malformed answer, the stored catalog can always be loaded again |
| CallbackStore.NextPending | queue-api/callbacks.py:299-329 | the oldest pending request, the first of several as old; none exactly when nothing is pending or the list is spoiled |
| CallbackStore.NobodyIsStuck | queue-api/callbacks.py:299-329 | in a valid catalog nothing spoils the order |
| CallbackStore.CallbackFile.MarkCalling | queue-api/callbacks.py:355-375 | writes what the specification says, or reports a catalog that does not load, or refuses |
| CallbackStore.CallbackFile.MarkResult | queue-api/callbacks.py:378-402 | likewise |
| CallbackStore.CallbackFile.CancelPending | queue-api/callbacks.py:332-353 | likewise; malformed ids are refused before the catalog is read |
| CallbackStore.CallbackFile.AddRequest | queue-api/callbacks.py:199-248 | likewise; a known source is given its record, or refused if the number differs |
| Campaigns.ValidateCatalog | queue-api/campaigns.py:82-132 | accepts exactly the valid catalogs |
| Campaigns.RunKeepsCatalog | queue-api/campaigns.py:218-304 | every operation keeps the stored catalog valid |
| Campaigns.RetrySafety | queue-api/campaigns.py:247-304 | over any run a contact is dialed at most three times, its counter counts its dials, and what is finished stays as it is |
| Campaigns.ReserveContact | queue-api/campaigns.py:247-270 | reserves the first contact of the number if it is pending and below the limit, and nothing else |
| Campaigns.ConcludeContact | queue-api/campaigns.py:273-304 | concludes the contact of the number that is being dialed, and nothing else |
| Campaigns.NextPending | queue-api/campaigns.py:237-244 | the first contact that may be dialed |
| Correlation.AtMostOneInFlight | queue-api/outbound_correlation.py:19-72 | with distinct attempts, a DialEnd or an OriginateResponse matches at most one record being dialed |
| Correlation.CallbackAttemptsAreDistinct | queue-api/callbacks.py:132-144 | a valid callback catalog has distinct attempts |
| OutboundEvents.DialResultExactly | queue-api/server.py:313-337 | a DialEnd changes the catalog if and only if a callback of its tenant and number is being dialed under the attempt it names, was not refused, and no campaign contact claims the event; that callback gets the status its outcome and counter decide, and nothing else changes |
| OutboundEvents.DialEventCountsOnce | queue-api/server.py:313-337 | delivering the same DialEnd again changes nothing, whatever was done to the catalog in between and even if the callback is being dialed again |
| Reconcile.OutboundFiles.QuarantineClaim | queue-api/reconcile_outbound.py:65-107 | at every point of a crash the catalog is the old one, or the one with the single claim under review behind its durable request; the audit only grows |
| Reconcile.FindClaims | queue-api/reconcile_outbound.py:27-43 | finds exactly the stale claims of the tenant, id and number |
| Reconcile.QuarantineOnlyReviews | queue-api/reconcile_outbound.py:102-105 | only the claim changes, and no record becomes pending |
| AmiTransport.OneOutcomePerWaiter | queue-api/ami_client.py:149-175 | in every interleaving a sender gets at most one of response and error, and a response carries its own ActionID |
| AmiTransport.OutcomeIsFinal | queue-api/ami_client.py:164-172 | an outcome never changes afterwards |
| AmiTransport.NobodyWaitsAfterTheEnd | queue-api/ami_client.py:128-131 | once the reader has ended and any one clean-up has swept the table, no sender past the check of `_running` whom nobody has in hand waits on an unresolved record |
| AmiTransport.WaitingMeansInSomeonesHands | queue-api/ami_client.py:37-43 | an unresolved waiter is held by whoever took it out, or in the table while no clean-up has swept it |
| AmiTransport.ReachableInv | queue-api/ami_client.py:84-175 | the invariant behind these holds in every reachable state |
| AmiFraming.Reader.ReadLoop | queue-api/ami_client.py:106-131 | however the stream is sliced, the frames dispatched are those of a leftmost split at blank lines, up to the end of the stream, a stop or a frame that is not accepted at that time; no size limit trips if every frame leaves room for one recv |
| AmiFraming.FramesContinue | queue-api/ami_client.py:106-124 | the frames of a stream received in two parts are those of the whole |
| AmiFraming.UnfinishedIsSmall | queue-api/ami_client.py:114-124 | an unfinished frame never reaches the limit |
| SipFraming.Connection.Receive | lab/sip_tls.py:100-115 | returns the next message of the stream whole and leaves the rest, however the stream is sliced; a message that leaves room for one recv is never refused |
| SipFraming.HeadIsStable | lab/sip_tls.py:13-30 | more bytes never change what was decided about the head of a stream |
| AmiProtocol.BuildAction | queue-api/ami_protocol.py:41-58 | accepts exactly the non-empty dictionaries of valid fields |
| AmiProtocol.ParseAmiBlocks | queue-api/ami_protocol.py:11-38 | computes the blocks of a text |
| AmiProtocol.BlankLineOnlyAtTheEnd | queue-api/ami_protocol.py:41-58 | a written action holds a blank line at its end and nowhere before |
| AmiProtocol.RoundTrip | queue-api/ami_protocol.py:11-58 | parsing any sequence of written actions gives back exactly their fields, in order, values stripped |
| AmiProtocol.FramesReadBack | queue-api/ami_client.py:84-86 | framing and parsing together: each frame of written actions is one block, the block of its action |
| QueueState.QueueStateTracker.ApplyEvent | queue-api/queue_state.py:117-170 | moves waiting rows and counters as the specification says, for every event and clock reading |
| QueueState.QueueStateTracker.PruneStale | queue-api/queue_state.py:80-87 | every stale row leaves and is counted, in whatever order the rows are visited |
| QueueState.QueueStateTracker.EndCall | queue-api/queue_state.py:89-115 | removes the row or counts why not |
| QueueState.QueueStateTracker.RemovePickedUp | queue-api/queue_state.py:199-208 | removes the picked-up row |
| QueueMirror.Conservation | queue-api/queue_state.py:75-170 | for a counted tenant, joins and requeues are the rows waiting, the rows that left under one of eight names, and the rows replaced by a requeue |
| QueueMirror.UncountedForGood | queue-api/queue_state.py:75-78 | a tenant that is not counted while it has a row, or while the table is full, never is |
| QueueMirror.FirstJoinDecides | queue-api/queue_state.py:149-170 | a Join of a tenant is counted, or no event of that tenant ever is, whether or not a row of it is left |
| QueueMirror.RunIsValid | queue-api/queue_state.py:149-170 | in every reachable state each row belongs to the tenant of its queue and the mirror is within its bound |
| QueueMirror.TenantMovesExactly | queue-api/queue_state.py:141-154 | a tracked channel that has not expired changes tenant if and only if both Uniqueids are known and differ |
| QueueMirror.OnlyItsOwnJoinMovesARow | queue-api/queue_state.py:117-170 | no other step changes a row that stays |
| QueueMirror.RedeliveredJoinKeepsItsRow | queue-api/queue_state.py:141-147 | a Join delivered again leaves the row and its waiting time, until it expires |
| QueueMirror.EndRemovesExactly | queue-api/queue_state.py:89-115 | an end event removes its row if and only if the queue fits and the Uniqueid does not contradict it |
| Dedupe.BoundedRefinesUnbounded | queue-api/queue_sla.py:154-162 | as long as no more different keys come than the memory holds, it lets through what an unbounded one would |
| Dedupe.PassesAgainOnlyAfterManyOthers | queue-api/metrics.py:86-91 | a key passes again only after as many others as the memory holds |
| QueueSla.QueueSlaTracker.ApplyEvent | queue-api/queue_sla.py:142-162 | rolls the day, looks up, counts and remembers as the specification says, for both clock readings |
| QueueSla.QueueSlaTracker.ResetIfNewDay | queue-api/queue_sla.py:106-127 | a new day writes one row for each queue, in order, and starts empty |
| QueueSlaRuns.Conservation | queue-api/queue_sla.py:106-140 | for every queue, history and current day together count exactly the calls ever counted, offered and within the threshold |
| QueueSlaRuns.CountedCallsArePassed | queue-api/queue_sla.py:154-162 | the calls that a tracker counts on a day are those that a memory of ten thousand lets through of the calls delivered that day |
| QueueSlaRuns.OfferedCountsCallsOnce | queue-api/queue_sla.py:142-162 | on a day on which at most ten thousand different calls were delivered, `offered` is the number of different calls delivered for the queue and of events without a Uniqueid, and `within_sla` is decided by the first delivery of each |
| QueueSlaRuns.RefusedExactlyWhenRemembered | queue-api/queue_sla.py:154-156 | a call is refused if and only if it is among the last ten thousand of the day |
| QueueSlaRuns.CountedAgainOnlyAfterManyOthers | queue-api/queue_sla.py:158-162 | a call is counted again only after ten thousand others |
| QueueSlaRuns.FirstOutcomeStands | queue-api/queue_sla.py:154-156 | delivering a call again on the same day, with any outcome and whatever came in between, changes nothing while the call is among the last ten thousand counted |
| QueueSlaRuns.HistoryHasOneRowEach | queue-api/queue_sla.py:112-123 | with a monotone clock each closed day has exactly one row for each queue that had calls, with that day's counts, and none for any other queue |
| QueueSlaRuns.ClosingRowsAre | queue-api/queue_sla.py:113-122 | closing a day writes the row of every queue with its counters |
| QueueSlaHistory.Summarize | queue-api/queue_sla.py:367-390 | refuses exactly the lists with an invalid line, and otherwise sums by date and queue |
| QueueSlaHistory.SummaryIgnoresOrder | queue-api/queue_sla.py:367-390 | the order of the lines makes no difference |
| Metrics.DailyMetrics.ApplyCdrEvent | queue-api/metrics.py:58-98 | counts as the specification says |
| Metrics.TenantDailyMetrics.ApplyCdrEvent | queue-api/metrics.py:158-167 | routes each record to its tenant as the specification says |
| Metrics.TenantFromCdr | queue-api/metrics.py:131-141 | the tenant is t if and only if the event is a CDR, t has the form of an id, and every spelling of the account code that is present, at least one, is t |
| MetricsRuns.Projection | queue-api/metrics.py:144-179 | with a steady clock and room for the tenants of a day, a tenant's snapshot is that of a record fed with its events alone |
| MetricsRuns.TotalCountsLegsOnce | queue-api/metrics.py:58-98 | on a day with at most ten thousand different legs the total is the number of different legs delivered and of events without a Uniqueid |
| MetricsRuns.LegCountedAgainOnlyAfterManyOthers | queue-api/metrics.py:86-91 | the total counts what the bounded memory lets through, and a leg again only after ten thousand others |
| MetricsRuns.TenantCountsLegsOnce | queue-api/metrics.py:152-179 | through the records of all tenants: a tenant is shown the number of its own different legs, however often and among whatever else they were delivered |
| MetricsRuns.TotalIsAnsweredAndMissed | queue-api/metrics.py:91-98 | every shown total is the answered and the missed calls |
| MetricsRuns.CallIsSeenExactlyWithoutMidnight | queue-api/metrics.py:152-167 | a counted call is seen by its tenant if and only if no midnight fell between the two readings of the clock within its event |

## Left out

- HTTP handlers, sessions, TLS, threads and `flock`: a call under its lock is one step; senders, reader and `stop` of the AMI client are interleaved steps.
- Checks for symbolic links, inodes, permissions and regular files: a refusal of the schedule of faults stands for them. KeyboardInterrupt and other errors outside `Exception` between two steps of a tenant transaction are not modelled.
- The text of the eight tenant files (`admin-api/tenants.py`), their substring checks and the random PINs: the rendered texts are an argument.
- TenantProvisioning.ProvisionTenant: of a failure that is reported as incomplete, registry and runtime are not described. The number of a temporary stands for its name, and its content is known to the call that wrote it.
- Bytes of the JSON files: a store is a list or something else. A partial reload counts as none.
- Json records in `validate_persisted_extensions` with a missing or ill-typed mandatory field are not modelled; an optional field may be missing.
- Averages, rates and percentages of the metrics and of the service level: roundings of the counters that are modelled.
- QueueSla.QueueSlaTracker.ResetIfNewDay: every history append succeeds; a raising append leaves the day open in the source and repeats its rows later.
- QueueSlaRuns.HistoryHasOneRowEach: the clock readings that take effect must not run back, because the source closes a day whenever the date differs.
- MetricsRuns.Projection: needs one day for all readings within an event; CallIsSeenExactlyWithoutMidnight says what happens otherwise. The records of the tenants are values in a map, so aliasing between them is not captured.
- OutboundAdmissionRuns.SlidingWindowSafety: the readings of snapshots, which the source compares with nothing, must be in order; LateSnapshotForgetsReservation shows why, and SnapshotHarmsExactly when it matters.
- AmiTransport.OneOutcomePerWaiter: action ids are never used twice, since a reused one lets one sender drop the record of another; a second connection on the same client object is not modelled.
- Metrics and mirrors treat AMI events as maps from text to text; values of other types cannot come from the parser.
- CallbackStore.CallbackFile.AddRequest: the record that is returned is its place in the catalog.
- OutboundEvents.DialEventCountsOnce: an attempt id is not drawn twice. The tenant and the number that the handler takes from an event are arguments; the results of campaign contacts, of the same shape, and the recorded responses to Originate are not modelled.
- Correlation.AtMostOneInFlight: the validator of the campaigns does not see to distinct attempts, so they are assumed there.
- Reconcile.OutboundFiles.QuarantineClaim: a torn audit line counts as not written; the hash of the number is the number itself.
- The order of `waiting_list`, health snapshots, summaries of callbacks and campaigns, extraction of dialed numbers, SIP authentication and the rest of `lab/`: single expressions or wrappers that would only add easy members.
- The insights reports, cockpit, TOTP, notifiers, AI worker and provisioning server: no state whose guarantees span runs.
