# Verified model of the local gateway's authorities

The gateway keeps several small authorities that must fail closed: an audit log with an external anchor, replay
guards, an approval store, the C4 runtime admission controller, the C9 attachment authority with its image
sanitisers, a request budget, and the parsers and framing behind its tree commitments. This project models each of
them in Dafny and proves what they guarantee over all inputs, all runs and all interleavings.

`dafny verify dfyconfig.toml` checks everything.

## Layout

| files | what they hold |
|---|---|
| `AuditChain`, `AuditAnchor`, `AuditProtocol`, `AuditRuns`, `AuditLoader` | the HMAC-chained log, its anchor, the two-file commit protocol with crashes, and the second verifier |
| `ReplayGuard`, `TaskVerification` | the in-memory and the SQLite guard, and `verify_task` |
| `Approvals`, `ApprovalRuns` | the approval table and its runs |
| `Admission`, `AdmissionController` | the pure C4 evaluation, and the controller with its critical sections |
| `LeaseStore`, `LeaseSections`, `LeaseAuthority`, `LeaseRuns`, `LeaseInvariant`, `LeaseSafety`, `LeaseClones`, `LeaseGuarantees` | the C9 attachment authority: its sections on values, the same on mutable records and buffers, every interleaving of them, the invariant and its proof, and the guarantees |
| `Png`, `Jpeg`, `ImageLimits` | inspection and sanitising of images |
| `FramedTree`, `GitOutput` | the framed tree commitment and the readers of git's output |
| `RequestBudget` | the sliding window of `authorize` |
| `Bytes`, `Json`, `Outcomes` | shared values |

How the parts fit. Code that changes state is a class or a method with loops, and its contract ties it to a function
on values; what the code promises is then proved about those functions. Where a call releases its lock, each critical
section is one event and the lemmas range over every sequence of events. Time is in integer microseconds.

Assumptions are stated where they are used, as hypotheses: HMAC and SHA-256 do not collide on the finitely many values
in play; ids from `uuid4` and `secrets` were not drawn before; callers of the attachment authority name only lease ids
that were returned to them or that are no longer live. CRC-32, zlib, HMAC, digests and the UTF-8, UUID and timestamp
parsers are function parameters.

Findings worth knowing:

* If the clock goes back, both replay guards can accept an envelope that they accepted before, and they can disagree. In
  memory it takes a call that reads a clock past the envelope's expiry and reaches the table; in the database that call
  must also be accepted, because a rejection rolls the pruning back (`AcceptedTwiceIff`, `DatabaseAcceptedTwiceIff`,
  `GuardsDisagreeIff`, `GuardsAgreeIff` say exactly when; three runs show each case). With a clock that does not go back
  no envelope is accepted twice and the guards are equal.
* `clone_manifest_leases` inserts leases without looking at the closed flag. It is safe because a closed store has no
  manifest purposes (`PurposesMeanOpen`).
* A digest over a manifest or approval is not keyed, so a caller can make up either. Delivery at most once, reservation
  and conservation hold regardless. A consumption must start before its leases expire, but when it ends only the expiries
  written in the manifest and the approval are looked at: it can succeed on an expired lease exactly when that lease
  expires before both (`OverrunIff`, with a run in `MadeUpManifestOverruns`). Manifests that the authority made never do.
* `_read_blobs` accepts a header that announces a negative size, such as `-1` for an empty blob without its own newline
  (`NegativeSizeIsAccepted`). Without such headers it accepts exactly the batches (`ForwardAcceptedIff`).
* A DQT or DHT segment without any table is accepted: it is tiled by zero tables.

## Model

| member | source | states |
|---|---|---|
| `AuditChain.RunScan` | src/systeme_local_gateway/audit.py:456-537 | the one-pass loop gives the verdict, count, last HMAC and checkpoint HMAC of the scan specification for every file |
| `AuditChain.ScanAcceptsChains` | src/systeme_local_gateway/audit.py:485-537 | the scan accepts exactly the logs whose records are authentic, linked from genesis and have distinct ids, and reports their length, last HMAC and the HMAC at the checkpoint |
| `AuditChain.ChainedPointwise` | src/systeme_local_gateway/audit.py:502-533 | in an accepted log every record is authentic, points at the HMAC before it and has an id unlike all earlier ones |
| `AuditChain.LastHmacCommitsToHistory` | src/systeme_local_gateway/audit.py:206-207 | two linked logs with the same last HMAC are equal record for record |
| `AuditAnchor.RunVerify` | src/systeme_local_gateway/audit_anchor.py:224-297 | the verify loop gives the verdict and tally of the anchor specification |
| `AuditAnchor.VerifyAcceptsSoundAnchors` | src/systeme_local_gateway/audit_anchor.py:224-343 | verification accepts exactly the anchors of authentic, chained checkpoints with increasing counts and distinct ids, and reports the last one |
| `AuditAnchor.CountsIncrease` | src/systeme_local_gateway/audit_anchor.py:250-256 | checkpoint counts increase strictly between any two checkpoints |
| `AuditProtocol.AuditStore.AppendCheckpoint` | src/systeme_local_gateway/audit_anchor.py:147-162 | one anchor write, as specified, and nothing else |
| `AuditProtocol.AuditStore.VerifyAndCatchUp` | src/systeme_local_gateway/audit.py:283-308 | result, files and sequence of writes of anchored verification with catch-up |
| `AuditProtocol.AuditStore.WriteAndSeal` | src/systeme_local_gateway/audit.py:310-351 | the record is written first and sealed second, and both intermediate states are as specified |
| `AuditProtocol.AuditStore.AppendEvent` | src/systeme_local_gateway/audit.py:261-281 | result, files and sequence of writes of an anchored append |
| `AuditProtocol.AuditStore.BootstrapAnchor` | src/systeme_local_gateway/audit.py:246-259 | result, files and writes of the bootstrap |
| `AuditRuns.BootstrapIsConsistent` | src/systeme_local_gateway/audit_anchor.py:130-145 | a successful bootstrap leaves a consistent pair of files with nothing unsealed; an initialised anchor is refused and untouched |
| `AuditRuns.VerifyClosesGap` | src/systeme_local_gateway/audit.py:283-308 | from every consistent state verification succeeds, every intermediate state is consistent, and the anchor then covers the whole log |
| `AuditRuns.AppendKeepsConsistent` | src/systeme_local_gateway/audit.py:261-281 | from every consistent state an append succeeds through consistent states and adds exactly its record, sealed |
| `AuditRuns.CrashSafety` | src/systeme_local_gateway/audit.py:246-308 | after bootstrap and under crashes between any two writes every checkpoint seals a log prefix, counts increase, the anchor lags by at most one record, and the next completed call closes the gap |
| `AuditRuns.PassingLogExtendsHistory` | src/systeme_local_gateway/audit.py:283-308 | whatever log anchored verification lets through starts with the history that the last checkpoint sealed, record for record |
| `AuditRuns.HappeningExtendsHistory` | src/systeme_local_gateway/audit.py:283-308 | any crash point of any call, or a replacement of the log, leaves the anchor committed to an extension of the old history |
| `AuditRuns.AcceptedLogsFormAChain` | src/systeme_local_gateway/audit.py:239-308 | over a whole run with replaced logs and crashes, every log reported on extends all earlier ones |
| `AuditLoader.RunLoad` | src/systeme_local_gateway/c9_attestation.py:1699-1750 | the loader's loop gives the records and last HMAC of its specification |
| `AuditLoader.VerifiersAgree` | src/systeme_local_gateway/c9_attestation.py:1711-1750 | on every non-empty record sequence the loader accepts exactly when the log's own scan does, with the same count and last HMAC |
| `ReplayGuard.MemoryGuard.CheckAndMark` | src/systeme_local_gateway/auth.py:64-84 | answer and table after pruning, replay check, capacity check and insertion |
| `ReplayGuard.SqliteGuard.CheckAndMark` | src/systeme_local_gateway/auth.py:141-187 | answer and rows after the transaction commits or rolls back, the pruning included |
| `ReplayGuard.GuardsAgree` | src/systeme_local_gateway/auth.py:64-187 | from agreeing tables both guards answer every call of every run with a non-decreasing clock alike |
| `ReplayGuard.FreshGuardsAgree` | src/systeme_local_gateway/auth.py:48-187 | two new guards are observationally equal |
| `ReplayGuard.AnswersDifferIff` | src/systeme_local_gateway/auth.py:64-181 | for any clock: the guards answer one call differently exactly when it asks for a nonce whose row only the database still has, or such rows are what fills the database |
| `ReplayGuard.GuardsAgreeIff` | src/systeme_local_gateway/auth.py:64-181 | for any clock: the guards answer a whole run alike exactly when no call of it is of that kind |
| `ReplayGuard.ClockGoingBackFoolsMemory` | src/systeme_local_gateway/auth.py:70-84 | a run with a clock that goes back in which memory accepts one nonce twice, after a rejected call past its expiry |
| `ReplayGuard.ClockGoingBackDoesNotFoolDatabase` | src/systeme_local_gateway/auth.py:150-181 | in that run the database refuses the nonce, because its rejected transaction rolled the pruning back |
| `ReplayGuard.ClockGoingBackFoolsDatabase` | src/systeme_local_gateway/auth.py:150-181 | a run in which the call past the expiry is accepted and commits its pruning, and the database accepts the nonce twice |
| `TaskVerification.VerifyTask` | src/systeme_local_gateway/auth.py:301-323 | verdict and guard table after the lifetime, expiry, skew, signature and replay checks |
| `TaskVerification.SharedNonceMeansExpired` | src/systeme_local_gateway/auth.py:301-323 | of two accepted envelopes with one nonce the first had expired when the second was accepted |
| `TaskVerification.NoEnvelopeTwice` | src/systeme_local_gateway/auth.py:301-323 | no envelope is accepted twice in a run |
| `TaskVerification.ReplayedIff` | src/systeme_local_gateway/auth.py:70-84 | for any clock: a request is refused as a replay exactly when an accepted one with its nonce has expired neither by its clock reading nor by that of any request that reached the table in between |
| `TaskVerification.ReplayOfLatestIff` | src/systeme_local_gateway/auth.py:70-84 | the same, told by the latest acceptance of the nonce |
| `TaskVerification.AcceptedTwiceIff` | src/systeme_local_gateway/auth.py:70-84 | for any clock: an envelope is accepted again exactly when a request that reached the table in between read a clock past its expiry, and there is room |
| `TaskVerification.AcceptedTwiceMeansClockWentBack` | src/systeme_local_gateway/auth.py:70-84 | two acceptances of one envelope mean a clock reading past its expiry followed by one before it |
| `TaskVerification.DatabaseReplayedIff` | src/systeme_local_gateway/auth.py:150-181 | as for memory, but only the requests accepted in between count |
| `TaskVerification.DatabaseReplayOfLatestIff` | src/systeme_local_gateway/auth.py:150-181 | the same, told by the latest acceptance of the fingerprint |
| `TaskVerification.DatabaseAcceptedTwiceIff` | src/systeme_local_gateway/auth.py:150-181 | for any clock: the database accepts an envelope again exactly when a request accepted in between read a clock past its expiry, and there is room |
| `TaskVerification.DatabaseAcceptedTwice` | src/systeme_local_gateway/auth.py:150-181 | two acceptances of one envelope by the database mean an acceptance in between past its expiry, and then a clock reading before it |
| `TaskVerification.GuardsDisagreeIff` | src/systeme_local_gateway/auth.py:64-181 | for any clock, on a nonce that both accepted: only the database calls the request a replay exactly when its expiry was passed in between by a refused request but by no accepted one |
| `TaskVerification.StoredNonceOrigin` | src/systeme_local_gateway/auth.py:64-84 | every stored nonce comes from an accepted request and expires within maximum lifetime plus skew of it |
| `TaskVerification.ExhaustionIsTemporary` | src/systeme_local_gateway/auth.py:79-84 | after a quiet period of lifetime plus skew the guard is never exhausted |
| `TaskVerification.VerdictsAgree` | src/systeme_local_gateway/auth.py:301-323 | verification gives every request of a run the same verdict with either guard |
| `Approvals.ApprovalStore.CreateApproval` | src/systeme_local_gateway/approvals.py:205-267 | reply and table of a create; the table invariant is kept and no unexpired row changes |
| `Approvals.ApprovalStore.Pendings` | src/systeme_local_gateway/approvals.py:269-299 | reply and table of a listing, for any table: a pending row that fails verification is reported and the pruning rolled back; a table that satisfies the invariant keeps it and is listed |
| `Approvals.ApprovalStore.DecideApproval` | src/systeme_local_gateway/approvals.py:375-423 | reply and table of an approve or deny, for any table; the invariant is kept |
| `Approvals.ApprovalStore.ConsumeApproval` | src/systeme_local_gateway/approvals.py:330-373 | reply and table of a consume, for any table; the invariant is kept |
| `ApprovalRuns.TableAlwaysOk` | src/systeme_local_gateway/approvals.py:582-644 | for any clock: no two open rows share a request, the row count is within capacity, timestamps are present exactly as the state requires, every row verifies |
| `ApprovalRuns.Origin` | src/systeme_local_gateway/approvals.py:592-616 | every row was inserted by the create that drew its id, for that task, with that creation time and expiry |
| `ApprovalRuns.Approval` | src/systeme_local_gateway/approvals.py:375-423 | every approved or consumed row was approved by a granted call for the same request after its create |
| `ApprovalRuns.ConsumeProvenance` | src/systeme_local_gateway/approvals.py:330-373 | every granted consume follows a create and a granted approve for the same request, payload for payload, before expiry; with a non-decreasing clock created <= decided <= consumed < expires |
| `ApprovalRuns.ConsumedAtMostOnce` | src/systeme_local_gateway/approvals.py:330-373 | no approval id is consumed twice in any run |
| `ApprovalRuns.CreateKeepsLiveRows` | src/systeme_local_gateway/approvals.py:215-257 | a create never drops or changes an unexpired row |
| `ApprovalRuns.NeverCorrupt` | src/systeme_local_gateway/approvals.py:637-644 | no call of any run is refused because a stored row fails verification |
| `Admission.AllowedIffAdmissible` | src/systeme_local_gateway/c4_admission.py:502-641 | a request is admitted exactly when an adapter for its identity has all its tools, the evidence is current, reviewed, supported and for that identity and time, C3 allows the action, and tools come with tool actions only |
| `Admission.KeyIsInjective` | src/systeme_local_gateway/c4_admission.py:128-130 | different identities have different keys |
| `Admission.EvaluationIsValid` | src/systeme_local_gateway/c4_admission.py:300-343 | every decision that evaluation commits passes the decision validator |
| `Admission.AdmissionGrantsApprovedReadOnlyTools` | src/systeme_local_gateway/c4_admission.py:545-568 | every granted tool is read-only and approved for exactly that identity |
| `AdmissionController.Controller.ClaimCorrelation` | src/systeme_local_gateway/c4_admission.py:670-681 | the first critical section: objection and marked correlations |
| `AdmissionController.Controller.Decide` | src/systeme_local_gateway/c4_admission.py:668-697 | decision, tables and validity of one uninterrupted call |
| `AdmissionController.Controller.ConsumeToolAuthority` | src/systeme_local_gateway/c4_admission.py:699-716 | result and tables of spending authority, object identity included |
| `AdmissionController.DecidedIsValid` | src/systeme_local_gateway/c4_admission.py:668-697 | whatever the claim answers the decision is valid, and it is an admission exactly when the claim raised nothing and the request is admissible |
| `AdmissionController.AuthorityIsConserved` | src/systeme_local_gateway/c4_admission.py:668-716 | in every interleaving: one allowed decision per correlation, capacity kept, allowed tool receipts are pending, outstanding or spent and only one of these, each spent at most once with its own tools |
| `AdmissionController.ConsumableIffOutstanding` | src/systeme_local_gateway/c4_admission.py:699-716 | in every reachable state exactly the outstanding decision objects can be spent, never a copy or a forgery, once, and only for approved read-only tools |
| `LeaseAuthority.Authority.Cleanup` | src/systeme_local_gateway/c9_attachment_security.py:1741-1779 | the record's buffer is all zeros, its receipt has the released length, and no other lease's bytes or entry change |
| `LeaseAuthority.Authority.CommitSelection` | src/systeme_local_gateway/c9_attachment_security.py:1057-1068 | the lease is inserted unless the store is closed, and then its buffer is overwritten |
| `LeaseAuthority.Authority.PrepareManifest` | src/systeme_local_gateway/c9_attachment_security.py:1079-1136 | result and tables of the first section of manifest creation |
| `LeaseAuthority.Authority.PublishManifest` | src/systeme_local_gateway/c9_attachment_security.py:1137-1142 | the purpose is recorded unless the store was closed meanwhile |
| `LeaseAuthority.Authority.ApproveManifest` | src/systeme_local_gateway/c9_attachment_security.py:1144-1205 | result and tables of an approval |
| `LeaseAuthority.Authority.ActiveRecords` | src/systeme_local_gateway/c9_attachment_security.py:1691-1701 | the first lease that is terminal, unknown, reserved or expired is reported, and only an expired one is destroyed |
| `LeaseAuthority.Authority.VerifyRecords` | src/systeme_local_gateway/c9_attachment_security.py:1703-1739 | the first record whose source file or payload changed is reported |
| `LeaseAuthority.Authority.BeginInspection` | src/systeme_local_gateway/c9_attachment_security.py:1226-1262 | the inspector gets exactly the live buffers in manifest order, reserved; or leases are destroyed as specified |
| `LeaseAuthority.Authority.EndInspection` | src/systeme_local_gateway/c9_attachment_security.py:1264-1304 | leases are released, or destroyed when expired or changed |
| `LeaseAuthority.Authority.BeginConsumption` | src/systeme_local_gateway/c9_attachment_security.py:1424-1477 | the consumer gets exactly the live buffers in manifest order, reserved; or the failure is as specified |
| `LeaseAuthority.Authority.EndConsumption` | src/systeme_local_gateway/c9_attachment_security.py:1479-1532 | every lease is destroyed with the state that says how the consumer ended |
| `LeaseAuthority.Authority.CloneLeases` | src/systeme_local_gateway/c9_attachment_security.py:1316-1378 | clones with buffers of their own are inserted, or nothing is; every record stays tracked |
| `LeaseAuthority.Authority.CleanupPresent` | src/systeme_local_gateway/c9_attachment_security.py:1387-1397 | an aborted clone destroys exactly those of its clones that are still live |
| `LeaseAuthority.Authority.CancelLease` | src/systeme_local_gateway/c9_attachment_security.py:1559-1573 | result and tables of a cancellation |
| `LeaseAuthority.Authority.ExpireDue` | src/systeme_local_gateway/c9_attachment_security.py:1575-1585 | tables after expiring |
| `LeaseAuthority.Authority.CancelAll` | src/systeme_local_gateway/c9_attachment_security.py:1587-1598 | everything is cancelled, or nothing while a callback runs |
| `LeaseAuthority.Authority.Close` | src/systeme_local_gateway/c9_attachment_security.py:1600-1607 | tables after closing; every record stays tracked |
| `LeaseAuthority.Authority.ValidMeansZeroed` | src/systeme_local_gateway/c9_attachment_security.py:1741-1779 | between any two sections every terminal lease has a record whose buffer is all zeros and as long as its receipt says was released |
| `LeaseAuthority.Authority.Perform` | src/systeme_local_gateway/c9_attachment_security.py:919-1786 | any one critical section does to the records and buffers what the specification does to the tables |
| `LeaseAuthority.Authority.PerformAll` | src/systeme_local_gateway/c9_attachment_security.py:919-1786 | after any sequence of sections the tables are as specified, receipts are unchanged, every terminal lease is zeroed with the released length, and every buffer that was zeroed before still is |
| `LeaseSections.DoKeeps` | src/systeme_local_gateway/c9_attachment_security.py:919-1786 | no section replaces a receipt, opens a closed store or makes a terminal lease live |
| `LeaseStore.ActivateOutcome` | src/systeme_local_gateway/c9_attachment_security.py:1680-1701 | checking succeeds exactly when every lease is live, unreserved and unexpired, and otherwise destroys at most one lease, an expired one |
| `LeaseStore.LeastExpiryIsLeast` | src/systeme_local_gateway/c9_attachment_security.py:1098-1098 | a manifest's expiry is a lower bound of its leases' expiries and one of them |
| `LeaseSafety.PreparedIsNested` | src/systeme_local_gateway/c9_attachment_security.py:1095-1136 | a prepared manifest lists the leases with their descriptors and outlives none |
| `LeaseClones.ClonesAreOk` | src/systeme_local_gateway/c9_attachment_security.py:1338-1378 | every clone carries its source's payload and descriptor and does not outlive it |
| `LeaseClones.PurposesMeanOpen` | src/systeme_local_gateway/c9_attachment_security.py:1326-1332 | a recorded purpose implies that the store is open |
| `LeaseGuarantees.AlwaysInv` | src/systeme_local_gateway/c9_attachment_security.py:919-1786 | the whole invariant holds after every sequence of critical sections of any number of calls |
| `LeaseGuarantees.EnabledMeansRunnable` | src/systeme_local_gateway/c9_attachment_security.py:1479-1532 | a callback that ends always finds its leases live |
| `LeaseGuarantees.LeasesAreConserved` | src/systeme_local_gateway/c9_attachment_security.py:1741-1779 | issued ids are the disjoint union of live and terminal ids; receipts record the released length; live bytes are the issued bytes (the zeroed buffers are in `PerformAll`, which `RunIsSections` applies to every run) |
| `LeaseGuarantees.RunIsSections` | src/systeme_local_gateway/c9_attachment_security.py:919-1786 | the tables after any interleaving are those that its critical sections, one after the other, make of an empty store |
| `LeaseGuarantees.HistoryIsPermanent` | src/systeme_local_gateway/c9_attachment_security.py:1600-1607 | receipts never change, and once closed the store stays closed without leases or purposes, whatever calls were in flight |
| `LeaseGuarantees.DeliveredAtMostOnce` | src/systeme_local_gateway/c9_attachment_security.py:1452-1480 | no lease reaches a consumer twice, and the bytes are those selected, through any number of clones |
| `LeaseGuarantees.OneCallbackPerLease` | src/systeme_local_gateway/c9_attachment_security.py:1470-1475 | at most one callback has a lease, exactly while it is flagged |
| `LeaseGuarantees.ReservedIsUntouched` | src/systeme_local_gateway/c9_attachment_security.py:1559-1607 | while a callback runs no cancel, expire, clone, close or other call touches its leases |
| `LeaseGuarantees.ConsumptionIsFinal` | src/systeme_local_gateway/c9_attachment_security.py:1479-1532 | however a consumer ends its leases are terminal, in the state that tells how it ended |
| `LeaseGuarantees.ConsumptionStartsIff` | src/systeme_local_gateway/c9_attachment_security.py:1424-1477 | a consumer runs exactly for a valid, bound, unexpired approval of live, unreserved, unexpired, matching leases with unchanged files |
| `LeaseGuarantees.PayloadsStayIntact` | src/systeme_local_gateway/c9_attachment_security.py:1703-1739 | in every reachable state only a changed source file can cause a rejection |
| `LeaseGuarantees.TerminalIsRefused` | src/systeme_local_gateway/c9_attachment_security.py:1680-1689 | every operation refuses a terminal lease |
| `LeaseGuarantees.ExpireIsExact` | src/systeme_local_gateway/c9_attachment_security.py:1575-1585 | expiring destroys exactly the unreserved leases that are due |
| `LeaseGuarantees.CloseSucceedsIff` | src/systeme_local_gateway/c9_attachment_security.py:1587-1607 | closing succeeds exactly when no callback runs, and then every issued lease is terminal |
| `LeaseGuarantees.ClonesNest` | src/systeme_local_gateway/c9_attachment_security.py:1348-1378 | through any depth of cloning a lease has its ancestors' payload and does not outlive them |
| `LeaseGuarantees.ExpiriesNest` | src/systeme_local_gateway/c9_attachment_security.py:1098-1181 | for what the authority made: approval <= manifest <= every lease and everything it was cloned from |
| `LeaseGuarantees.ConsumedInTime` | src/systeme_local_gateway/c9_attachment_security.py:1499-1532 | a consumption of an authority-made manifest ends before any lease of any line expires |
| `LeaseGuarantees.CompletesIff` | src/systeme_local_gateway/c9_attachment_security.py:1499-1532 | for any manifest and approval: a consumer that returns is a success exactly before both expire and with unchanged files |
| `LeaseGuarantees.OverrunIff` | src/systeme_local_gateway/c9_attachment_security.py:1499-1532 | for any manifest and approval, in every reachable state: a running consumption can succeed after one of its leases expired exactly when one of them expires before both the manifest and the approval |
| `LeaseGuarantees.CompletedInTime` | src/systeme_local_gateway/c9_attachment_security.py:1499-1532 | every success was in time for each lease, and its line, that does not expire before both |
| `LeaseGuarantees.MadeUpManifestOverruns` | src/systeme_local_gateway/c9_attachment_security.py:1421-1516 | a run in which a caller's own manifest and approval let a consumption succeed at 99 on a lease that expired at 10 |
| `LeaseGuarantees.NothingLeaks` | src/systeme_local_gateway/c9_attachment_security.py:1379-1408 | when no call is in flight every live lease is one that a caller was given |
| `Png.RunInspect` | src/systeme_local_gateway/providers/attachment_commit.py:333-413 | the chunk loop gives the dimensions of the inspection specification, or refuses |
| `Png.InspectAcceptsWellFormedFiles` | src/systeme_local_gateway/providers/attachment_commit.py:333-413 | inspection accepts exactly the signature followed by a well-formed list of chunks |
| `Png.CutInvertsFlat` | src/systeme_local_gateway/providers/attachment_commit.py:345-362 | a list of chunks is read back from its bytes |
| `Png.RunSanitize` | src/systeme_local_gateway/c9_attachment_security.py:591-693 | the sanitiser gives the output, flag or reason of its specification; no index is out of range |
| `Png.RunFilters` | src/systeme_local_gateway/c9_attachment_security.py:691-692 | every row-filter index is in range, and all filters are at most 4 when accepted |
| `Png.SanitizedIsExact` | src/systeme_local_gateway/c9_attachment_security.py:605-660 | the output is the signature and the retained chunks in order; IHDR, PLTE, tRNS, IDAT and IEND chunks are all kept unchanged; the flag says whether output and input differ |
| `Png.SanitizeIsIdempotent` | src/systeme_local_gateway/c9_attachment_security.py:591-693 | the output passes inspection with the same dimensions and is its own sanitised form |
| `Png.SanitizedIsBounded` | src/systeme_local_gateway/c9_attachment_security.py:572-693 | an accepted image is within every limit, its pixels decode cleanly to the expected size and every row starts with a defined filter |
| `Jpeg.RunInspect` | src/systeme_local_gateway/providers/attachment_commit.py:416-495 | the marker loop gives the dimensions of the inspection specification, or refuses |
| `Jpeg.InspectAcceptsIff` | src/systeme_local_gateway/providers/attachment_commit.py:416-495 | inspection gives these dimensions exactly for files of SOI, standalone markers and segments up to the start of scan with one frame header, a good one of those dimensions, and a scan that is not empty and ends with EOI |
| `Jpeg.RunDqt` | src/systeme_local_gateway/c9_attachment_security.py:696-708 | a payload is accepted exactly when it is tiled by well-formed quantization tables |
| `Jpeg.RunDht` | src/systeme_local_gateway/c9_attachment_security.py:711-723 | a payload is accepted exactly when it is tiled by well-formed Huffman tables |
| `Jpeg.RunScan` | src/systeme_local_gateway/c9_attachment_security.py:803-826 | the scan loop accepts exactly stuffed data up to an end-of-image marker that ends the file |
| `Jpeg.SplitInvertsFlat` | src/systeme_local_gateway/c9_attachment_security.py:744-769 | segments and scan are read back from their bytes, fill bytes included |
| `Jpeg.RunSanitize` | src/systeme_local_gateway/c9_attachment_security.py:726-832 | the sanitiser gives the output, flag or reason of its specification; every pass advances and no index is out of range |
| `Jpeg.SanitizedIsExact` | src/systeme_local_gateway/c9_attachment_security.py:741-832 | the output is SOI, the segments other than APP0-APP15 and COM in order, and the untouched scan to EOI; the flag says whether output and input differ |
| `Jpeg.SanitizeIsIdempotent` | src/systeme_local_gateway/c9_attachment_security.py:726-832 | the output passes inspection with the same dimensions and is its own sanitised form |
| `Jpeg.SanitizedIsBounded` | src/systeme_local_gateway/c9_attachment_security.py:572-740 | an accepted image is within every limit |
| `FramedTree.Commit` | src/systeme_local_gateway/c5_integration.py:296-318 | the framing loop gives the stream of the included entries and their counts, or overflows exactly when a length does not fit |
| `FramedTree.StreamIsUniquelyDecodable` | src/systeme_local_gateway/c5_integration.py:296-311 | two entry lists with the same stream are equal, for any width of the mode length |
| `FramedTree.EqualCommitmentsMeanEqualTrees` | src/systeme_local_gateway/c5_integration.py:281-318 | two listings with their blobs have equal digests exactly when they frame the same entries, and then the same files, modes and bytes stand outside the excluded paths |
| `GitOutput.ReadBlobs` | src/systeme_local_gateway/c5_integration.py:240-278 | the batch loop gives the blobs or the fault of its specification for every output |
| `GitOutput.BatchRoundTrip` | src/systeme_local_gateway/c5_integration.py:240-278 | the reader inverts the batch printer for any ids, repeated or not, and any blob bytes, and consumes the whole stream |
| `GitOutput.ForwardAcceptedIff` | src/systeme_local_gateway/c5_integration.py:256-278 | a stream in which no header announces a negative size is accepted exactly when it is one frame for each id, with sizes that read as the blob lengths |
| `GitOutput.NegativeSizeIsAccepted` | src/systeme_local_gateway/c5_integration.py:266-274 | a header that announces -1 is accepted as an empty blob without a newline of its own |
| `GitOutput.ReadTree` | src/systeme_local_gateway/c5_integration.py:220-237 | the record loop gives the listing or the fault of its specification |
| `GitOutput.TreeRoundTrip` | src/systeme_local_gateway/c5_integration.py:220-237 | the reader inverts the listing printer, and refuses exactly the unsorted listings |
| `GitOutput.ListingAcceptedIff` | src/systeme_local_gateway/c5_integration.py:220-237 | for any raw output: the reader returns a listing exactly when its entries are printable and sorted and the output, without empty records, is its print |
| `RequestBudget.Budget.Authorize` | src/systeme_local_gateway/c9_control.py:131-138 | verdict and deque after trimming and admission |
| `RequestBudget.DequeIsBounded` | src/systeme_local_gateway/c9_control.py:133-138 | for any clock the deque never exceeds the limit |
| `RequestBudget.DequeIsRecentPast` | src/systeme_local_gateway/c9_control.py:131-138 | with a non-decreasing clock the deque is exactly the admitted times after the last cutoff |
| `RequestBudget.AdmissionsAreSpread` | src/systeme_local_gateway/c9_control.py:131-138 | any admission and the one `limit` places later are at least a window apart |
| `RequestBudget.EveryWindowIsBounded` | src/systeme_local_gateway/c9_control.py:131-138 | every half-open 60-second window of a whole run holds at most the limit |

## Left out

- The C0 to C3 gates, C6 to C8 acquisition and the C9 final attestation: conjunctions over literals and timestamps.
- Selection of records in `commit_rich_audit_correlation_receipt`: comprehensions over records that the modelled loader has accepted.
- The audit log without an anchor: `verify` is then the modelled scan and `append` the modelled write.
- The `_active` flag of an anchor transaction, which only guards against use after the `with` block.
- Torn writes: each record or checkpoint is written whole or not at all; a missing final newline is modelled when reading.
- Locks, descriptors, permissions, symlink and reparse checks, SQLite schema and error wrapping: only the exclusion and atomicity that they give is kept.
- A raw `OSError` while a source file is read again, and exceptions of a callback outside `Exception`: both would leave leases reserved.
- Rounding of floating-point timestamps to microseconds, and of seconds in task lifetimes.
- The order of `list_pending` and of the receipts that `expire`, `cancel_all` and `close` return.
- Credential-shape scans and audit redaction: regular expressions over text.
- Text sanitising and PDF, text and JSON inspection: Unicode normalisation and foreign parsers.
- Media type detection, file names and the re-reading of the selected file: its outcome is the set of unchanged files in each section.
- Digests of leases, descriptors and receipts: values are compared instead.
- The limit on the number of digits that Python's `int` accepts.
- Authentication of control requests before the request budget.
