# Verified model of the situation store and its sources

This project models the logic of a local proactive assistant in Dafny and proves
properties of the model. Several hosts share one SQLite database of situations; each
store operation is one immediate transaction, so the store is a transition system, and
the main theorems are about arbitrary sequences of its steps.

`dafny verify dfyconfig.toml` checks everything.

## What is modelled

- **Delivery** (`Situations`, `Leasing`, `ReservePass`, `Confirmation`): rows, history,
  leases, receipts and mutes; the reserve pass with its budget and reply rules; the
  all-or-nothing confirmation. `Eligibility` and `Transitions` tell over the tables which
  rows a pass leases and what a delivery and the transitions after it make of a row.
- **Source truth** (`Truth`, `Upserts`, `SourceTruth`): numbered snapshots, batch upserts,
  resolutions inside an allowed scope, sync state and diagnostics limits. `Detections` and
  `Applications` tell over the tables what one detection and one application do.
- **The store object** (`Store`): a class whose methods change the tables in place, with
  the source's loops and rollbacks, each proved equal to its transition function.
- **Runs** (`Protocol`, `Runs`, `Spacing`, `CooldownHistory`, `Budget`, `ExactlyOnce`,
  `Lifecycle`, `NotifyOnce`): inductive invariants and theorems over every sequence of moves.
- **Calendar conflicts** (`Conflicts`, `EndHeap`, `Sweep`, `ConflictReport`, `ConflictKeys`): the
  heap sweep against the all-pairs definition, what each reported conflict says, and when
  two conflicts share a dedupe key.
- **Credentials** (`Credentials`, `CredentialRuns`, `CredentialLoads`): the store as an order of single
  writes to keyring, file and marker, with crashes after any of them.
- **Fallbacks** (`Fallbacks`, `FallbackRules`, `DispatchRules`): one-shot notifications.
- **Daemon row** (`Daemon`, `DaemonRows`): takeover, fencing and status.
- **Inbox read** (`GmailRead`, `InboxRules`, `Coverage`, `Mime`, `BodyText`, `PartPaths`):
  paging, projection bookkeeping, what absence proves, and the MIME walk.
- **Text and dates** (`Text`, `Like`, `Dates`, `IsoTime`): the LIKE escaper and prefix
  filter, yearly occurrences, and the order of stored timestamps. `Sorting` serves all.

Timestamps are integers; `IsoTime.TextOrderIsTimeOrder` is why that is sound for the
stored text form. A row id is the position of its row, because rows are never deleted.
The claims table is a map keyed by situation, because the schema declares the situation
unique there (`src/proactive_mcp/store/migrations/010_gmail_diagnostics_and_receipt_replay.sql`).
A receipt token stands for its digest.

## Hypotheses of the run theorems

- The clock does not go back, and one step reads one instant.
- A reserve pass takes its cooldown cut-off and day window from the current instant, its
  lease ends in the future, and its receipt token was never issued before.
- The cooldown is one constant over a run; the budget theorem also takes the day's
  window and budget as fixed and asks that no leased row changes criticality.
  `Budget.RefreshShiftsBudget` shows what such a change does, exactly.
- A lease counts for the day it was taken on, even when it is confirmed after midnight.
- Credential operations are one at a time in the theorems about stopped operations. They
  interleave freely, write by write, in `LoadReturnsMarkedSave`, `TombstoneEndsExactlyBy`
  and `StaleDeleteInterleaved`, where each operation plans its writes from one reading
  of the devices.
- Daemon instances are told apart by their tokens.

## What the proofs found

- Committed calendar events are not checked to end after they start. A pair is reported
  whenever the earlier event is still running when the later one starts, so an empty
  later event is reported although the two share no time
  (`Conflicts.ClashMeansOverlap`, `Conflicts.EmptyEventIsReported`).
- The conflict dedupe key joins two event ids with a colon. Two pairs of one timeline
  share a key exactly when the ids of one straddle the other's at a colon
  (`ConflictKeys.PairsShareKeysExactly`), and four events show it happening
  (`ConflictKeys.ColonsCollide`).
- A save that stops between overwriting the copy the marker names and writing the new
  marker leaves nothing to load (`CredentialRuns.StoppedSave`).
- A load that began before a delete can promote its copy after it and so revive the
  credential; only such an operation, or a save, can (`CredentialRuns.TombstoneEndsExactlyBy`,
  `CredentialRuns.PromotionCanReviveADelete`).
- Two first saves that stop before their markers, one with a keyring and one without, leave
  two credentials and no marker. A later load without a keyring then adopts the one in the
  file, although a load with a keyring would have found the other
  (`CredentialLoads.LoadKeepsExactly`).
- An inbox read can claim complete coverage and still exclude a thread whose messages
  could not be projected or were degraded. The application of such a read is complete,
  so it believes the absence of that thread's situation; only an incomplete read spares
  it (`Coverage.AbsenceIsBelieved`, `Coverage.CompleteReadCanExclude`).
- A thread listed twice can be counted both as safe and as excluded, if and only if its
  first listing lies within the projection limit (`Coverage.ApartExactlyWhenFresh`).
- Without a persisted cadence a daemon is reported late one tick after its heartbeat,
  while a start without a probe is refused until three of the rival's own cadences have
  passed, or for ever if it has none (`Daemon.RefusalAgreesWithStatus`).
- LIKE in SQLite ignores the case of ASCII letters, so the path prefix filter also keeps
  descendants of a prefix that differs only in case, exactly for prefixes with a letter
  and room for a further segment (`Like.FilterIsExactForStored`).

## Model

| member | source | states |
|---|---|---|
| `Spacing.DeliveriesRespectCooldown` | src/proactive_mcp/store/_situation_claim.py:120-154 | over every allowed run, two deliveries of one situation with no snooze of it between them are at least the cooldown apart |
| `Spacing.CoolingInEveryRun` | src/proactive_mcp/store/_situation_claim.py:213-251 | the invariant behind it: exempt rows were snoozed since their last delivery, and every lease was taken a cooldown after each unsnoozed delivery |
| `Budget.DayStaysWithinBudget` | src/proactive_mcp/store/_situation_claim.py:155-184 | over every run in which the passes of a local day share its window and budget and no leased row changes criticality, that day's delivered and outstanding non-critical leases never exceed the budget |
| `Budget.RefreshShiftsBudget` | src/proactive_mcp/store/_situation_sql.py:29-35 | a move that neither leases nor confirms shifts the day's count by exactly the leased rows it demotes less those it promotes, so it keeps the budget if and only if that sum fits |
| `ReservePasses.PageFacts` | src/proactive_mcp/store/_situation_sql.py:113-125 | the delivery page holds distinct pending rows in delivery order, at most 100, and every pending row left out comes after all of them |
| `ReservePasses.ReserveTakesPrefix` | src/proactive_mcp/store/_situation_claim.py:122-210 | one pass leases exactly a closed-form-length prefix, in delivery order, of the individually eligible rows of its page (spelled out by `Eligibility.LeasedRowsQualify` and `Eligibility.LeftOutRowsHaveNoRoom`), under its receipt, and changes nothing else |
| `ReservePasses.CriticalRowsAreLeased` | src/proactive_mcp/store/_situation_claim.py:135-137 | every eligible critical row of the page is leased whatever the budget is |
| `ReservePasses.ReserveStaysInBudget` | src/proactive_mcp/store/_delivery_eligibility.py:83-105 | one pass never takes used plus leased above the larger of its starting value and the budget; while a non-reply row of the page is consumable, replies leave the last slot free |
| `Confirmations.ConfirmEffect` | src/proactive_mcp/store/_situation_claim.py:213-251 | a first confirmation succeeds exactly when its receipt still leases rows and all are pending; then it delivers exactly those rows with one history entry each, consumes the lease and records the count; a failure changes no table (`Transitions.ConfirmedRows` has the fields) |
| `ExactlyOnce.FirstConfirmation` | src/proactive_mcp/store/_situation_claim.py:213-251 | in any reachable state a first confirmation adds exactly one history entry per leased row and none elsewhere, or leaves every table as it was |
| `ExactlyOnce.ConfirmedForever` | src/proactive_mcp/store/_delivery_receipt.py:40-71 | after any further run a confirmed receipt still answers with the same count and changes nothing |
| `ExactlyOnce.DeliversOnce` | src/proactive_mcp/store/_situation_claim.py:213-251 | after a receipt delivered, no continuation of the run delivers under it again |
| `Runs.BaseInEveryRun` | src/proactive_mcp/store/_situation_reader.py:120-132 | in every reachable state references stay inside the tables, keys are unique, a token is leased or confirmed but not both, and a receipt owns at most 100 rows, so the bounded read of its rows never truncates |
| `Runs.ConfirmIsAtomic` | src/proactive_mcp/store/_sqlite_transaction.py:12-40 | a confirmation in a reachable state either makes its whole change or leaves the tables unchanged |
| `Lifecycle.ConsistentInEveryRun` | src/proactive_mcp/store/_situation_sql.py:45-83 | in every reachable state each delivered, acknowledged, snoozed or muted row has history and a row's delivery time is that of its newest history entry; leased rows are pending or ended |
| `Lifecycle.FinalForever` | src/proactive_mcp/store/_situation_upsert.py:181-197 | acknowledged and muted rows, and delivered personal occasions that ended, are never changed again by any run |
| `SourceTruth.AcceptsExactly` | src/proactive_mcp/store/_source_generation.py:128-155 | a generation is accepted exactly when it was issued and is newer than the applied one; delayed and unreserved ones are told apart and change nothing |
| `SourceTruth.OrderedInEveryRun` | src/proactive_mcp/store/_source_generation.py:86-155 | in every reachable state applied never passes issued, and a row stamped by a source carries no newer generation than the applied one |
| `SourceTruth.OlderNeverOverwritesNewer` | src/proactive_mcp/store/_situation_consistency.py:106-160 | an accepted application strictly raises the applied generation and every row of its source carried an older one; a failed application leaves every table unchanged |
| `SourceTruth.GenerationsGrow` | src/proactive_mcp/store/_source_generation.py:86-155 | no action lowers an issued or applied generation |
| `SourceTruth.AbsentRowsFollowScope` | src/proactive_mcp/store/_situation_consistency.py:108-142 | a row whose key the snapshot lacks is resolved exactly when it is active, of the source and its kind, and inside the allowed scope; otherwise it is unchanged |
| `SourceTruth.CompleteLeavesOnlyPresentKeys` | src/proactive_mcp/store/_situation_upsert.py:85-100 | after a complete application every active row of that kind and source has its key in the snapshot |
| `SourceTruth.WrittenKeysAreCurrent` | src/proactive_mcp/store/_situation_upsert.py:126-197 | every key reported created, reactivated or refreshed is open and carries the snapshot's last content for that key and this generation's stamp |
| `Upserts.BatchConserves` | src/proactive_mcp/store/_situation_upsert.py:56-83 | created, reactivated, refreshed and skipped add up to the batch length, rows grow by exactly the created ones, keys stay unique and the table stays within 10,000 rows |
| `Upserts.BatchFailsOnForeignKind` | src/proactive_mcp/store/_situation_upsert.py:65-69 | a batch fails exactly when it holds a detection of another kind than expected |
| `Upserts.LastFitWins` | src/proactive_mcp/store/_situation_upsert.py:126-197 | after a batch each open row carries the content of the last fitting detection of its key |
| `Upserts.WrittenStaysOpen` | src/proactive_mcp/store/_situation_upsert.py:126-197 | a key written anywhere in a batch is open at its end |
| `Upserts.OthersUntouched` | src/proactive_mcp/store/_situation_upsert.py:126-197 | rows whose key no detection names stay as they were |
| `Upserts.ReapplyChangesNothing` | src/proactive_mcp/store/_situation_upsert.py:56-83 | applying the same batch again at the same instant changes nothing and creates and reactivates nothing |
| `Fallbacks.ClaimTakesFirst` | src/proactive_mcp/store/fallbacks.py:88-109 | a claim takes the first claimable row of the policy order, and finds none exactly when none is claimable |
| `NotifyOnce.NotifiedInEveryRun` | src/proactive_mcp/store/_fallback_sql.py:11-41 | in every run with one configured priority set a situation has at most one record and only the very first record may have a priority outside the set |
| `NotifyOnce.OutcomesAreFinal` | src/proactive_mcp/store/_fallback_sql.py:82-86 | along any continuation of a run records stay and a terminal outcome is never replaced |
| `NotifyOnce.FallbacksLeaveDeliveryAlone` | src/proactive_mcp/store/fallbacks.py:88-148 | claims and outcomes change no situation, delivery or lease |
| `Store.SituationStore.ReserveForDelivery` | src/proactive_mcp/store/_situation_claim.py:108-210 | the candidate loop leaves exactly the tables and result of the reserve transition |
| `Store.SituationStore.DeliverLeased` | src/proactive_mcp/store/_situation_claim.py:228-248 | the loop over a receipt's rows delivers them all, or stops at the first that is not pending with exactly the rows before it delivered, which the caller then rolls back |
| `Store.SituationStore.ConfirmDelivery` | src/proactive_mcp/store/_situation_claim.py:213-251 | replay, expiry, delivery and consumption with rollback: exactly the confirm transition |
| `Store.SituationStore.AcknowledgeSituation` | src/proactive_mcp/store/situations.py:188-190 | acknowledges one delivered row or reports the missing row or wrong state |
| `Store.SituationStore.SnoozeSituation` | src/proactive_mcp/store/situations.py:192-207 | snoozes one delivered row and exempts it from the cooldown, or reports the error |
| `Store.SituationStore.MuteSituation` | src/proactive_mcp/store/situations.py:209-211 | mutes one delivered row or reports the error |
| `Store.SituationStore.MuteSituationType` | src/proactive_mcp/store/situations.py:213-228 | mutes one delivered row and its kind, keeping an earlier kind mute, or changes nothing |
| `Store.SituationStore.WakeAllSnoozed` | src/proactive_mcp/store/situations.py:140-144 | each snoozed row whose time has come becomes pending with its wake time cleared, every other row stays as it was, and the number woken is returned |
| `Store.SituationStore.ExpireAllLapsed` | src/proactive_mcp/store/situations.py:131-138 | each active row whose expiry has come expires at this instant, every other row stays as it was, and the number expired is returned |
| `Store.SituationStore.UpsertDetection` | src/proactive_mcp/store/_situation_upsert.py:126-197 | one detection changes the table as its verdict says and keeps dedupe keys unique |
| `Store.SituationStore.UpsertAll` | src/proactive_mcp/store/_situation_upsert.py:56-83 | the batch loop equals the batch transition, error included |
| `Store.SituationStore.ResolveMissing` | src/proactive_mcp/store/_situation_upsert.py:85-124 | the row loop resolves exactly the resolvable rows and counts them |
| `Store.SituationStore.UpsertDetectionsNow` | src/proactive_mcp/store/_situation_consistency.py:78-90 | an upsert transaction, put back on an error |
| `Store.SituationStore.ApplyLocalDetections` | src/proactive_mcp/store/_situation_consistency.py:162-181 | local occasions are upserted and absent ones resolved in one transaction |
| `Store.SituationStore.ReserveGeneration` | src/proactive_mcp/store/_source_generation.py:86-108 | issues the next number of a source |
| `Store.SituationStore.AcceptInside` | src/proactive_mcp/store/_source_generation.py:128-155 | accepts a generation and its diagnostics, or reports why not, inside a transaction |
| `Store.SituationStore.RecordSyncInside` | src/proactive_mcp/store/_sync_source_state.py:47-90 | records the sync outcome of an application, marking both sources on a revoked grant |
| `Store.SituationStore.ApplySourceGeneration` | src/proactive_mcp/store/_situation_consistency.py:92-160 | acceptance, upserts, allowed resolutions and sync state in one transaction that is put back whole on any error |
| `Store.SituationStore.ClaimNextFallback` | src/proactive_mcp/store/fallbacks.py:88-109 | the candidate loop with its guarded insert equals the claim transition |
| `Store.SituationStore.CompleteFallback` | src/proactive_mcp/store/fallbacks.py:136-148 | completes an open claim or reports that there is none |
| `Store.SituationStore.Notify` | src/proactive_mcp/delivery/fallback.py:100-108 | turns exactly the claimed record into sent or into failed with the host's code, at this instant, and reports the same |
| `Store.SituationStore.Dispatch` | src/proactive_mcp/delivery/fallback.py:70-98 | the dispatch loop terminates; each new record's row was claimable on the tables at that point, only the first by bootstrap, and holds the outcome its report tells; on return no configured-eligible row is left unclaimed; only new fallback records are added |
| `EndHeap.Push` | src/proactive_mcp/situations/calendar_conflict.py:131-131 | adds one end to the heap of interval ends and keeps the heap order |
| `EndHeap.Pop` | src/proactive_mcp/situations/calendar_conflict.py:100-101 | takes out an earliest end, keeps the rest and the heap order |
| `Sweeps.Collect` | src/proactive_mcp/situations/calendar_conflict.py:140-157 | the loop over the events keeps exactly the committed intervals that have not ended |
| `Sweeps.Expire` | src/proactive_mcp/situations/calendar_conflict.py:100-104 | drops exactly the running intervals that ended by the start of the current one |
| `Sweeps.ReportPartners` | src/proactive_mcp/situations/calendar_conflict.py:105-128 | appends the conflicts of one interval in order until 1000 are out; the guard on an overlap already past never fires |
| `Sweeps.Sweep` | src/proactive_mcp/situations/calendar_conflict.py:90-137 | the heap sweep reports the first 1000 clashing pairs of the timeline, by later then earlier interval, and calls itself resolution-safe exactly when there are no more |
| `Sweeps.DetectConflicts` | src/proactive_mcp/situations/calendar_conflict.py:69-137 | the whole run refines the all-pairs definition on the events' timeline |
| `Conflicts.PairsAreTheClashes` | src/proactive_mcp/situations/calendar_conflict.py:105-113 | the list of pairs holds every clashing pair that is not both all-day, exactly once, in order |
| `Conflicts.ClashMeansOverlap` | src/proactive_mcp/situations/calendar_conflict.py:105-113 | a reported pair shares a stretch of time if and only if its later event is not empty, and every pair that does is reported |
| `Conflicts.EmptyEventIsReported` | src/proactive_mcp/situations/calendar_conflict.py:140-157 | an event that ends when it starts is reported against a running one without any shared time |
| `Conflicts.TimelineIgnoresOrder` | src/proactive_mcp/situations/calendar_conflict.py:90-97 | with unique ids the timeline is the same for every order of the events |
| `Sweeps.ReportIgnoresOrder` | src/proactive_mcp/situations/calendar_conflict.py:69-137 | with unique ids any permutation of the events gives the same report |
| `ConflictKeys.PairsShareKeysExactly` | src/proactive_mcp/situations/calendar_conflict.py:190-197 | two clashing pairs of one timeline of distinct ids share a dedupe key if and only if they are the same pair or the ids of one straddle the other's at a colon |
| `ConflictKeys.JoinsAgreeExactly` | src/proactive_mcp/situations/calendar_conflict.py:190-197 | two sorted id pairs join to one key text exactly when they are equal or one straddles the other, which takes ids with colons |
| `ConflictKeys.PairsHaveOwnKeys` | src/proactive_mcp/situations/calendar_conflict.py:190-197 | so with distinct ids that hold no colon a key identifies its pair |
| `ConflictKeys.ColonsCollide` | src/proactive_mcp/situations/calendar_conflict.py:190-197 | at every instant four events with distinct ids, some with colons, give one timeline with two different clashing pairs under one key |
| `Credentials.CredentialStore.Save` | src/proactive_mcp/sources/credentials.py:106-144 | writes envelope, marker and cleanup in that order, to the keyring or the file, and loads the new version |
| `Credentials.CredentialStore.Load` | src/proactive_mcp/sources/credentials.py:146-188 | purges under a tombstone, promotes a matching file, or reads the keyring; writes exactly the planned sequence |
| `Credentials.CredentialStore.LoadFile` | src/proactive_mcp/sources/credentials.py:234-266 | promotion writes keyring, marker and cleanup in that order and returns the file's payload |
| `Credentials.CredentialStore.Adopt` | src/proactive_mcp/sources/_credential_legacy.py:97-126 | without a marker an envelope found is adopted by writing its marker |
| `Credentials.CredentialStore.Delete` | src/proactive_mcp/sources/credentials.py:190-220 | a superseded holder writes nothing; otherwise the tombstone goes first and the copies after it |
| `CredentialRuns.LoadReturnsMarkedSave` | src/proactive_mcp/sources/credentials.py:146-188 | however operations interleave and wherever they stop, once a marker exists a load returns only the payload of the save whose epoch and revision the marker names, and nothing under a tombstone |
| `CredentialRuns.DeletedStaysDeleted` | src/proactive_mcp/sources/credentials.py:190-220 | with one operation at a time, after a tombstone no load yields a credential until some save writes its marker, wherever operations stop |
| `CredentialRuns.TombstoneEndsExactlyBy` | src/proactive_mcp/sources/credentials.py:190-220 | under any interleaving a tombstone stands, and no load yields anything, until a live marker is written for a save or for an operation begun before the tombstone; exactly such a write ends it |
| `CredentialRuns.PromotionCanReviveADelete` | src/proactive_mcp/sources/credentials.py:234-266 | the race: a load begun before a delete can promote its copy after it and bring the credential back |
| `CredentialRuns.DeleteHidesAtOnce` | src/proactive_mcp/sources/credentials.py:199-220 | a delete hides the credential from its first write on, and run to its end with a working keyring leaves no copy |
| `CredentialRuns.LoadKeepsCredential` | src/proactive_mcp/sources/credentials.py:234-266 | a load stopped at any write never changes what the next load returns: promotion loses nothing |
| `CredentialRuns.StoppedSave` | src/proactive_mcp/sources/credentials.py:106-144 | what a stopped save leaves loadable at every point; the old credential is lost without the new one exactly between overwriting the marked copy and writing the marker |
| `CredentialRuns.FirstSaveIsAdopted` | src/proactive_mcp/sources/_credential_legacy.py:97-126 | the first save is visible from its first write, in the keyring or in the file, because the next load adopts it |
| `CredentialRuns.StaleDeleteChangesNothing` | src/proactive_mcp/sources/credentials.py:193-198 | with one operation at a time, a delete by a holder whose version was replaced changes nothing, then or after any further run, since versions never return |
| `CredentialRuns.StaleDeleteInterleaved` | src/proactive_mcp/sources/credentials.py:193-198 | under any interleaving such a delete plans no write until an operation begun before the replacement writes its marker of that version back |
| `Daemon.DaemonStatusStore.TryRecordStart` | src/proactive_mcp/store/daemon_status.py:124-184 | claims, keeps or is refused the single row exactly as the takeover rule says |
| `Daemon.DaemonStatusStore.RecordOwned` | src/proactive_mcp/store/daemon_status.py:186-243 | heartbeat, stop and run writes change the row only for the owner of a running row, and tell a missing row from a foreign one |
| `Daemon.OwnershipMovesOnlyByClaim` | src/proactive_mcp/store/daemon_status.py:155-184 | ownership moves only by a start and only from no row, a stopped row, a heartbeat older than three cadences, or a process the probe found dead |
| `Daemon.FaithfulInEveryRun` | src/proactive_mcp/store/daemon_status.py:48-58 | in every run the row belongs to the last claimant and its cycle count equals the heartbeats accepted since that claim |
| `Daemon.LiveOwnerKeepsRow` | src/proactive_mcp/store/daemon_status.py:155-184 | an owner that beats within three cadences keeps the row over any run of rivals without a probe |
| `Daemon.ReplacedOwnerIsFenced` | src/proactive_mcp/store/daemon_status.py:292-301 | until it claims again a replaced owner's writes change nothing |
| `Daemon.RefusedExactlyWhenRunning` | src/proactive_mcp/store/daemon_status.py:245-314 | with a persisted cadence and no probe a rival's start is refused exactly when the default status says running |
| `Daemon.RefusalAgreesWithStatus` | src/proactive_mcp/store/daemon_status.py:155-174 | for every running foreign row and rival without a probe, a refused start and a running status agree if and only if the row has a cadence, no tick has passed since its heartbeat, or three of the rival's own cadences have |
| `Daemon.WithoutCadenceTheyDiffer` | src/proactive_mcp/store/daemon_status.py:303-314 | a start without a cadence leads to such a row: one tick later it is reported late and every rival start without a probe is refused |
| `GmailRead.TakeEntries` | src/proactive_mcp/sources/gmail.py:113-117 | sorts the entries of a page into threads and skipped rows |
| `GmailRead.ListThreads` | src/proactive_mcp/sources/gmail.py:89-136 | pages to the last page or to twenty; fails exactly when a request fails or a page token repeats |
| `GmailRead.ListingEndsOrBreaks` | src/proactive_mcp/sources/gmail.py:101-127 | a listing that ends meets no point at which it would have to fail, so success and failure exclude each other |
| `GmailRead.ProjectThreads` | src/proactive_mcp/sources/gmail.py:156-199 | the detail loop's safe and excluded sets, its exact snapshot and request counts, completeness and reasons, for every answer sequence and early stop; it fails only at a failing request before the budget is spent |
| `GmailRead.DetailsEndOrBreak` | src/proactive_mcp/sources/gmail.py:156-175 | details that end met no failing request first, so success and failure exclude each other |
| `GmailRead.ReadInbox` | src/proactive_mcp/sources/gmail.py:138-222 | the whole read: list, projection limit, details and the completeness flags; it fails exactly when the listing breaks or a detail request fails before the budget is spent |
| `Coverage.EveryThreadAccounted` | src/proactive_mcp/sources/gmail.py:138-222 | the safe and the excluded threads together are exactly the listed ones |
| `Coverage.ApartExactlyWhenFresh` | src/proactive_mcp/sources/gmail.py:138-222 | in every read of a listing safe and excluded threads are apart if and only if no thread within the projection limit is listed again |
| `Coverage.SafeAndExcludedApart` | src/proactive_mcp/sources/gmail.py:138-222 | unless a thread within the limit is listed again, no thread is both safe and excluded |
| `Coverage.RepeatIsBoth` | src/proactive_mcp/sources/gmail.py:156-199 | a thread within the limit that is listed again is both safe and excluded when only its first read finds a message |
| `Coverage.CountsTally` | src/proactive_mcp/sources/gmail.py:200-201 | the reason counters tally the reasons exactly, one counter per reason |
| `Coverage.MessageGivesEachOnce` | src/proactive_mcp/sources/_gmail_projection.py:95-104 | a projected thread gives each reason at most once |
| `Coverage.DiagnosticsAlwaysPass` | src/proactive_mcp/store/_sync_diagnostics.py:55-90 | with at most 100 entries per page and 200 projected threads the diagnostics of every read pass the store's validation |
| `Coverage.AbsenceIsBelieved` | src/proactive_mcp/sources/_google_evaluation.py:84-93 | an application fed by a read may resolve absent rows of safely read threads always, of excluded threads exactly when the read claims complete coverage, and of unlisted threads exactly when the whole list was read |
| `Coverage.CompleteReadCanExclude` | src/proactive_mcp/sources/gmail.py:187-189 | a read can claim complete coverage and still exclude a thread |
| `Mime.ProjectBody` | src/proactive_mcp/sources/_gmail_projection.py:159-193 | the stack walk terminates and selects the first readable plain text, else the first HTML text, among the first 64 parts in pre-order, with exact truncation flags |
| `Mime.PopOne` | src/proactive_mcp/sources/_gmail_projection.py:172-192 | popping an entry takes one visit off the pre-order listing, children pushed in reverse |
| `Mime.DeepPartIsOnlyCounted` | src/proactive_mcp/sources/_gmail_projection.py:172-177 | a part past the depth or parts limit is reached and marks the structure as truncated, but nothing below it is reached and whatever it holds the selection is the same |
| `Like.EscapesEachOnce` | src/proactive_mcp/store/_memory_normalize.py:106-108 | the three successive replacements equal one escape per special character |
| `Like.EscapedIsLiteral` | src/proactive_mcp/store/_memory_sql.py:123-134 | an escaped text in a LIKE pattern matches itself character by character, under any comparison |
| `Like.SearchFindsSubstrings` | src/proactive_mcp/store/memory.py:166-184 | the search pattern of a query matches exactly the texts that contain it |
| `Like.NormalizesExactly` | src/proactive_mcp/store/_memory_normalize.py:92-103 | normalization succeeds exactly on one to three segments none of which cleans to nothing, and gives a stored path of the cleaned segments |
| `Like.JoinSplits` | src/proactive_mcp/store/_memory_normalize.py:92-103 | splitting undoes joining, so segments and paths correspond one to one |
| `Like.ExactFilterKeepsDescendants` | src/proactive_mcp/store/_memory_normalize.py:111-117 | under an exact comparison the prefix filter keeps exactly the path and its descendants, segment by segment |
| `Like.FilterIsExactForStored` | src/proactive_mcp/store/_memory_sql.py:123-134 | under SQLite's case-blind LIKE the filter keeps exactly the descendants of a stored prefix, for every stored path, if and only if the prefix holds no ASCII letter or already has three segments |
| `Like.FilterIsExactWithoutLetters` | src/proactive_mcp/store/_memory_sql.py:123-134 | over all paths, stored or not, it takes a prefix without ASCII letters |
| `Dates.EarliestOccurrence` | src/proactive_mcp/situations/_dates.py:34-42 | the result is the earliest occurrence over all years that is not before today; there is none exactly past the last year |
| `Dates.WithinOneYear` | src/proactive_mcp/situations/_dates.py:34-42 | the next occurrence is never more than 365 days ahead |
| `Dates.AnchorDrift` | src/proactive_mcp/situations/_dates.py:55-62 | from one year to the next an anchor moves by at most a leap day |
| `IsoTime.TextOrderIsTimeOrder` | src/proactive_mcp/store/_situation_time.py:6-8 | comparing two stored UTC timestamps as texts compares their instants |
| `IsoTime.FractionOrder` | src/proactive_mcp/store/_situation_time.py:6-8 | a timestamp without a fraction sorts before any fraction of its second |
| `CooldownHistory.CloseEntriesWereSnoozed` | src/proactive_mcp/store/_situation_claim.py:147-154 | the cooldown theorem over the stored history alone: two entries of one situation less than the cooldown apart have a move between them that snoozed it while it was delivered |
| `CooldownHistory.LogIsHistory` | src/proactive_mcp/store/_situation_claim.py:213-251 | in every run the log of deliveries holds exactly the history entries in their order |
| `Eligibility.LeasedRowsQualify` | src/proactive_mcp/store/_situation_claim.py:122-154 | every row a pass leases was pending, unexpired, of a kind that is not muted, without a live lease, exempt or outside the cooldown, for a reply deadline of a source whose newest result is applied and complete, and critical outside delivery hours |
| `Eligibility.QualifiedCriticalIsLeased` | src/proactive_mcp/store/_situation_claim.py:122-154 | every critical row of the page that meets these conditions gets the lease of the pass |
| `Eligibility.LeftOutRowsHaveNoRoom` | src/proactive_mcp/store/_situation_claim.py:155-184 | a row of the page that meets them is left out only when it is not critical and the budget is spent, or it is a reply and the replies have used the budget but for the slot kept from them |
| `Eligibility.SoonerRowsGoFirst` | src/proactive_mcp/store/_situation_claim.py:122-154 | a pass never passes over a row that qualifies for a later one |
| `Eligibility.PageIsRanked` | src/proactive_mcp/store/_situation_sql.py:113-125 | the page lists pending rows strictly by delivery rank, detection time and id; it leaves rows out only when it holds a hundred, all sooner than those |
| `Eligibility.BudgetCounts` | src/proactive_mcp/store/_situation_claim.py:155-184 | what counts against the budget: the day's non-critical history entries and live non-critical leases, and of these the replies |
| `Eligibility.SlotsKept` | src/proactive_mcp/store/_delivery_eligibility.py:83-105 | one slot is kept from replies exactly while another non-critical row of the page qualifies |
| `Eligibility.PassLeases` | src/proactive_mcp/store/_situation_claim.py:108-210 | a pass changes leases only: live ones stay, dead ones go, and the at most one hundred distinct rows it reports hold the new ones |
| `Eligibility.MutedKindStaysSilent` | src/proactive_mcp/store/situations.py:213-228 | muting a delivered row's kind succeeds, keeps an earlier mute, and after any further run no pass leases and no fallback claims a row of that kind |
| `Transitions.ConfirmedRows` | src/proactive_mcp/store/_situation_claim.py:233-241 | after a first confirmation each row its receipt held, and no other, is delivered at that instant, awake and not exempt, with every other field as before |
| `Transitions.ConfirmedEntries` | src/proactive_mcp/store/_situation_claim.py:242-248 | each history entry it adds is of a held row, dated at that instant and of the row's priority |
| `Transitions.ConfirmedTables` | src/proactive_mcp/store/_delivery_receipt.py:40-71 | exactly the live leases of other receipts remain, the receipt is dated, and the other tables stay as they were |
| `Transitions.ConfirmedRowTransitions` | src/proactive_mcp/store/situations.py:188-228 | each confirmed row can be acknowledged, snoozed and muted at once, and ends in that state |
| `Transitions.AcknowledgedRow` | src/proactive_mcp/store/_situation_sql.py:51-55 | acknowledging takes exactly delivered rows, sets state and time, changes nothing else, and otherwise names the missing row or the state |
| `Transitions.SnoozedRow` | src/proactive_mcp/store/_situation_sql.py:56-61 | snoozing takes exactly delivered rows, stores the wake time asked for and the exemption, and changes nothing else |
| `Transitions.MutedRow` | src/proactive_mcp/store/_situation_sql.py:62-66 | muting takes exactly delivered rows, sets state and time, and changes nothing else |
| `Transitions.MutedKind` | src/proactive_mcp/store/situations.py:213-228 | muting a kind mutes the row and adds its kind at that instant unless it was muted before; other kinds keep their mutes |
| `Transitions.SnoozedRowWakes` | src/proactive_mcp/store/_situation_sql.py:72-77 | a snoozed row wakes exactly from the time it was snoozed until, pending and still exempt; an earlier sweep leaves it asleep |
| `Transitions.OthersSleepOn` | src/proactive_mcp/store/_situation_sql.py:72-77 | waking changes no row that is not snoozed or whose time is still to come |
| `Transitions.LapsedRowExpires` | src/proactive_mcp/store/_situation_sql.py:78-83 | expiry takes exactly the pending and delivered rows whose expiry has come, and leaves their other fields and all other rows |
| `Transitions.SnoozeOverridesCooldown` | src/proactive_mcp/store/_situation_claim.py:147-154 | a critical row delivered, snoozed and woken is leased by the next pass over it however recent its delivery is |
| `Detections.EndedRowComesBack` | src/proactive_mcp/store/_situation_upsert.py:181-192 | in any batch a resolved or expired row detected again is reported reactivated and is pending with the new content, detected now, its end and snooze cleared, unless it is a personal occasion that was delivered |
| `Detections.OpenRowIsRefreshed` | src/proactive_mcp/store/_situation_upsert.py:193-196 | a pending, delivered or snoozed row is reported refreshed, keeps its state and times and shows the new content |
| `Detections.FinalRowIsSkipped` | src/proactive_mcp/store/_situation_upsert.py:182-197 | an acknowledged or muted row, and a delivered personal occasion that ended, is skipped and stays as it is |
| `Detections.NewKeyIsEntered` | src/proactive_mcp/store/_situation_upsert.py:144-171 | a detection of a new key becomes a pending row while there are fewer than 10,000 rows and is dropped for capacity after that |
| `Detections.OversizedIsDropped` | src/proactive_mcp/store/_situation_upsert.py:133-147 | a record over 16 KiB is dropped for capacity whatever the table holds |
| `Detections.DeliveredConflictComesBack` | src/proactive_mcp/store/_situation_upsert.py:181-192 | a calendar conflict that was delivered and resolved is reactivated when detected again |
| `Applications.AppliesExactly` | src/proactive_mcp/store/_situation_consistency.py:92-160 | an application succeeds exactly when its diagnostics are the mailbox's and bounded, its number is issued and newer than the applied one, and all detections are of the source's kind; the first to fail is the error and no table changes |
| `Applications.ForeignKindIsNamed` | src/proactive_mcp/store/_situation_upsert.py:65-69 | a failed batch names the kind of its first foreign detection |
| `Applications.AppliedGeneration` | src/proactive_mcp/store/_source_generation.py:128-155 | an application records its number, status and instant for its source, keeps those of other sources and replaces the diagnostics only when it has some |
| `Applications.IssuedGeneration` | src/proactive_mcp/store/_source_generation.py:86-108 | drawing a number adds one to the issued number of that source, from zero, and dates it |
| `Applications.RecordedOutcome` | src/proactive_mcp/store/_sync_source_state.py:47-126 | success clears the error and takes the cursor, failure names its code and keeps the last success and cursor, and a revoked grant marks both sources |
| `Applications.AbsentRow` | src/proactive_mcp/store/_situation_upsert.py:85-124 | a row no detection names is resolved exactly when it is pending or delivered, of the kind and source, and the snapshot is complete or names its thread as read; every other field and row stays |
| `Applications.ResolvedAreCounted` | src/proactive_mcp/store/_situation_upsert.py:85-124 | the reported number of resolutions is the number of rows they changed |
| `Applications.AbsentOccasion` | src/proactive_mcp/store/_situation_consistency.py:162-181 | the memory sweep resolves exactly the pending and delivered occasions from memory it did not find again |
| `Applications.AbsentOfKind` | src/proactive_mcp/store/situations.py:123-129 | resolving a kind takes exactly its pending and delivered rows of any origin whose key is not present |
| `Applications.SnapshotSigns` | src/proactive_mcp/store/_situation_upsert.py:171-197 | an application leaves each row as it was, writes it under its source, number and instant, or resolves a row that was its own |
| `Applications.OccasionsSign` | src/proactive_mcp/store/_situation_consistency.py:162-181 | the memory sweep succeeds exactly on personal occasions and writes or resolves rows of memory only |
| `Applications.LocalDetectionsSign` | src/proactive_mcp/store/_situation_consistency.py:78-90 | detections entered by hand never fail and are signed as local without a number |
| `ConflictReport.ReportSaysItAll` | src/proactive_mcp/situations/calendar_conflict.py:75-137 | a report lists the conflicts of the committed events by later and then earlier event, all of them or the first thousand with the warning, each with its time, ids and priority |
| `ConflictReport.ConflictIsReal` | src/proactive_mcp/situations/calendar_conflict.py:164-232 | each conflict joins two committed events that overlap and are not both all-day; its overlap runs from the later start to the earlier end, its ids are in text order, and it is critical or high exactly when the overlap starts within that window from now |
| `ConflictReport.TimelineHasAll` | src/proactive_mcp/situations/calendar_conflict.py:87-95 | the timeline holds exactly the intervals of the confirmed busy events the user organizes or accepted that have both bounds and have not ended, by start, end and id |
| `CredentialLoads.LoadIsStable` | src/proactive_mcp/sources/_credential_legacy.py:97-126 | on every disk, with a marker or without, a load that finds a credential and stops anywhere leaves it to be found by the next load under the same answer |
| `CredentialLoads.LoadKeepsExactly` | src/proactive_mcp/sources/_credential_legacy.py:44-94 | a load under any answer keeps what a load with a working keyring finds if and only if it does not, without a marker and a keyring, adopt a file whose credential differs from the keyring's |
| `CredentialLoads.FirstSaveSurvivesLoads` | src/proactive_mcp/sources/_credential_legacy.py:97-126 | the first save, stopped anywhere after its first write, is found after any number of loads under any answers that stop anywhere |
| `CredentialLoads.SaveSurvivesLoads` | src/proactive_mcp/sources/credentials.py:106-144 | a save that wrote its marker is what every later load finds, whatever was stored before |
| `CredentialLoads.RefusedSave` | src/proactive_mcp/sources/credentials.py:106-134 | a payload without the required scopes or a failing keyring saves nothing |
| `CredentialLoads.LoadFindsExactly` | src/proactive_mcp/sources/credentials.py:146-188 | a load returns exactly the payload of the readable copy it may read: without a marker the keyring's and else the file's, under a live marker the one it names |
| `CredentialLoads.LoadFailsExactly` | src/proactive_mcp/sources/credentials.py:146-188 | a load reports the keyring as unavailable exactly where it would have to ask it |
| `CredentialLoads.PromotionCompletes` | src/proactive_mcp/sources/credentials.py:234-266 | a load that runs to its end with a working keyring moves the file's copy there under its version |
| `CredentialLoads.LoadClearsTombstone` | src/proactive_mcp/sources/credentials.py:166-172 | over a tombstone a load clears the file, and the keyring when it works |
| `CredentialLoads.DeleteCompletes` | src/proactive_mcp/sources/credentials.py:190-220 | a delete that runs to its end leaves a tombstone of the next epoch and the copies it could not remove |
| `DaemonRows.RefusedExactly` | src/proactive_mcp/store/daemon_status.py:155-174 | a start is refused exactly for a running row of another owner that seems alive and is at most three cadences old, by its own cadence or else the rival's |
| `DaemonRows.ClaimedRow` | src/proactive_mcp/store/daemon_status.py:36-47 | a start that takes the row sets owner, process, instants, cadence and no cycles, and keeps what earlier runs reported |
| `DaemonRows.StopFreesTheRow` | src/proactive_mcp/store/daemon_status.py:54-58 | a stop ends the row at once: readers are told, the owner's further writes are refused and any rival may start |
| `DaemonRows.RivalClaimsAfterStop` | src/proactive_mcp/store/daemon_status.py:124-192 | after any run, the owner's stop lets a rival claim the row |
| `DaemonRows.BeatRenewsTheRow` | src/proactive_mcp/store/daemon_status.py:48-53 | a heartbeat counts one cycle and keeps the row running for three cadences, or for as long as the reader allows |
| `DaemonRows.RunsAreReported` | src/proactive_mcp/store/daemon_status.py:194-243 | a run's start records its mode, its end the outcome, with phase and code exactly when it failed; a failure without them is refused |
| `DaemonRows.OthersWriteNothing` | src/proactive_mcp/store/daemon_status.py:292-301 | whoever does not own a running row writes nothing and is told whether there is one |
| `FallbackRules.ClaimsFirstDue` | src/proactive_mcp/store/_fallback_sql.py:11-72 | a claim records the first row, by priority, detection and id, that waits unexpired and unmuted without delivery, live lease or notification, and finds none exactly when there is none |
| `FallbackRules.OutcomeIsRecorded` | src/proactive_mcp/store/_fallback_sql.py:82-86 | an outcome goes to a claimed record of the row and nothing else, and is refused without one |
| `DispatchRules.RecordTellsOutcome` | src/proactive_mcp/delivery/fallback.py:70-108 | each record of a dispatch was due when claimed and ends, as its report says, as sent or as failed with the host's code |
| `InboxRules.CompleteExactly` | src/proactive_mcp/sources/gmail.py:138-222 | a read is applied and reported as complete exactly when the listing ended, no entry was skipped, all threads fit the limit, and none was too large or cut off by the byte budget |
| `InboxRules.ExcludedExactly` | src/proactive_mcp/sources/gmail.py:156-199 | a thread is excluded exactly when its own read was not safe, or when the budget ran out and it stands at or after a thread equal to the one being read |
| `InboxRules.SafeExactly` | src/proactive_mcp/sources/_gmail_projection.py:91-121 | a thread is safe exactly when its message has one of the sent and inbox labels, unambiguous headers and a whole body |
| `InboxRules.ReasonsExactly` | src/proactive_mcp/sources/_gmail_projection.py:91-136 | each degradation reason is given exactly for its own fact |
| `InboxRules.ListReasonsExactly` | src/proactive_mcp/sources/gmail.py:138-155 | the listing adds a reason exactly when it stopped early, skipped an entry or listed too many threads |
| `InboxRules.ListingStops` | src/proactive_mcp/sources/gmail.py:89-136 | a listing reads at most twenty pages and is incomplete only when the twentieth promises another |
| `BodyText.BodyIsFirstText` | src/proactive_mcp/sources/_gmail_projection.py:159-193 | the body is the first plain text among the first 64 parts at most 8 levels deep, else the first HTML text, else nothing, and an untruncated body passed over no part beyond the limits |
| `PartPaths.WalkFollowsTree` | src/proactive_mcp/sources/_gmail_projection.py:168-192 | the walk reaches exactly the parts at most nine levels down, each at its depth, parents before children and children from left to right |
| `Dates.AnchorDay` | src/proactive_mcp/situations/_dates.py:55-58 | an anchor falls on its own day in every year that has it; otherwise it is 29 February and falls on the 28th |
| `Dates.AnchorsExist` | src/proactive_mcp/situations/_dates.py:17-31 | the valid anchors are exactly the days some year has |
| `Dates.GregorianYears` | src/proactive_mcp/situations/_dates.py:61-62 | day numbers follow the Gregorian leap rule in closed form |
| `Dates.MonthLengths` | src/proactive_mcp/situations/_dates.py:65-70 | the valid dates, month by month |

## Left out

- Direct claims and `mark_delivered` bypass leases, and the latter the budget; the run
  theorems are about reserve and confirm.
- `select_for_delivery` is a read-only preview of one page.
- Quiet hours and the local day window are inputs of a reserve pass; time zones and
  daylight saving are not modelled.
- SQLite, the JSON capture callbacks, value validation and migrations: a transaction is
  one atomic step that is put back on an error; query results are functions of the
  tables.
- `Store.SituationStore.UpsertDetection`: the byte size of a serialized record is a
  number carried by the detection, because serialization is library behaviour.
- The wording of titles, explanations and evidence facts, apart from the thread id that
  decides the scope of a degraded application.
- `Credentials.CredentialStore.Adopt`: raw records without an envelope, and the migration
  of the global keyring entry, are not modelled; only enveloped records are adopted,
  since a save of this version always writes one.
- `Credentials.CredentialStore.Load`: whether a payload parses is a fact carried by the
  payload, because parsing is library behaviour; unreadable files and markers are not
  modelled.
- Process probes, OS notifiers and the keyring are foreign: their answers are
  parameters.
- Daemon rows written before tokens existed have no owner; here every row has one.
- HTTP, OAuth, JSON parsing, base64 and HTML text extraction: a part carries its decoded
  text, and extraction is a parameter.
- Mailbox header parsing: a message carries its labels and whether its identity headers
  were ambiguous.
- `Like.NormalizesExactly`: Unicode normalization and trimming of one path segment are
  library behaviour, given as a function that adds no slash.
- The lazy-sync lease, the evaluation gate and the freshness verdict are smaller
  instances of what is proved here.
- Command line, tool registration, service installation and wording: plumbing.
