# Verified model of the sync server's core

This project models, in Dafny, the parts of a personal sync server that hold its hard promises, and
proves those promises for all inputs, all runs and all reachable states:

- **Records.** A space is a revisioned record map, append-only versions, a change log with one sequence
  counter, an idempotency ledger, conflicts, a restore epoch and a stream floor. `Replication` gives every
  transaction as a function from one state of a space to the next; `RecordService` is the service and its
  transaction as classes that update their fields step by step, each method tied to that function. `Runs`
  makes events out of them and proves what every run keeps; `Pushes` and `Resolutions` spell out what each
  request is answered and leaves behind. On top of it stand replica convergence
  (`Replicas`, `FilteredReplicas`, `Pulling`, `Reconciling`), merging (`Merging`, `Convergence`), the ledger and
  tombstones (`Ledgers`), sequence numbers and category summaries (`Histories`, `Summaries`), first-sync plans
  (`FirstSyncs`), the promise-chain lock (`Transactions`), and what reads see that take no lock (`Reads`).
  `Counterexamples` holds short runs on which promises fail.
- **Objects.** `UploadParts` is part arithmetic and streaming, `ObjectStores` the invariant of the rows and
  the stored bytes, `ObjectServices` the service with every public method as one step. What happens where no
  lock reaches is `UploadRaces` for uploads and their parts and `CollectionRaces` for objects and references;
  `Recompletions` is completing twice, `Ranges` range requests and stream slicing.
- **Backups.** `BackupPoints` is what a point holds and what verification reads out of it, `Verifications` what
  it means that one verifies, `BackupServices` creation, verification, listing and pruning on a store whose
  operations may fail, `Retention` the selection of what to keep, `Imports` the staged import with concurrent and
  crashing attempts, `ImportRuns` one import from beginning to end, `ExportPackages` the validation of a package,
  `PointExports` which backups can be exported and imported again, `PointFiles` the file names they share.
- **Realtime.** `Registry` is the four indexes over live connections.

`Wrappers`, `Schema`, `CodeUnits`, `Decimals`, `Permutations` and `Streams` hold what several modules share.

How to read it: a lemma whose name ends in `Exactly` states a decision or a result in both directions, in terms
of the request and the state alone, so that it can be read without the functions it is about. The spaces, stores
and rows are values; the classes are the source's own classes. A method of a class either states its new state as
a specification function of the old one, or states it outright; the lemmas are about those functions, and the
class invariants (`Valid`, `Safe`) are kept by every public method, so they hold after any sequence of calls.

## How the source is represented

- A payload is a map from field name to the JSON text of the value; a field whose value is undefined is an
  absent field. Payloads that are not objects are not represented. `schemaVersion`, which is always 1, and the
  space identifier stored inside a record are dropped.
- Hashes are ideal: a hash stands for the value that was hashed. Only the digest of an uploaded object is an
  arbitrary function, because nothing about it is needed. Encryption is ideal: a ciphertext is its key, its
  associated data and its plaintext. Sealed tokens (cursors, page tokens, first-sync plans) cannot be forged,
  so a token is its contents.
- Clock readings, fresh identifiers and keys, the order of listings and the outcome of every store operation
  are inputs or nondeterministic choices. A fresh identifier is one that is not in use.
- Keys that the source joins from several strings (client and operation, account and space, space and
  reference set) are pairs, except where the joining itself is the point: `type:id` in `Reconciling`,
  `account:space` in `Registry` and the file names of a point.
- The versions of an entity, a map inside a map, are one map from entity and revision. The changed fields of a
  conflict are a set. The public form of a conflict in the log leaves out its status, which is always
  unresolved when it is logged.
- Plain writes may leave a torn file when they fail; exclusive writes, moves to a free name and deletes either
  take effect or do not. A move that fails may have copied already. The marker of a point is a plain write, so
  what holds at every crash point is that a marker is torn or its point verifies; a torn one shows as a failed
  point that no prune removes (`BackupServices.TornPointStays`).
- Times are whole milliseconds, calendar periods are in UTC.

## Where the code does not keep a promise

Each of these has a concrete input, named first, and the exact condition under which the promise holds, named
second.

- `reconcile` lists rows with `localeCompare` but resumes with a code-unit comparison of `type:id`, so a row can
  be lost (`Counterexamples.LocaleOrderLosesRow`); following the pages is complete for every client exactly when
  the listing is in code-unit order (`Reconciling.CompleteExactlyWhenSorted`).
- A `delete` is not checked against the schema, so it may name any category, and a record may change its category.
  The summaries of the categories can then disagree with the records, at once (`Summaries.MisfiledDelete`) or at
  the next ordinary upsert (`Summaries.RefiledUpsert`); they stay right exactly as long as no revision takes a
  record out of a category that would be summarised differently without it (`Summaries.EventSummarisesExactly`,
  `Summaries.RunSummarisesExactly`).
- For the same reason a client with a category filter can keep a stale row (`Counterexamples.StaleRowStays`); its
  replica follows a revision exactly when the revision does not take a selected record out of its filter
  (`Replicas.FilteredReplicaFollows`; for every event and along runs `FilteredReplicas.EventTracksExactly` and
  `FilteredReplicas.RunTracksExactly`).
- A pull without a cursor looks at no floor, and a new epoch begins with an empty log: a client that starts with
  nothing is then served an empty last page while records are live (`Counterexamples.EmptyPageAfterEpoch`). It
  ends with the selected records exactly when the log bears records of exactly their entities under its
  categories (`Pulling.DrainedFromNothingExactly`), which without a filter means: of everything the epoch began
  with (`Pulling.UnfilteredLogSuffices`).
- For last-writer-wins types a stale upsert revives a tombstone (`Counterexamples.StaleUpsertRevives`); for the
  others only an edit based on the tombstone does (`Ledgers.RevivedExactly`).
- `uploadStatus` and `cleanup` do not take the lock of an upload, and `cleanup` does not look again at what it
  listed: an upload that was reported as expired can complete or open again, a completed one can be marked as
  expired, and one can open again without its parts (`UploadRaces.ExpiredUploadRevives`,
  `UploadRaces.CompletedUploadExpires`, `UploadRaces.FailedCompletionLosesParts`); when exactly is
  `UploadRaces.FinalStatesAreUndoneExactly` and `UploadRaces.PartsAreLostExactly`.
- Parts can stay in storage for good: a status request, or any other, that finds the deadline passed ends the
  upload without deleting them, and a part may arrive after the sweep (`UploadRaces.LookLeavesParts`,
  `UploadRaces.LatePartStays`); when exactly is `UploadRaces.PartsStrayExactly`, and that nothing deletes them
  later `UploadRaces.StraysStay`.
- `cleanup` and `setReferences` take no lock, so a reference can end up naming an object that is gone
  (`CollectionRaces.ReferenceDangles`, `CollectionRaces.LateReferenceDangles`); when exactly is
  `CollectionRaces.DanglesExactly`, and excluding the two from each other suffices
  (`CollectionRaces.ExclusionSuffices`).
- Completing an upload again after its object was collected fails with an internal error instead of an answer
  (`Recompletions.CollectedObjectIsGone`, where it shows as `ObjectGone`); it is answered exactly as long as the
  row of the object exists (the contract of `ObjectServices.ObjectService.CompleteUpload`).
- `closeAccount` matches a prefix of `account:space`, so with colons in identifiers it closes other accounts'
  connections (`Registry.AccountReachesAnother`, `Registry.AccountReach`).
- A range whose last position is beyond the safe integers is refused, where section 14.1.2 of RFC 9110 would clip
  it (`Ranges.LongRangeIsRefused`, `Ranges.ServedExactly`).
- Not every backup that verifies can be exported and imported again: one with an empty object
  (`PointExports.EmptyObjectIsNotImportable`) or with more than 10000 files
  (`PointExports.ManyObjectsAreNotImportable`) is refused. It can be exactly when its identifier has the form of a
  manifest identifier, nothing in it is empty, and files, chunks and total keep within the limits
  (`PointExports.ImportableExactly`); six digits are then always enough for its names.

## Model

| member | source | states |
|---|---|---|
| Merging.MergeFields | src/records/service.js:275-284 | the loop over all field names of base, current and incoming yields the three-way merge and exactly the conflicting names, whatever order the names come in |
| Merging.MergeIsThreeWay | src/records/service.js:275-284 | field by field: a field takes the side that changed it, keeps the base when neither did, and conflicts exactly when both changed it to different values |
| Merging.MergeIsSymmetric | src/records/service.js:275-284 | the two sides conflict on the same fields in either order, and when on none they merge to the same payload in either order |
| Merging.MergeWithUnchangedSide | src/records/service.js:275-284 | merging with a side equal to the base gives the other side, without conflicts |
| Schema.RegistryExactly | src/records/schema-registry.js:31-37 | which entity types make up each category, and which are merged by copy and by last writer |
| Pushes.AnswersExactly | src/records/service.js:28-51 | every answer to a pushed operation and when it is given, in terms of the request and the space: the three schema refusals, the epoch, a reused or replayed identifier, a conflict that is not there, and otherwise a commit; whatever is not committed changes nothing |
| Pushes.AcceptedExactly | src/records/service.js:48-71 | which committed operations become revisions: a delete, upsert or resolution on the current revision, the resolution only of an open conflict, any upsert of the two last-writer-wins types, and a stale upsert of a live entity on a known base when no field was changed on both sides to different values |
| Pushes.PayloadExactly | src/records/service.js:50-84 | the payload of the revision: a tombstone keeps the last one, a merged edit changes exactly the fields it changed from its base, anything else is taken as sent |
| Pushes.AcceptedLeaves | src/records/service.js:73-85 | the whole space after an accepted operation, field by field: record, version, log entry with its tombstone and restore flags, category summary, ledger entry and resolved conflict; nothing else moves |
| Pushes.ConflictLeaves | src/records/service.js:64-92 | the whole space after an operation that became a conflict, field by field: the conflict with the state it met, the reason and exactly the fields both sides changed to different values, the log entry and the ledger entry; no record moves |
| Resolutions.AnswersExactly | src/records/service.js:219-240 | every answer to an owner who settles a conflict and when it is given: the epoch, a conflict that is not there, one resolved already with the version it was resolved to, a record at another revision, a payload that does not fit, and otherwise a new resolution; only that changes anything |
| Resolutions.ResolutionLeaves | src/records/service.js:234-241 | the whole space after a settled conflict: a live record at the next revision with the payload that was current, came in or was given, per resolution, on behalf of the client whose edit was current; its version, log entry and summary; and the conflict resolved at exactly that revision |
| Resolutions.ResolvingAgain | src/records/service.js:226-229 | asking again in any later state, with any resolution, is answered with the version the conflict was resolved to and changes nothing |
| Runs.EventIsMoves | src/records/service.js:28-101 | every event of a space (push, resolution, first sync, epoch, floor) is a sequence of accepts, conflicts, resolutions and ledger entries on the entities it may touch |
| Runs.StepKeeps | src/records/service.js:28-101 | every event keeps the invariant: records are their newest versions, revisions are dense from 1, versions and conflicts are filed under fresh numbers, the log is dense and describes them, the ledger is honest |
| Runs.RunKeeps | src/records/service.js:28-101 | over any run versions and ledger entries never change or vanish, conflicts are only resolved, revisions and the counter only grow, and new versions get numbers above all earlier ones |
| Runs.ReachableInv | src/records/memory-repository.js:7-50 | the invariant holds in every state reachable from a new space, across epochs |
| Histories.RunNumbers | src/records/service.js:73-92 | a run only appends owners of sequence numbers: a number is never taken back or given to something else |
| Histories.SequencesAreConserved | src/records/service.js:73-92 | in every reachable state each number from 1 to the counter belongs to exactly one version or one conflict, and none of them has another number |
| Histories.StepSummarises | src/records/service.js:80-81 | an event whose delete, if it is one, names the registered category leaves `present` and `lastSequence` of every category equal to what the records give |
| Histories.RunSummarises | src/records/service.js:80-81 | with registered categories on deletes, the summary of every category equals the one recomputed from the records in every state of a run |
| Summaries.ReachableNumbersAreDistinct | src/records/service.js:73-85 | no two records of a reachable state carry the same sequence number |
| Summaries.EventSummarisesExactly | src/records/service.js:28-101 | an event of any kind (push, resolution, first sync, epoch, floor) leaves all summaries right if and only if it does not file a revision under another category than the record has, when that category would be summarised differently without the record |
| Summaries.RunSummarisesExactly | src/records/service.js:28-101 | along any run from a reachable state the summaries stay right exactly as long as no event files such a revision |
| Summaries.RefiledUpsert | src/records/service.js:33-85 | two concrete to-dos: the first is deleted under notes, which leaves all summaries right, and the ordinary upsert after it leaves notes with a number that no record has |
| Summaries.MisfiledDelete | src/records/service.js:33-50 | a concrete to-do deleted under the category of notes leaves its own category marked present without a live record |
| Replicas.RunReplays | src/records/service.js:73-92 | in every state of a run the record map is the starting map of the epoch overlaid with the record-bearing changes of the log, tombstones included |
| Replicas.SameEpochReplays | src/records/service.js:73-92 | as long as no epoch begins, the same starting map serves all states of a run |
| Replicas.FilteredReplicaFollows | src/records/service.js:73-85 | for any one filter: after an accepted revision its replica still agrees with the server if and only if the revision does not take a selected record out of the filter |
| Replicas.EveryReplicaFollows | src/records/service.js:73-85 | the replicas of all filters agree after an accepted revision if and only if the record stayed in its category |
| FilteredReplicas.EventTracksExactly | src/records/service.js:28-101 | for any filter: a replica that was right stays right over an event of any kind if and only if the event does not take a record out of the filter; with a new epoch it starts over from what is selected |
| FilteredReplicas.RunTracksExactly | src/records/service.js:28-101 | for any filter and along any run a replica is right in every state exactly as long as no event takes a record out of the filter |
| Replicas.FilteredReplay | src/records/memory-repository.js:63 | replaying the filtered part of a log window on the selected records gives the selected part of replaying the window, when no change moves its record to another category |
| Replicas.FilteredReplicasConverge | src/records/service.js:112-131 | with registered categories on deletes, replaying the filtered log of the epoch gives exactly the selected records in every state of a run |
| Counterexamples.StaleRowStays | src/records/service.js:73-85 | a concrete to-do deleted under notes: replaying the whole log of to-dos keeps it live, while the server has no to-do left |
| Pulling.PageFacts | src/records/service.js:112-131 | a page is exactly the selected log between the old and the new position; a page with more to come is full, moves strictly forward and keeps the window, any other page drains it |
| Pulling.PageExactly | src/records/service.js:112-131 | in terms of the log alone: a page is the entries of the categories above its position up to the one handed out, in order and none twice; there is more if and only if it is full and such an entry is left up to the bound |
| Pulling.RefusedExactly | src/records/service.js:119-123 | which requests are refused, and with which error, and which are served: with a cursor an older epoch or a position below the floor is always refused; without one no epoch and no floor is looked at and every request with a valid limit is served |
| Pulling.HandedOutCursorIsServed | src/records/cursor.js:35-44 | a cursor that was handed out is served at any later time if and only if the epoch is the same and the floor has not passed it; with a new epoch it is refused for that reason |
| Pulling.PullIsGapFree | src/records/service.js:112-131 | for a client that starts without a cursor and follows cursors, with any limits and any events between pages, the pages together are the selected log up to its position, in order, each change once |
| Pulling.WindowWasOpened | src/records/service.js:118-124 | the upper bound of a window is the counter at one of the client's own requests: it is frozen until the window is drained |
| Pulling.DrainedReplica | src/records/service.js:112-131 | for any categories: a client that held the selected part of what the epoch began with, and drained a window, holds exactly the selected records the server had when the window was opened; with a category filter this needs deletes that name the registered category |
| Pulling.DrainedFromNothingExactly | src/records/service.js:112-131 | for any categories: a client that starts with nothing, without a cursor, and drained a window holds exactly the selected records the server had when the window was opened if and only if the log bore records of exactly their entities under these categories then |
| Pulling.UnfilteredLogSuffices | src/records/service.js:118-124 | without a filter that is the case if and only if the log bears a record of everything the epoch began with |
| Counterexamples.EmptyPageAfterEpoch | src/records/service.js:118-131 | a concrete to-do and then a new epoch: a request without a cursor, and one with the cursor it hands out, are served empty last pages while the to-do is live |
| Ledgers.ReplaysAreAnswered | src/records/service.js:40-51 | once an operation has committed, and after any later events, sending its identifier again from the same client, whatever else the request context says, changes nothing; it is answered with the stored outcome if the request is the same, and otherwise with the schema, epoch or reuse refusal that applies |
| Ledgers.ReplaysHaveNoEffect | src/records/service.js:40-51 | removing from any run every push whose client and operation identifier had committed already leaves the final state unchanged |
| Ledgers.BatchSettles | src/records/service.js:20-26 | after a batch, complete or cut short, the answered operations are in the ledger or refused by the schema, and the ledger has only grown |
| Ledgers.ResentBatchHasNoEffect | src/records/service.js:20-26 | sending a batch again after any later events, whole or cut off and with anything behind it, has exactly the effect of what comes after the operations that were answered the first time |
| Ledgers.CommittedStaysRetrievable | src/records/service.js:51-92 | whatever was committed stays retrievable at every later point: the version with its operation and every field it changed, or the conflict with its payload |
| Ledgers.ResolvedOnce | src/records/service.js:94-101 | a conflict keeps what it recorded, is resolved at most once, and then names an existing version of its entity |
| Ledgers.StepLeavesAlone | src/records/service.js:28-101 | an event leaves the record and the versions of every entity alone that it does not name |
| Ledgers.NoSilentRevival | src/records/service.js:64-71 | outside last-writer-wins types a tombstone becomes live only through an event that names the tombstone's own revision |
| Ledgers.RevivedExactly | src/records/service.js:59-71 | a new upsert on a tombstone revives it if and only if it is based on the revision of the tombstone or the type is last-writer-wins |
| Counterexamples.StaleUpsertRevives | src/records/service.js:64-71 | a concrete preference that is deleted, and made live again by an upsert that was based on its first revision |
| Convergence.OverlayIgnoresOrder | src/records/service.js:275-284 | a payload that overlays edits of different fields on a base is determined by the edits as a multiset |
| Convergence.DisjointEditsAllMerge | src/records/service.js:64-71 | any number of edits written against one retained revision that change different fields are all accepted, among any other events, and the record overlays them all |
| Convergence.ArrivalOrderDoesNotMatter | src/records/service.js:64-71 | two runs that deliver the same such edits in different orders, among different other events, end with the same payload |
| FirstSyncs.SameImpactSameRows | src/records/service.js:184 | between two states of a run the impact of a selection is the same if and only if the selected rows are the same, payload included |
| FirstSyncs.ExecutionIsExact | src/records/service.js:170-195 | a plan of this caller and request, confirmed in the words of its mode, not expired, of an epoch the caller may name, not server-wins and made for the selected rows as they are turns exactly the live selected rows into tombstones with the next revisions and consecutive numbers; under any other condition nothing changes |
| FirstSyncs.PlansExactly | src/records/service.js:170-199 | which plans are refused and with what, with every condition written out: a plan that is not of this caller and request, not confirmed in the literal words of its mode, or expired; another epoch; selected rows that are not those the plan was made for; and otherwise the rows, or nothing when the server wins |
| FirstSyncs.ExecutesAtMostOnce | src/records/service.js:182-195 | once a plan has been answered with the rows it tombstoned, every later request with it fails, in any later state |
| Reconciling.JoinedKeysComparePairwise | src/records/service.js:147-149 | comparing joined keys is comparing type names and then identifiers, because the separator sorts below every letter of a type name; joined keys identify the entity |
| Reconciling.PageTakesAll | src/records/service.js:148-149 | a page of a sorted listing takes, up to the key it ends on, every row not newer than the bound that the client does not know at its revision and with its deletion flag, and no other; what is left lies beyond that key |
| Reconciling.CompleteExactlyWhenSorted | src/records/service.js:146-150 | following the pages returns every row that the client does not know at its revision and with its deletion flag, whatever it knows and for every page size, if and only if the listing is in code-unit order |
| Counterexamples.LocaleOrderLosesRow | src/records/memory-repository.js:64 | a concrete space with the to-dos "a" and "B" listed in locale order: two pages of one row end the walk, and "B" is on neither |
| Reconciling.WalkIsComplete | src/records/service.js:133-152 | whatever is committed between the pages: at the end every selected record not newer than the frozen bound has been returned at its current value or is known to the client at its revision and with its deletion flag; only rows it did not know so are returned, as they were at the first request, keys increasing |
| Reconciling.WalkBringsUpToDate | src/records/service.js:133-153 | what the client knew, overlaid with the pages, has the revision and the deletion flag of the server for every selected record not newer than the bound |
| Reconciling.RequestsExactly | src/records/service.js:133-153 | which requests are refused and with what: the limit, another epoch, a token of another space, filter or known set; and what the others start from and hand out |
| Reconciling.WalkIsFinite | src/records/service.js:133-152 | a walk has at most one page more than there are records at its first request |
| RecordService.RecordReplicationService.Accept | src/records/service.js:73-85 | the step-by-step writes of version, record, category summary and log entry amount to accepting a revision |
| RecordService.RecordReplicationService.AddConflict | src/records/service.js:87-92 | the step-by-step writes of a conflict and its log entry amount to keeping an edit as a conflict |
| RecordService.RecordReplicationService.ApplyStale | src/records/service.js:64-71 | a stale operation is accepted, merged or kept as a conflict as the transaction function says, branch by branch |
| RecordService.RecordReplicationService.ResolveConflict | src/records/service.js:94-101 | a pushed resolution settles its conflict, becomes a conflict itself, or fails without touching the working copy |
| RecordService.RecordReplicationService.ApplyOperation | src/records/service.js:28-57 | schema check, replay check, effect, ledger entry and commit amount to one application of the transaction function; an error commits nothing |
| RecordService.RecordReplicationService.Push | src/records/service.js:20-26 | a batch of 1 to 100 operations is applied one transaction at a time, and ends with the first error, keeping what was done |
| RecordService.RecordReplicationService.ResolveConflictForAccount | src/records/service.js:220-247 | a resolution by the account owner settles an unresolved conflict once, or repeats the settled version, or fails without a change |
| RecordService.RecordReplicationService.ExecuteFirstSyncPlan | src/records/service.js:170-198 | the loop over the live rows runs in one transaction and amounts to the first-sync function |
| RecordService.RecordReplicationService.AdvanceEpoch | src/records/memory-repository.js:40-47 | a new epoch empties the log and puts the floor above every number used so far |
| RecordService.RecordReplicationService.MoveFloor | src/records/memory-repository.js:49 | only the floor of the space moves |
| Transactions.TransactionsAreSerial | src/records/memory-repository.js:15-38 | for any schedule the committed state of a key is at every point the sequential composition of its finished callbacks in order of arrival, throwing ones contributing nothing; one runs at a time per key; an idle key has no lock entry |
| Reads.ReadsSeeCommittedStates | src/records/memory-repository.js:34-38 | a read holds on to a state object and looks at it any number of times while transactions change their copies in place and replace the object of the key: all its looks show one committed state, the sequential composition of the callbacks that had finished when it began |
| Transactions.FirstUnfinishedCanStep | src/records/memory-repository.js:17-22 | no transaction waits forever for the lock: the first unfinished one of a key can start or finish |
| Transactions.ReleasedMeansResolved | src/objects/service.js:56-64 | once a transaction has been released everything it queued behind has been released too, so waiting for the chain or for the predecessor is the same |
| UploadParts.PartsCoverObject | src/objects/service.js:122-124 | every expected part has between one byte and a full chunk, and together they are the whole object |
| UploadParts.ReceivePart | src/objects/service.js:125-134 | however the request is cut, the body is received exactly when it has the expected length; a longer one is refused, a shorter one is told apart |
| UploadParts.PassThrough | src/objects/service.js:161-174 | however storage cuts the parts, what goes to the object is the parts in order, and the count, the hashed bytes and the signature are those of the whole |
| ObjectStores.AssembledIsWhole | src/objects/service.js:154-157 | the parts of an upload that has them all are together exactly as long as declared |
| ObjectStores.OneMoreActive | src/objects/repository.js:17-19 | one more upload keeps every client within four unexpired open uploads if the client had fewer |
| ObjectStores.FewerActive | src/objects/repository.js:17-22 | time passing and uploads ending never push a client over the limit |
| ObjectServices.ObjectCommits | src/objects/repository.js:25-31 | committing a verified content keeps all invariants: parts of other uploads, contents, references and unreferenced times |
| ObjectServices.HeldReplaced | src/objects/repository.js:43-53 | after a replacement an object is held if and only if the new set names it or another set does; before, if and only if the old set named it or another did |
| ObjectServices.ReferencesSettle | src/objects/service.js:256-263 | replacing a reference set keeps `unreferencedAt` empty exactly on held objects, and every reference pointing to an existing object of its space |
| ObjectServices.CollectingSettles | src/objects/service.js:303-311 | removing an unreferenced object with its content takes nothing from other uploads, objects or references |
| ObjectServices.CompletedParts | src/objects/service.js:111 | exactly the parts that are there, in increasing order |
| ObjectServices.EveryPart | src/objects/service.js:154-157 | counting the parts and probing each number accepts exactly the uploads with every part |
| ObjectServices.ObjectService.CreateUpload | src/objects/service.js:66-88 | a valid declaration is accepted exactly when the client has fewer than four active uploads; anything else changes nothing; all invariants hold afterwards |
| ObjectServices.DeclarationsExactly | src/objects/service.js:66-74 | which declarations are admitted and what is said about the others: a known digest, between 8 bytes and 10000 parts of 8 MiB, the one type and the three purposes |
| ObjectServices.ObjectService.RequireUpload | src/objects/service.js:90-101 | an upload is handed out, refused or ended by its deadline; nothing else changes |
| ObjectServices.RequiredExactly | src/objects/service.js:90-101 | which requests about an upload go on, what the others are told, and that exactly an open upload past its deadline is ended by one |
| ObjectServices.ObjectService.PutPart | src/objects/service.js:116-148 | a part is stored exactly if it has the length and digest it must have; the same part again has no second effect, another one under its number is refused |
| ObjectServices.PartVerdictExactly | src/objects/service.js:116-148 | how a part is answered: its number must begin below the length of the object, its body be all that is left but at most 8 MiB, its digest right; one that is there must be the same |
| ObjectServices.ObjectService.AssembleContent | src/objects/service.js:160-186 | what is stored under the key of the object is the parts in order; it is accepted exactly if it has the declared digest and the PNG signature |
| ObjectServices.ObjectService.CompleteUpload | src/objects/service.js:150-209 | a committed object is the in-order concatenation of the parts with the declared length and digest and the PNG signature; any failure leaves the upload open with all parts stored |
| ObjectServices.CompletionExactly | src/objects/service.js:180-193 | what a completion answers for a content: the eight bytes of the signature first, then the digest, and the object with every field |
| ObjectServices.CommittedExactly | src/objects/service.js:150-153 | completing again answers with an object if and only if it is the one committed and the space still has it |
| ObjectServices.WholeContentExactly | src/objects/service.js:163-174 | the content of an upload with all parts is as long as declared and has part n at (n - 1) times 8 MiB |
| ObjectStores.AllPartsExactly | src/objects/service.js:154-156 | all parts are there if and only if every byte of the object lies in one that is |
| Recompletions.CollectedObjectIsGone | src/objects/service.js:150-154 | a concrete upload that is completed, collected after its grace and completed again: if nothing fails on the way, the last answer finds no object |
| ObjectServices.ObjectService.CancelUpload | src/objects/service.js:211-221 | an open upload is cancelled for good and its parts deleted as far as deletes work; an ended one is only reported |
| ObjectServices.ObjectService.SetReferences | src/objects/service.js:249-265 | exactly the named objects are held and retained at least to the deadline, retention never shrinks, and what nothing holds any more is unreferenced from now; a refused request changes nothing |
| ObjectServices.ReferenceRefusalExactly | src/objects/service.js:249-255 | which replacements are refused and with what: the name, a list too long or with repetitions, an object that is not there |
| ObjectServices.RereferencedExactly | src/objects/service.js:256-264 | what a replacement does to each object: named ones are referenced and retained at least until the deadline, others are unreferenced from now on if and only if they were named before and are named by nothing now |
| ObjectServices.ObjectService.DeleteReferences | src/objects/service.js:267-272 | dropping a set makes exactly the objects unreferenced that nothing holds any more and keeps earlier times |
| ObjectServices.DroppedExactly | src/objects/service.js:267-272 | what dropping a set does to each object, in terms of who is named by the references that are left |
| ObjectServices.ObjectService.Cleanup | src/objects/service.js:297-314 | uploads past their deadline expire; an object goes only if no set of its space names it, it is unreferenced and past its grace, neither it nor the backups are retained, and its content could be deleted; without failing deletes every such object goes |
| UploadRaces.FinalStatesAreUndoneExactly | src/objects/service.js:93-97 | the last event of any possible history undoes a final state if and only if it is the end of a completion during which the upload expired, or a sweep of an upload that ended after it was listed |
| UploadRaces.PartsAreLostExactly | src/objects/service.js:175-198 | an open upload loses its parts if and only if a completion fails after a cleanup swept the upload during it |
| UploadRaces.PartsStrayExactly | src/objects/service.js:90-101 | stored parts are left to nobody if and only if an upload with stored parts is ended by asking for it, with nothing under way, or the receiving of a part ends after the upload did and a part is stored by then |
| UploadRaces.StraysStay | src/objects/service.js:299-302 | parts that are left to nobody are never deleted by any later step |
| UploadRaces.FinalWithoutDeadline | src/objects/service.js:93-97 | as long as no deadline passes final states are final and no open upload loses its parts |
| UploadRaces.ExpiredUploadRevives | src/objects/service.js:175-198 | a completion that was overtaken by its deadline makes a reported expired upload complete, or opens it again |
| UploadRaces.CompletedUploadExpires | src/objects/service.js:299-302 | a cleanup that listed an upload before it completed marks the completed upload as expired |
| UploadRaces.FailedCompletionLosesParts | src/objects/service.js:176-186 | a concrete schedule in which a completion is swept over, fails, and opens the upload again without parts |
| UploadRaces.LookLeavesParts | src/objects/service.js:90-101 | a concrete schedule in which a status request after the deadline leaves the parts of the upload behind |
| UploadRaces.LatePartStays | src/objects/service.js:142-145 | a concrete schedule in which a part that arrives during a sweep is left behind |
| CollectionRaces.DanglesExactly | src/objects/service.js:303-310 | a reference comes to dangle if and only if cleanup removes the row of an object after references to it were written during that cleanup, or a writer that had found the row writes the only reference after its removal |
| CollectionRaces.ExclusionSuffices | src/objects/service.js:303-310 | if no writer looks for the object during a collection and no collection begins while one is at work, nothing ever dangles |
| CollectionRaces.ReferenceDangles | src/objects/service.js:249-265 | a concrete schedule in which a reference set is written while cleanup deletes the content of its object |
| CollectionRaces.LateReferenceDangles | src/objects/service.js:249-265 | a concrete schedule in which a reference set is written after its object was removed |
| Ranges.SplitExactly | src/objects/service.js:234 | a header is taken apart exactly when it is two texts of digits around a dash, and into those texts |
| Ranges.ServedExactly | src/objects/service.js:232-239 | a range is served if and only if it is satisfiable in the sense of section 14.1.2 of RFC 9110 and its last position is a safe integer; a suffix is the last n bytes or everything, an end beyond the object is clipped |
| Ranges.LongRangeIsRefused | src/objects/service.js:234-238 | bytes=0-9007199254740992 on an object of one byte is satisfiable and refused |
| Ranges.ServedHeadersHaveTheForm | src/objects/service.js:234-235 | only headers of the one accepted form are served |
| Ranges.WrittenRangeIsServed | src/objects/service.js:234-239 | the header that names two positions in decimal is served as exactly these positions |
| Ranges.SliceStream | src/objects/service.js:317-325 | for any chunking the slices together are the asked part of the content, and reading stops at the first chunk that reaches the end |
| Ranges.Download | src/objects/service.js:229-247 | the bytes are exactly the content from start to end, as many as the advertised length; a request without a range gets the stream unsliced |
| Decimals.NumberOfPadded | src/backup/service.js:85 | padding a number with zeros loses nothing, so numbered names are distinct |
| Streams.ChunksJoin | src/backup/service.js:83-90 | cutting a body into chunks loses nothing, makes no chunk too long, and makes an empty chunk only of an empty body |
| PointFiles.KeysSortAfterMarker | src/backup/targets.js:41-55 | every file a backup writes sorts after the commit marker |
| PointFiles.ChunkKeysAreImportable | src/cli/import-package.js:12 | a chunk name is accepted by import if and only if its number has at most six digits |
| PointFiles.ObjectKeysAreImportable | src/cli/import-package.js:12 | an object chunk name is accepted by import if and only if both its numbers have at most six digits |
| PointFiles.SafeKeysExactly | src/cli/import-package.js:12 | the four forms of a key that an import accepts, with six digits wherever there is a number |
| PointExports.ImportableExactly | src/cli/import-package.js:30-46 | the export of a created point is an acceptable package if and only if its identifier is a manifest identifier, its files with manifest and marker are at most 10000, data and objects are not empty, no chunk, manifest or marker is longer than the limit for a file and together they keep within the limit for a package |
| PointExports.EmptyObjectIsNotImportable | src/cli/import-package.js:19 | a concrete backup with one empty object verifies, and its export is refused under any size limits |
| PointExports.ManyObjectsAreNotImportable | src/cli/import-package.js:10-32 | a concrete backup of 9998 one-byte objects verifies, and its export of 10001 files is refused under any size limits |
| BackupPoints.MarkerFixesContents | src/backup/service.js:150-190 | two verified points under markers with the same manifest digest have the same contents, whatever else is in their stores |
| BackupPoints.SameVerdict | src/backup/service.js:150-182 | a verdict depends only on the files that sort after the marker, and moves with them from place to place |
| BackupPoints.RoundTrip | src/backup/service.js:83-190 | for any data, objects (empty ones included) and chunk size, a place that holds what a backup writes verifies to exactly the data and the objects in order, or names the reason for which they are refused |
| Verifications.VerifiesExactly | src/backup/service.js:150-182 | a place verifies to some contents if and only if every condition on manifest, key, chunks, objects and inventory holds, each written out, and then the data and the objects are their chunks in order |
| Verifications.PointsExactly | src/backup/service.js:184-190 | a point verifies if and only if its marker is whole and names it, and its files verify under the digest of the marker |
| BackupPoints.SafetyPassesOver | src/backup/service.js:133-139 | a store in which every marker is torn or belongs to a verifiable point stays so when the other points are untouched |
| BackupServices.WriteChunks | src/backup/service.js:83-108 | the chunk loop stores exactly the chunks of the body under fresh names and lists them, and never writes outside its temporary place |
| BackupServices.CommitIsSafe | src/backup/service.js:129-139 | with all files moved and the marker last, the point verifies to the staged contents and nothing else has changed |
| BackupServices.CommitHolds | src/backup/service.js:129-139 | with all files moved and the marker last, the point holds exactly the files of the staged backup |
| BackupServices.TornPointStays | src/backup/service.js:192-216 | a point with a torn marker is listed as failed and is never among the points a prune removes |
| BackupServices.DeletedNext | src/backup/service.js:211-212 | deleting in sorted order never leaves a marker on a damaged point, because the marker goes before everything the point needs |
| BackupServices.KeptPointsStillVerify | src/backup/service.js:207-216 | what retention keeps verifies after pruning with the same contents |
| BackupServices.BackupTarget.List | src/backup/targets.js:41-55 | the names of a place, each once, sorted by code units |
| BackupServices.BackupService.VerifyAt | src/backup/service.js:150-182 | without failing reads the verdict is that of the files at the place: every branch, check and reason |
| BackupServices.BackupService.Verify | src/backup/service.js:184-190 | verification of a point starts from its marker and holds the manifest to the digest in it |
| BackupServices.BackupService.Stage | src/backup/service.js:78-127 | what is staged is a complete backup that has been verified in place, or the reason why not |
| BackupServices.BackupService.Publish | src/backup/service.js:129-140 | at every state in between a marker is torn or its point verifies; on success the point verifies, holds exactly the files of the backup and no temporary file is left |
| BackupServices.BackupService.Create | src/backup/service.js:73-148 | at every crash point a marker is torn or its point verifies; success gives back exactly the data and the objects, and the point holds exactly their files; without failing operations it succeeds exactly when the input is in order, and leaves nothing behind otherwise |
| BackupServices.BackupService.List | src/backup/service.js:192-205 | every committed point once, newest first, as verified exactly if it verifies |
| BackupServices.CommittedExactly | src/backup/service.js:193-194 | a point is committed if and only if a file of it is named as the marker, in whatever directory |
| BackupServices.ListingsExactly | src/backup/service.js:196-203 | what a listing shows: every committed point once, as verified only if it verifies and then under its creation time, and without failing operations exactly those that verify, the failed ones as of 1 January 2000 |
| BackupServices.BackupService.Prune | src/backup/service.js:207-216 | at every crash point a marker is torn or its point verifies; without failing operations exactly the files of the points that retention drops are gone; a dry run changes nothing |
| Retention.SelectRetention | src/backup/retention.js:19-34 | the one-pass loop keeps and prunes exactly what the first-of-its-period rule says for each tier |
| Retention.SelectionIsKeep | src/backup/retention.js:19-34 | for distinct times and identifiers the pass keeps exactly the newest point of each of the newest distinct days, weeks and months, and prunes the other verified points |
| Retention.KeepAndPrunePartition | src/backup/retention.js:33 | each verified point is in exactly one of keep and prune, in order |
| Retention.KeepIsIdempotent | src/backup/retention.js:19-34 | pruning right after pruning removes nothing |
| Retention.KeepIsOnline | src/backup/retention.js:19-34 | pruning before a newer point arrives does not change what the next selection keeps |
| Retention.PruningEachTimeIsPruningOnce | src/backup/service.js:207-216 | pruning after every backup leaves exactly what one prune at the end would |
| Retention.PeriodsAdvance | src/backup/retention.js:12-30 | days, weeks and months never run backwards in time |
| Retention.PeriodsExactly | src/backup/retention.js:22-29 | two points are of one day or week if and only if the same midnight or Monday precedes them, and a point is of a month if and only if it lies between the first days of that month and the next, given in closed form |
| Retention.KeptExactly | src/backup/retention.js:22-31 | a point is kept if and only if it is the newest of its day, week or month and fewer later days, weeks or months than the limit of that tier have points |
| Retention.PoliciesExactly | src/backup/retention.js:3-11 | which retention policies are accepted and what they become, with the minimum 7, 4 and 12 in production |
| Imports.MarkerMeansComplete | src/cli/import-package.js:64-105 | with any number of attempts, failures and crashes, a published marker means that every file of a verified package is there with its bytes |
| Imports.OnlyHolderWrites | src/cli/import-package.js:75-100 | files under a point change only at the hands of the attempt that holds the lease of that point |
| Imports.UncommittedLeavesNothing | src/cli/import-package.js:98-104 | an attempt that fails before the marker leaves no temporary file, no lease and no published file if its deletes take effect, among any other attempts |
| Imports.UncommittedRestoresStore | src/cli/import-package.js:76-104 | an attempt alone that has ended and whose deletes took effect leaves the store as it was if and only if it did not put the marker in place, whatever failed; a dry run never does |
| ImportRuns.FaultlessImport | src/cli/import-package.js:64-105 | an import that meets no fault publishes if and only if the manifest is not leased, nothing is published under it, its files verify and it is no trial run; then the store has gained exactly the files of the package, and otherwise it is as it was; whatever fails, it ends within a number of operations that its package determines |
| ExportPackages.CollectFiles | src/cli/import-package.js:33-42 | the files are collected exactly when each is safe, decodable and small enough, no key repeats and the total stays within the limit |
| ExportPackages.ValidatePackage | src/cli/import-package.js:30-46 | a package is accepted if and only if it is acceptable as a whole, and then it is exactly the listed files with manifest and marker |
| ExportPackages.AcceptableExactly | src/cli/import-package.js:29-46 | every condition on a package written out: limits, format, identifier, number, keys, sizes and distinctness of the files, manifest and marker |
| Registry.AddKeepsAgreement | src/realtime/registry.js:50 | adding a connection keeps an index in agreement with the live connections: each under its own key, no empty bucket |
| Registry.RemoveKeepsAgreement | src/realtime/registry.js:51 | removing a connection, live or not, keeps an index in agreement |
| Registry.AccountReach | src/realtime/registry.js:24-26 | exactly which connections a close of an account reaches, for all identifiers |
| Registry.AccountReachesItsOwn | src/realtime/registry.js:24-26 | without colons in identifiers closing an account reaches exactly its own connections |
| Registry.AccountReachesAnother | src/realtime/registry.js:24-26 | with a colon in an identifier it reaches another account |
| Registry.SpaceKeysAreDistinct | src/realtime/registry.js:9 | without colons in account identifiers two spaces never share a key |
| Registry.InvalidationRegistry.Register | src/realtime/registry.js:6-12 | a complete registration adds exactly one live connection to all indexes, an incomplete one none |
| Registry.InvalidationRegistry.Remove | src/realtime/registry.js:28 | exactly this connection leaves all indexes; repeating it changes nothing |
| Registry.InvalidationRegistry.Publish | src/realtime/registry.js:14-19 | exactly the live connections whose account and space key is the given one get the message, once each, and no other live connection gets anything |
| Registry.InvalidationRegistry.CloseSet | src/realtime/registry.js:27 | each connection is told and closed once and removed, and they are counted |
| Registry.InvalidationRegistry.CloseClient | src/realtime/registry.js:21 | exactly the live connections whose client is the given one are told, closed, removed and counted |
| Registry.InvalidationRegistry.CloseGeneration | src/realtime/registry.js:22 | exactly the live connections with the given key generation, if it is one, are told, closed, removed and counted |
| Registry.InvalidationRegistry.CloseSpace | src/realtime/registry.js:23 | exactly the live connections whose space is the given one are told, closed, removed and counted |
| Registry.InvalidationRegistry.CloseAccount | src/realtime/registry.js:24-26 | exactly the live connections whose account and space key starts with the account and a colon are told, closed, removed and counted, although buckets vanish during the loop; all others are left alone |

## Left out

- RecordService.RecordReplicationService.ApplyOperation: does not model the notification published after a commit, and takes the parsed operation; the shape check of the wire format is the predicate `WellFormed` only.
- RecordService.RecordReplicationService.ResolveConflictForAccount: does not model the notification published after the commit.
- RecordService.RecordReplicationService.ExecuteFirstSyncPlan: does not model the notification published after the commit, and takes the rows in the order of the listing as an input, so their order is not fixed.
- BackupServices.BackupService.Create: takes the objects as bytes that were read already, so a failing object reader and the check for plaintext secrets are not modelled.
- BackupServices.BackupService.List: points with equal creation times are in no particular order, and the error code of a failed one is not modelled.
- ObjectServices.ObjectService.CompleteUpload: one step under one clock reading; what may happen during its pauses is modelled in `UploadRaces`.
- ObjectServices.ObjectService.Cleanup: one step, like `SetReferences`; what may happen during their pauses is modelled in `CollectionRaces`.
- ObjectServices.ObjectService.CreateUpload: the limit of four is proved for clocks that do not run backwards.
- Registry.InvalidationRegistry.CloseSet: a sink that throws, or that registers connections while it is told, is not modelled.
- Imports.MarkerMeansComplete: the attempts are the only writers of the store; a running backup or prune is not one of them, and the verdict of verification is an arbitrary function of the files.
- Retention.SelectRetention: dates are in UTC only, and times start at the epoch.
- `restore` of a record is not modelled; it reads a tombstone and then applies an ordinary upsert on its revision.
- `stats`, `listConflictsForAccount`, `completeness`, `metadata` and `usage` only read and would add easy members.
- Restoring a backup into the database and activating it: it resets the sequence counter, which no log invariant survives.
- The PostgreSQL repositories, their SQL and row-level security: foreign calls; the in-memory repositories are the semantics.
- Routes, console, WebSocket transport, command-line parsing and configuration: plumbing.
- Field schemas and the scan for forbidden data: an arbitrary validity predicate per entity type.
- Real hashing, signatures, encryption, JSON and base64: ideal functions, as described above.
- Filesystem and object-storage details: links, temporary names, permissions, lost responses.
- Identity, sessions, key rotation, audit and job health: local checks.
