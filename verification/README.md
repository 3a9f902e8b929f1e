# StuHelper: verified models

Dafny models of the parts of StuHelper whose behaviour spans many steps, and proofs of what they promise. `dafny
verify dfyconfig.toml` checks everything; `Options.dfy` and `Basics.dfy` hold what the components share.

**Backup activation** (`Activation*.dfy`). A directory of immutable, hash-linked records with one `current` file.
`ActivationRecords` says what a valid record is, `ActivationChain` what an accepted history is and that the loader
decides exactly that, `ActivationFormat` spells both out version by version and file by file, `ActivationPublish`
breaks publication into its filesystem calls, `ActivationRuns` lets any number of publishers interleave and crash,
`ActivationForks` and `ActivationReach` say which directories they can reach and which of these are accepted,
`ActivationRace` shows what two that overlap do, `ActivationCrash` stops one publication anywhere, `ActivationOutcome`
lets it run to its end, and `ActivationClock` shows what a clock that steps back does. JSON, SHA-256 and the calendar
are parameters; no theorem assumes that SHA-256 has no collisions.

**Academic import** (`Academic*.dfy`). Six tables with surrogate keys, foreign keys and cascades. `AcademicTables` and
`AcademicImport` give each SQL statement its effect, `AcademicIntegrity` follows the foreign keys through every
statement, `AcademicIsolation` follows the other sources, `AcademicMeaning` says what it is for tables to hold a
snapshot, `AcademicRefinement` and `AcademicPruning` follow the import towards that, `AcademicSurvivors` and
`AcademicOutcome` say exactly what is left of any valid snapshot, `AcademicEquivalence` compares with clearing and
inserting and with importing twice, and `AcademicRepository` is the repository method.

**Client state machines.** `PagedList`, `NotificationConnection` and `SessionClient` turn each promise, timer and
event source into something in flight that any later step may settle; the theorems hold for all interleavings.

**Connector runner.** `ConnectorRunner`: circuit breaker and run exclusion shared by heartbeats, poll workers and
schedulers, and the two backoffs.

**Sequential algorithms.** `UriComponents` defines percent-encoding over UTF-16 code units; `PathTemplate` and
`SsoRedirect` use it. `ScanGate` is the vulnerability gate, `SearchTokens` an LRU cache, `Subsequence` the greedy
matcher, `TtlCache` a cache with lazy expiry.

In each part a pure function says what one step does and the lemmas are about whole runs of steps. A class whose later
answers depend on its past (`Controller`, `Store`, `Client`, `OperationState`, `TokenCache`, `CacheStore`) keeps the
list of what has happened to it, its `Valid()` says that its fields are those of that run, and each of its methods
promises what the step means. Beside each part stand lemmas that say the same in literal terms: fields, numbers,
characters and bits, without the functions that specification and code share. `Storage`, `Repository` and
`StateDirectory` are directories, tables and slots that others also write; their methods promise the new state as a
function of the old one, and need no past.

## Where the code differs from what one would expect

- Publication never compares its timestamp with the current record's: `ActivationCrash.PublishedIsAcceptedIff` has the
  exact condition, `ActivationOutcome.RegressionIsFatal` says what follows when it fails, and
  `ActivationClock.ClockRegression` runs an instance.
- Nothing keeps two publications apart: if they overlap, both can report success and leave a directory that is never
  accepted again, `ActivationRace.OverlapIsFatal`. A crash between staging and the last rename does the same,
  `ActivationReach.CrashIsFatal`.
- An offering, term, course or teacher with an empty external id is imported and then pruned by the same import:
  `AcademicOutcome.ImportRepresentsIff`, `ImportRepresentsSurvivors` says what is left, and
  `NamelessTermIsLost` is an instance.
- Polling without an event stream stops for good after five failed fetches:
  `NotificationConnection.PollingIsStrandedIff`, with `PollingGivesUp` for an instance.
- Normalizing a redirect is not idempotent when an escaped blank ends it: `SsoRedirect.NormalizingTwice`.
- The retry delay is reset to fifteen minutes even where the cap is lower: `ConnectorRunner.RetryExceedsCapIff`,
  `ShortScheduleWaitsLonger`.
- A roster operation whose last failure was an unavailable upstream reports itself healthy:
  `ConnectorRunner.ReportedHealth`, with `OutageReadsHealthy` for an instance, open breaker included.
- The search cache never evicts the key of a blank name, and so can outgrow its limit without bound:
  `SearchTokens.CacheIsBoundedIff`, `CacheHasNoBound`.
- The comment at `clients/web/src/stores/courseReview.ts:205` promises to clear one department exactly; the code clears
  by prefix: `TtlCache.InvalidationIsExactIff`.

## Model

| member | source | states |
|---|---|---|
| `ActivationChain.LoadChain` | infra/ops/manage-postgres-backup-activation.py:233-294 | terminates and succeeds if and only if the directory holds a history: all of its files, no other, form one chain of valid records with distinct ids, from a root without predecessor to the current record, each naming the one before by id and digest and none earlier than it; returns the current record |
| `ActivationChain.ReadRecords` | infra/ops/manage-postgres-backup-activation.py:240-253 | succeeds exactly when every entry is a valid record stored under its own id; then the index has exactly these records |
| `ActivationChain.FollowLinks` | infra/ops/manage-postgres-backup-activation.py:265-294 | the walk along the links: succeeds exactly when the disk has a history, whose last record is the one it started from |
| `ActivationChain.HistoryIsSorted` | infra/ops/manage-postgres-backup-activation.py:286-287 | the neighbour test makes the whole history sorted by time |
| `ActivationChain.HistoryHasNoCycle` | infra/ops/manage-postgres-backup-activation.py:269-271 | in a directory that has a history the walk never meets an id twice |
| `ActivationChain.HistoryMeetsAll` | infra/ops/manage-postgres-backup-activation.py:290-293 | a finished walk that missed a record means there is no history |
| `ActivationChain.OnlyRootHasNoPredecessor` | infra/ops/manage-postgres-backup-activation.py:272-276 | only the oldest record of a chain names no predecessor |
| `ActivationRecords.CanonicalIsUnique` | infra/ops/manage-postgres-backup-activation.py:147-148 | of the payloads that are accepted only one stands for a document: records are equal exactly when their bytes are |
| `ActivationRecords.RereadLater` | infra/ops/manage-postgres-backup-activation.py:116-122 | validation depends on the clock through the timestamp alone: read later, a payload is the same record or refused |
| `ActivationRecords.FileNameIsInjective` | infra/ops/manage-postgres-backup-activation.py:249 | two records never share a file name |
| `ActivationRecords.TemporaryIsNoRecord` | infra/ops/manage-postgres-backup-activation.py:307-308 | a staged file is never taken for a record, so a left-over one is always unexpected |
| `ActivationRecords.TemporaryMeans` | infra/ops/manage-postgres-backup-activation.py:307-308 | a staged name is a dot, the name it is staged for, a dot and eight characters out of a-z, 0-9 and _, as mkstemp writes it |
| `ActivationRecords.StringLessMeans` | infra/ops/manage-postgres-backup-activation.py:286 | the order of times is by the first character that differs, a proper prefix first |
| `ActivationFormat.ReadIff` | infra/ops/manage-postgres-backup-activation.py:125-212 | a payload is a record if and only if it is the canonical form of a document of version 1, 2 or 3, each with exactly its own keys, the event, an identifier of up to 128 safe characters, and from version 2 on a null or an exact link, whose details and time pass; and the record has what the document says |
| `ActivationFormat.PredecessorIsWritten` | infra/ops/manage-postgres-backup-activation.py:272-276 | a version 1 record names no predecessor; in versions 2 and 3 it is the null or the link that stands in the document |
| `ActivationFormat.AcceptedDirectory` | infra/ops/manage-postgres-backup-activation.py:240-294 | in an accepted directory every file reads as a record under its own id, the file it names is there with the digest it gives and is not younger, one file names none, and the current file is one that no file names |
| `ActivationFormat.ThreeVersionsAreAccepted` | infra/ops/manage-postgres-backup-activation.py:268-294 | an instance: a version 1 record, a version 2 record that names it, and a version 3 record that names that one |
| `ActivationPublish.StateDirectory.Publish` | infra/ops/manage-postgres-backup-activation.py:336-421 | undisturbed publication ends in exactly one way: with the current record if it is accepted, of schema 3 and carries the live identity; published if the directory is empty, or accepted and to be superseded, and the new record is valid and its file name free; refused otherwise, with nothing changed but an empty directory made |
| `ActivationPublish.EndsAsPromised` | infra/ops/manage-postgres-backup-activation.py:368-408 | a published record is of schema 3, carries the live identity and the given recovery evidence, and names the last record of the history by id and digest |
| `ActivationPublish.DecideMeans` | infra/ops/manage-postgres-backup-activation.py:347-371 | the branches on the schema amount to one test: keep a v3 record of the same identity, otherwise supersede if asked to |
| `ActivationPublish.StateDirectory.Consult` | infra/ops/manage-postgres-backup-activation.py:341-371 | keeps exactly when the accepted current record is v3 with the live identity; goes on exactly from no current file, or from an accepted one to be superseded, and names that record as predecessor |
| `ActivationPublish.StateDirectory.LinkRecord` | infra/ops/manage-postgres-backup-activation.py:410-419 | stage, exclusive link, unlink: the record appears whole under its name, or the name was taken and nothing changed |
| `ActivationPublish.StateDirectory.ReplaceCurrent` | infra/ops/manage-postgres-backup-activation.py:326-333 | the current file is replaced whole and no temporary stays |
| `ActivationPublish.NewRecordFields` | infra/ops/manage-postgres-backup-activation.py:389-408 | the record that is published reads back as the document that was encoded, with the requested id, the clock reading, the given predecessor, the recovery evidence and the live identity |
| `ActivationPublish.NewDocumentFields` | infra/ops/manage-postgres-backup-activation.py:389-408 | what is encoded, key by key: schema 3, the id, the time, the predecessor, the recovery evidence, the identity |
| `ActivationPublish.IdentityMeans` | infra/ops/manage-postgres-backup-activation.py:227-231 | the identity matches exactly when all seven fields do |
| `ActivationPublish.KeptIsCurrent` | infra/ops/manage-postgres-backup-activation.py:358-367 | answering with the current record happens only when it was accepted and carries the live identity |
| `ActivationRuns.StepGrows` | infra/ops/manage-postgres-backup-activation.py:307-333 | no filesystem call of a publication removes or rewrites a record |
| `ActivationRuns.RunGrows` | infra/ops/manage-postgres-backup-activation.py:307-421 | nor does any interleaving of any number of publishers, crashed ones included |
| `ActivationRuns.HistoryIsPrefix` | infra/ops/manage-postgres-backup-activation.py:233-294 | of two accepted moments with no record lost between them, the earlier history is a prefix of the later |
| `ActivationRuns.AcceptedHistoryIsAppendOnly` | infra/ops/manage-postgres-backup-activation.py:233-421 | for every interleaving and every crash: what is accepted at one moment is a prefix of what is accepted at any later one; SHA-256 may collide |
| `ActivationForks.ForkIsFatal` | infra/ops/manage-postgres-backup-activation.py:272-293 | once two records on disk name the same predecessor, or two name none, no later schedule of any publishers and no clock reading gives an accepted directory |
| `ActivationForks.HistoryIsChain` | infra/ops/manage-postgres-backup-activation.py:233-294 | while nothing has forked, whatever a load accepts is the one chain that the record files form |
| `ActivationForks.LinkingMoves` | infra/ops/manage-postgres-backup-activation.py:410-421 | the exclusive link appends to the chain, or finds the name taken, or forks the directory |
| `ActivationForks.ChainHasNoFork` | infra/ops/manage-postgres-backup-activation.py:272-293 | records that form one chain and a fork exclude each other |
| `ActivationReach.RunExtendsOrForks` | infra/ops/manage-postgres-backup-activation.py:336-421 | over every interleaving and crash: a fork, or a chain that goes on from the old one, where the current file names the last record or the one before it and then exactly one publisher has the last one still to name |
| `ActivationReach.LinearIsAcceptedIff` | infra/ops/manage-postgres-backup-activation.py:233-294 | a directory without a fork is accepted if and only if no publisher is between its first call that writes and its last, and the times are in order and none lies ahead |
| `ActivationReach.ReachableDisks` | infra/ops/manage-postgres-backup-activation.py:233-421 | from a settled directory a set of publishers reaches two kinds only: forked ones, refused at every later moment, and extensions of the old history by successors the publishers made, accepted exactly as above |
| `ActivationReach.PublishedIsKept` | infra/ops/manage-postgres-backup-activation.py:233-421 | a record whose publication reported success, or that was found current, is in every history that is later accepted |
| `ActivationReach.CrashIsFatal` | infra/ops/manage-postgres-backup-activation.py:307-421 | a publisher that stops for good between its first call that writes and its last leaves a directory that is never accepted, whatever the others did before or do after |
| `ActivationRace.OverlapIsFatal` | infra/ops/manage-postgres-backup-activation.py:336-421 | whenever two publishers would each supersede the current record under an id of its own, the schedule in which both load before either writes ends with both reporting success and a directory that is never accepted again |
| `ActivationCrash.HistoryIsUnique` | infra/ops/manage-postgres-backup-activation.py:233-294 | a directory has at most one history, whatever the clock |
| `ActivationCrash.SoloPhase` | infra/ops/manage-postgres-backup-activation.py:336-421 | the exact disk at every point at which one publication can stop |
| `ActivationCrash.CrashAnywhere` | infra/ops/manage-postgres-backup-activation.py:336-421 | stopped between any two filesystem calls, a publication leaves the old history, the old history plus one record, or a disk that neither the loader nor any later publication accepts |
| `ActivationCrash.OrphanIsRejected` | infra/ops/manage-postgres-backup-activation.py:290-293 | a record that was linked while the current file still names the old one is refused at every clock reading |
| `ActivationCrash.StuckRefuses` | infra/ops/manage-postgres-backup-activation.py:342-385 | on such a disk every later publication is refused and changes no record |
| `ActivationCrash.AppendedHasOneHistory` | infra/ops/manage-postgres-backup-activation.py:410-421 | after a publication the only possible history is the old one with the new record at its end |
| `ActivationCrash.PublishedIsAcceptedIff` | infra/ops/manage-postgres-backup-activation.py:286-287 | a completed publication is accepted if and only if its time is not before the current record's and nothing is dated in the future: publish itself never compares |
| `ActivationOutcome.PublicationCompletes` | infra/ops/manage-postgres-backup-activation.py:336-421 | call by call and undisturbed, publication reaches its end within twelve calls, and it is the same end as that of the method |
| `ActivationOutcome.PublishesIff` | infra/ops/manage-postgres-backup-activation.py:336-421 | that run publishes a record if and only if the request may append to this directory, the record is valid and its file name free |
| `ActivationOutcome.RegressionIsFatal` | infra/ops/manage-postgres-backup-activation.py:286-287 | whenever the clock has gone behind the current record, such a publication completes, and the directory it leaves is accepted at no time |
| `ActivationClock.ClockRegression` | infra/ops/manage-postgres-backup-activation.py:286-287 | an instance: one second back, a run of twelve calls that ends published, and a directory that no clock reading makes acceptable |
| `AcademicTables.UpsertAt` | server/internal/modules/academics/repository_import.go:167-182 | a bulk upsert gives every input row its data and job; a known key keeps its surrogate key, a new one gets the next |
| `AcademicTables.UpsertElsewhere` | server/internal/modules/academics/repository_import.go:173-180 | and touches no other key |
| `AcademicTables.DeleteTermsKeepsIntegrity` | server/migrations/000001_initial_schema.up.sql:3723 | deleting terms with its cascades leaves no dangling row |
| `AcademicTables.DeleteCoursesKeepsIntegrity` | server/migrations/000001_initial_schema.up.sql:3699 | nor does deleting courses |
| `AcademicTables.DeleteOfferingsKeepsIntegrity` | server/migrations/000001_initial_schema.up.sql:3667-3683 | nor does deleting offerings, which take relations, slots and memberships along |
| `AcademicTables.DeleteTeachersKeepsIntegrity` | server/migrations/000001_initial_schema.up.sql:3691 | nor does deleting teachers |
| `AcademicImport.ExternalIds` | server/internal/modules/academics/repository_import.go:72-114 | the list for pruning has exactly the ids that are not empty |
| `AcademicImport.ScanMapping` | server/internal/modules/academics/repository_import.go:127-149 | succeeds exactly when as many distinct ids came back as rows went in; every entry is a returned row |
| `AcademicImport.UpsertRows` | server/internal/modules/academics/repository_import.go:151-188 | an upsert with its mapping succeeds exactly on rows whose values fit their columns, with pairwise distinct external ids, all of which survived their joins |
| `AcademicImport.CollectRelations` | server/internal/modules/academics/repository_import.go:359-385 | succeeds exactly when every offering and teacher is known, with every teacher and slot in order |
| `AcademicImport.JoinedAll` | server/internal/modules/academics/repository_import.go:300-304 | when all references are known the joins lose no offering |
| `AcademicImport.CountAllKnown` | server/internal/modules/academics/repository_import.go:437-439 | then the affected-rows check passes |
| `AcademicImport.InsertMembersIff` | server/internal/modules/academics/repository_import.go:462-485 | the membership insert succeeds exactly when no membership is repeated, every role is allowed and every text can be stored |
| `AcademicImport.SlotMeans` | server/migrations/000001_initial_schema.up.sql:368-370 | a slot passes exactly on a weekday from 1 to 7, a first period of at least 1, a last period not before it, and texts without NUL |
| `AcademicImport.MemberFitsMeans` | server/migrations/000001_initial_schema.up.sql:283 | a membership passes exactly as student, teacher or assistant, with texts without NUL |
| `AcademicIntegrity.UpsertTermsKeepsIntegrity` | server/internal/modules/academics/repository_import.go:156-183 | integrity after the first statement |
| `AcademicIntegrity.UpsertCoursesKeepsIntegrity` | server/internal/modules/academics/repository_import.go:195-222 | integrity after the second |
| `AcademicIntegrity.UpsertTeachersKeepsIntegrity` | server/internal/modules/academics/repository_import.go:234-253 | integrity after the third |
| `AcademicIntegrity.UpsertOfferingsKeepsIntegrity` | server/internal/modules/academics/repository_import.go:280-317 | integrity after the fourth: every offering row points at a term and a course of its own source |
| `AcademicIntegrity.ClearsKeepIntegrity` | server/internal/modules/academics/repository_import.go:347-358 | integrity after each of the three clearing statements |
| `AcademicIntegrity.InsertTeachingKeepsIntegrity` | server/internal/modules/academics/repository_import.go:390-405 | integrity after inserting teacher relations |
| `AcademicIntegrity.InsertSlotsKeepsIntegrity` | server/internal/modules/academics/repository_import.go:412-433 | integrity after inserting schedules |
| `AcademicIntegrity.InsertMembersKeepsIntegrity` | server/internal/modules/academics/repository_import.go:462-479 | integrity after inserting memberships |
| `AcademicIntegrity.ImportKeepsIntegrity` | server/internal/modules/academics/repository_import.go:11-53 | no row points at a missing row after the whole import, empty ids included |
| `AcademicIsolation.ImportLeavesOthers` | server/internal/modules/academics/repository_import.go:11-53 | every row, relation, slot and membership of every other source is as before |
| `AcademicIsolation.DeleteTermsLeavesOthers` | server/internal/modules/academics/repository_import.go:43-45 | even the cascades stay inside the source |
| `AcademicRefinement.UpsertsLoadAll` | server/internal/modules/academics/repository_import.go:13-28 | after the upserts the snapshot's rows are in the four tables, each offering at its own term and course |
| `AcademicRefinement.TeachingRepresents` | server/internal/modules/academics/repository_import.go:347-405 | after clearing and inserting, a relation exists exactly where the snapshot lists the teacher, and every relation belongs to a live offering |
| `AcademicRefinement.SlotsForKnown` | server/internal/modules/academics/repository_import.go:374-384 | each offering gets exactly its own slots, as a multiset |
| `AcademicRefinement.InsertSlotsAt` | server/internal/modules/academics/repository_import.go:425-433 | the schedule insert adds to each offering the slots of its rows |
| `AcademicRefinement.InsertMembersEffect` | server/internal/modules/academics/repository_import.go:472-478 | the memberships after the insert are the old ones and exactly those of the snapshot |
| `AcademicRefinement.BeforePruningIsRelated` | server/internal/modules/academics/repository_import.go:13-34 | before pruning everything of the snapshot is written and no relation of the source refers to an offering the snapshot lacks |
| `AcademicPruning.PruneOfferingsIsPlain` | server/internal/modules/academics/repository_import.go:39-42 | because relations were replaced first, deleting stale offerings cascades to nothing |
| `AcademicPruning.PruneTermsIsPlain` | server/internal/modules/academics/repository_import.go:43-45 | because stale offerings went first, deleting stale terms cascades to nothing |
| `AcademicPruning.PruneCoursesIsPlain` | server/internal/modules/academics/repository_import.go:46-48 | and so for courses |
| `AcademicPruning.PruneTeachersIsPlain` | server/internal/modules/academics/repository_import.go:49-51 | and for teachers |
| `AcademicPruning.PruningIsPlain` | server/internal/modules/academics/repository_import.go:39-53 | in the import's own state the four deletes remove the stale rows of four tables and nothing else |
| `AcademicPruning.PruningDropsEmptyIds` | server/internal/modules/academics/repository_import.go:72-114 | a row whose external id is empty does not survive its own import |
| `AcademicOutcome.PruningTrims` | server/internal/modules/academics/repository_import.go:39-53 | for every valid snapshot, empty ids included, the four deletes with all their cascades remove the source's rows that do not survive and what depends on them, and nothing else |
| `AcademicSurvivors.SurvivingHasNoEmptyIds` | server/internal/modules/academics/repository_import.go:72-114 | nothing that survives has an empty external id |
| `AcademicSurvivors.NothingIsDropped` | server/internal/modules/academics/repository_import.go:72-114 | a valid snapshot without empty ids survives whole |
| `AcademicOutcome.ImportRepresentsSurvivors` | server/internal/modules/academics/repository_import.go:11-53 | after the import of any valid snapshot the source's rows are the snapshot without the rows whose id is empty, the offerings whose term or course has an empty id, and their relations and members |
| `AcademicOutcome.ImportRepresentsIff` | server/internal/modules/academics/repository_import.go:11-53 | they are the whole snapshot (keys, attributes, references, teachers, slots, memberships, job) if and only if no external id is empty |
| `AcademicOutcome.MembersMean` | server/internal/modules/academics/repository_import.go:462-485 | field by field: each membership row has user, role and student of a membership of the snapshot, under the surrogate key of its offering, and each has its row |
| `AcademicOutcome.NamelessTermIsLost` | server/internal/modules/academics/repository_import.go:39-53 | an instance: one term with an empty id is a valid snapshot, is imported into empty tables, and is gone |
| `AcademicEquivalence.ImportSucceeds` | server/internal/modules/academics/repository_import.go:11-37 | every snapshot whose values fit, whose ids are distinct and whose references are known is imported, whatever the tables held |
| `AcademicEquivalence.OneClassIsImported` | server/internal/modules/academics/repository_import.go:11-53 | an instance: a class of one period on a Sunday with an assistant and nobody else is imported into any tables, whole |
| `AcademicEquivalence.RepresentationIsUnique` | server/internal/modules/academics/repository_import.go:11-53 | a snapshot determines its source's rows up to surrogate keys |
| `AcademicEquivalence.ClearingClears` | server/internal/modules/academics/repository_import.go:55-61 | the reference behaviour's first half: nothing of the source is left in any table, teacher relations and schedules included |
| `AcademicEquivalence.ImportRefinesClearAndInsert` | server/internal/modules/academics/repository_import.go:11-53 | for every valid snapshot, importing over old rows leaves what clearing the source and importing would, up to surrogate keys |
| `AcademicEquivalence.ImportKeepsIds` | server/internal/modules/academics/repository_import.go:173-180 | a row known before and after keeps its surrogate key, in all four tables |
| `AcademicEquivalence.ImportIsIdempotent` | server/internal/modules/academics/repository_import.go:11-53 | importing any valid snapshot again changes nothing but job numbers |
| `AcademicRepository.Repository.UpsertTermsTx` | server/internal/modules/academics/repository_import.go:151-188 | the statement's effect on its table; fails exactly on a value its column refuses, such as a start date that is no date, and on repeated ids |
| `AcademicRepository.Repository.UpsertCoursesTx` | server/internal/modules/academics/repository_import.go:190-227 | the same for courses |
| `AcademicRepository.Repository.UpsertTeachersTx` | server/internal/modules/academics/repository_import.go:229-258 | the same for teachers |
| `AcademicRepository.Repository.UpsertOfferingsTx` | server/internal/modules/academics/repository_import.go:260-322 | fails exactly on a value its column refuses, repeated ids and unknown terms or courses |
| `AcademicRepository.Repository.ReplaceOfferingRelationsTx` | server/internal/modules/academics/repository_import.go:339-441 | fails exactly on an unknown teacher or a slot outside the check constraints or with a text that jsonb refuses |
| `AcademicRepository.Repository.ReplaceMembershipsTx` | server/internal/modules/academics/repository_import.go:443-487 | fails exactly on an unknown offering, a bad role, a text that jsonb refuses or a repeated membership |
| `AcademicRepository.Repository.PruneStaleSnapshotRowsTx` | server/internal/modules/academics/repository_import.go:39-70 | the four deletes, with the two forms of the delete statement selecting the same rows |
| `AcademicRepository.Repository.ReplaceSnapshot` | server/internal/modules/academics/repository_import.go:11-37 | succeeds if and only if the snapshot is valid, column values included; on failure nothing changed; on success the source's rows are what survives of the snapshot, all of it exactly when no id is empty, other sources are untouched and known rows keep their keys |
| `PagedList.RunKeepsInv` | clients/uniappx/src/composables/usePagedList.ts:43-93 | over all interleavings: items is the concatenation of committed pages 1 to page, none skipped or repeated; loading and loadingMore hold exactly while a request of that kind and of the current generation is in flight, never both |
| `PagedList.OneCurrentRequest` | clients/uniappx/src/composables/usePagedList.ts:44-73 | at most one request of the current generation is in flight |
| `PagedList.GenerationCountsRefreshes` | clients/uniappx/src/composables/usePagedList.ts:44 | the generation is the number of refreshes called |
| `PagedList.StaleSettlesChangeNothing` | clients/uniappx/src/composables/usePagedList.ts:50-92 | an answer or failure that a refresh overtook changes no field |
| `PagedList.RunKeepsPrefix` | clients/uniappx/src/composables/usePagedList.ts:68-82 | against a list that does not change, items is always a prefix made of whole pages and no request goes past the last page |
| `PagedList.ListIsComplete` | clients/uniappx/src/composables/usePagedList.ts:40-82 | loading stops with the whole list after exactly max(1, ceil(n / size)) successful fetches, whatever fails in between |
| `PagedList.NextPageCommits` | clients/uniappx/src/composables/usePagedList.ts:68-91 | a failed page changes nothing and the next attempt commits the very next page |
| `PagedList.PagesMaySpanGenerations` | clients/uniappx/src/composables/usePagedList.ts:56-64 | a run in which pages of two generations stand side by side after a failed refresh |
| `PagedList.Controller.StartRefresh` | clients/uniappx/src/composables/usePagedList.ts:43-46 | every request that was in flight stops counting, one refresh of the new generation is in flight, and items, page and total stay |
| `PagedList.Controller.FinishRefresh` | clients/uniappx/src/composables/usePagedList.ts:48-66 | counts or reports exactly when no refresh has been called since its own; shows page 1 alone with its total, or what was shown; items are the committed pages |
| `PagedList.Controller.StartMore` | clients/uniappx/src/composables/usePagedList.ts:68-73 | asks for the page after the last one shown, exactly when no request of the current generation is in flight and the server has more |
| `PagedList.Controller.FinishMore` | clients/uniappx/src/composables/usePagedList.ts:75-93 | counts or reports exactly when no refresh has been called since; appends its page, which is the next one, or changes nothing shown; items are the committed pages |
| `NotificationConnection.RunKeepsInv` | clients/web/src/stores/notification.ts:259-299 | over all runs: open sources, intervals and timeouts are exactly those the store's variables name, the poll timer runs exactly while the fallback is on, each mode runs what it should, and the reconnect delay is the closed form |
| `NotificationConnection.NothingRunsUnwatched` | clients/web/src/stores/notification.ts:584-662 | at most one source is open and it is the held one; nothing runs unless monitoring was started and not stopped since |
| `NotificationConnection.RunUsesIds` | clients/web/src/stores/notification.ts:602-682 | what is open or pending has an identifier already given out, and the next to be given out only grows: none is used twice |
| `NotificationConnection.StreamIsNeverStranded` | clients/web/src/stores/notification.ts:525-692 | started as a stream with EventSource available: either one source is open, or exactly one reconnect is due, after min(1000 * 2^(k-1), 30000) ms for the k-th loss in a row, and polling runs unless five fetches in a row have failed since the loss |
| `NotificationConnection.ReconnectOpens` | clients/web/src/stores/notification.ts:607-613 | a reconnect that comes due opens a source |
| `NotificationConnection.LossRecovers` | clients/web/src/stores/notification.ts:584-627 | losing the source leaves no source, exactly one reconnect due after the wait for one loss more, and polling on with one timer |
| `NotificationConnection.BackoffDoubles` | clients/web/src/stores/notification.ts:605 | the capped doubling of the delay is the closed form |
| `NotificationConnection.BackoffWaits` | clients/web/src/stores/notification.ts:605 | one second, two, four, eight, sixteen, then thirty for ever |
| `NotificationConnection.PollingIsStrandedIff` | clients/web/src/stores/notification.ts:525-536 | without a stream, monitoring is left with nothing running if and only if five fetches in a row have failed since it started |
| `NotificationConnection.PollingGivesUp` | clients/web/src/stores/notification.ts:525-536 | a run in which it is |
| `NotificationConnection.PollingFacts` | clients/web/src/stores/notification.ts:519-597 | whenever no source is open the failures counted are those in a row, and polling runs until five |
| `NotificationConnection.Store.ConnectSSE` | clients/web/src/stores/notification.ts:664-682 | one source is open and no reconnect is due; the unread count is fetched at once exactly when no fallback is running, and a running one goes on until that source opens; without EventSource polling starts over with a fetch |
| `NotificationConnection.Store.StartPolling` | clients/web/src/stores/notification.ts:647-653 | no source is open, no reconnect due, one poll timer runs, one fetch is made and the failures start over |
| `NotificationConnection.Store.StopPolling` | clients/web/src/stores/notification.ts:655-662 | no source, interval or timeout stays behind, and nothing is fetched |
| `NotificationConnection.Store.OnOpen` | clients/web/src/stores/notification.ts:684-692 | the source that opened is the only one, polling is off, nothing is due or fetched, and the run of losses starts over |
| `NotificationConnection.Store.OnError` | clients/web/src/stores/notification.ts:771-781 | no source is open, polling is on with one fetch more, the failures start over, and one reconnect is due after the wait for one loss more |
| `NotificationConnection.Store.OnMessage` | clients/web/src/stores/notification.ts:616-645 | the source stays open and the count goes on or starts over, except that the fifth failure in a row loses the source; one fetch for a kind that refetches, and one more for a loss |
| `NotificationConnection.Store.PollTimerFires` | clients/web/src/stores/notification.ts:590-596 | a timer that can still fire finds monitoring and fallback on, so that every tick is a fetch: its own clean-up is never needed |
| `NotificationConnection.Store.ReconnectTimerFires` | clients/web/src/stores/notification.ts:607-613 | one source is open again, nothing more is due, polling goes on as it was, and the count is fetched exactly when no fallback was running |
| `NotificationConnection.Store.FetchReturns` | clients/web/src/stores/notification.ts:519-537 | the fifth failure in a row ends polling and nothing else does; source and reconnect are untouched, and one fetch less is in flight |
| `SessionClient.RunKeepsInv` | clients/shared/src/api/session-client.ts:294-365 | over all interleavings of requests, replies, refresh settlement, `finally` callbacks and resumptions: one refresh at a time, an exact map of GETs in flight, and every execution in a state its own replies explain |
| `SessionClient.OneRefreshInFlight` | clients/shared/src/api/session-client.ts:300-313 | at most one refresh is not over, and it is the one new requests join |
| `SessionClient.NoSecondRefresh` | clients/shared/src/api/session-client.ts:301-303 | while a refresh is in flight no number of replies starts another |
| `SessionClient.WaitingIsAnswered` | clients/shared/src/api/session-client.ts:341 | a waiting execution waits for the refresh in flight or for one that is over: nobody waits for nothing |
| `SessionClient.TwoRequestsIff` | clients/shared/src/api/session-client.ts:322-344 | one or two transport requests, and two if and only if the refresh it waited for succeeded and it has resumed |
| `SessionClient.WaitersShareTheResult` | clients/shared/src/api/session-client.ts:341-364 | executions that waited for one refresh all retry, or are each answered from their own reply and that one result |
| `SessionClient.AnswerIsItsOwn` | clients/shared/src/api/session-client.ts:335-364 | an execution is answered with its own reply; after a refused or failed refresh under that status, or under the status of the refresh when that is 400 or more |
| `SessionClient.RefreshIsAskedIff` | clients/shared/src/api/session-client.ts:280-333 | a refresh is asked for exactly when refreshing is on and the transport says so, or says nothing about a 401 on any path but `/api/v1/auth/refresh` |
| `SessionClient.FailedRefreshAnswers` | clients/shared/src/api/session-client.ts:288-292 | the status of the refresh when it is 400 or more, else the first reply's; a refused refresh keeps the first reply's content, a failed one puts its error in place of it |
| `SessionClient.UnauthorizedIsHandledIff` | clients/shared/src/api/session-client.ts:284-320 | onUnauthorized is for exactly a 401 of a client that reauthenticates |
| `SessionClient.NotifiedOnce` | clients/shared/src/api/session-client.ts:315-348 | onUnauthorized runs at most once, never after a retry, and exactly for a handled 401 whose refresh did not merely fail |
| `SessionClient.OneExecutionPerKey` | clients/web/src/api/client.ts:423-433 | at most one execution per key is unsettled |
| `SessionClient.CallJoinsIff` | clients/web/src/api/client.ts:423-437 | a de-duplicated call joins an execution exactly when one with its key is unsettled |
| `SessionClient.CallersOfOneExecutionAgree` | clients/web/src/api/client.ts:425-433 | all callers of one execution get its one answer |
| `SessionClient.ReplyWaitsOrAnswers` | clients/shared/src/api/session-client.ts:300-341 | a reply that asks for a refresh waits for the one in flight and starts one only when there is none; any other is the answer, notified exactly for a handled 401 |
| `SessionClient.Client.FinishRefresh` | clients/shared/src/api/session-client.ts:308-310 | no refresh is in flight any more, and everyone who waited can go on |
| `SessionClient.Client.ReplyArrives` | clients/shared/src/api/session-client.ts:327-341 | a 401 of another path than the refresh, unless the transport decides itself, waits for the one refresh in flight, starting it only when there is none; any other reply is the answer, notified exactly for a 401 of a client that reauthenticates |
| `SessionClient.Client.ResumeWaiter` | clients/shared/src/api/session-client.ts:341-364 | a waiter retries exactly after a successful refresh; else its answer is its own first reply, or the refresh's error, under the status of the refresh when that is 400 or more |
| `SessionClient.Client.RetryArrives` | clients/shared/src/api/session-client.ts:342-344 | the second reply is the answer whatever its status: neither refreshed nor notified again |
| `SessionClient.Client.RequestThrows` | clients/shared/src/api/session-client.ts:322-344 | a transport request that throws rejects its own execution and no refresh |
| `SessionClient.Client.RefreshSettles` | clients/shared/src/api/session-client.ts:305-313 | until its `finally` has run a settled refresh is still the one to join |
| `SessionClient.Client.NotificationReturns` | clients/shared/src/api/session-client.ts:315-320 | after the one notification the execution has its answer, or is rejected when onUnauthorized throws |
| `SessionClient.FinallyFreesWaiters` | clients/shared/src/api/session-client.ts:308-310 | when the refresh is over every refresh is, and every waiter's one has a result |
| `SessionClient.Client.InvokeClientMethod` | clients/web/src/api/client.ts:408-437 | the new caller joins the unsettled execution under its key, or starts one, with one request, exactly when there is none |
| `SessionClient.Client.FinishExecution` | clients/web/src/api/client.ts:429-431 | of the GETs in flight its own entry goes, and no other |
| `SessionClient.Client.CallerResumes` | clients/web/src/api/client.ts:425-433 | a caller gets the answer of the execution it joined |
| `PathTemplate.SerializePath` | clients/shared/src/api/session-client.ts:91-125 | equals reading the template into literals and holes once and substituting once; fails exactly when some value cannot be encoded |
| `PathTemplate.SubstituteFrom` | clients/shared/src/api/session-client.ts:95-124 | the cursor loop computes what tokenising once and substituting once computes, and fails exactly when that does |
| `PathTemplate.TakeChunk` | clients/shared/src/api/session-client.ts:98-122 | one turn of the loop moves the cursor on, and what it pushes is what the part of the template it passed over serializes to: before and after, chunks and rest together make the same text; it fails only where the whole does |
| `PathTemplate.PrintOfTokenise` | clients/shared/src/api/session-client.ts:98-122 | printing the tokens gives the template back |
| `PathTemplate.TokensAreWellFormed` | clients/shared/src/api/session-client.ts:103-122 | no literal holds a hole; a key is not empty and holds no `}`, though it may hold `{` |
| `PathTemplate.PrintedTemplatesMean` | clients/shared/src/api/session-client.ts:98-122 | whatever pieces a template was written with, `{}` and keys like `a{b` included, exactly those pieces are substituted: no value and no text is ever taken for a hole |
| `PathTemplate.ValuesAddNoStructure` | clients/shared/src/api/session-client.ts:115-121 | every `/`, `{`, `}`, `?`, `#`, and every other character that is escaped, stands in the result as often as in the text of the template |
| `PathTemplate.HolesAreEncoded` | clients/shared/src/api/session-client.ts:115-121 | a hole takes the encoding of its value; null, undefined and a missing value leave nothing |
| `PathTemplate.UserIdIsEscaped` | clients/shared/src/api/session-client.ts:115-121 | an instance: `/users/{id}` with the id `a?b` is `/users/a%3Fb` |
| `PathTemplate.TrimTrailingSlashes` | clients/shared/src/api/session-client.ts:127-133 | the longest prefix that does not end in a slash |
| `UriComponents.DecodeOfEncode` | clients/shared/src/api/session-client.ts:119-121 | decodeURIComponent undoes encodeURIComponent on every text that can be encoded (ECMA-262, section 19.2.6; RFC 3986, section 2.1) |
| `UriComponents.EncodeSucceedsIff` | clients/shared/src/api/session-client.ts:119-121 | encoding fails exactly on a text with a lead surrogate that no trail follows, or a trail that no lead precedes |
| `UriComponents.EncodedCharacters` | clients/shared/src/api/session-client.ts:119-121 | an encoded text has only unreserved characters and percent signs |
| `UriComponents.OwnEncodingIff` | clients/shared/src/api/session-client.ts:119-121 | a text is its own encoding exactly when it is made of A-Z, a-z, 0-9 and - _ . ! ~ * ' ( ) |
| `UriComponents.EncodeAscii` | clients/shared/src/api/session-client.ts:119-121 | ASCII characters are encoded one by one: those as they are, every other as a percent sign and its code in two upper-case digits |
| `UriComponents.Utf8Bits` | clients/shared/src/api/session-client.ts:119-121 | the octets of a code point: their number, their ranges and the bits they carry (RFC 3629, section 3) |
| `UriComponents.DecodePointIff` | clients/uniappx/src/auth/sso-state.ts:50-54 | an escaped sequence is read exactly when it is the UTF-8 octets of a code point: no overlong form, no surrogate, nothing past the last |
| `UriComponents.EscapesIgnoreCase` | clients/uniappx/src/auth/sso-state.ts:50-54 | texts that differ in the case of escape digits alone decode alike |
| `UriComponents.DecodeShortens` | clients/uniappx/src/auth/sso-state.ts:48-60 | decoding strictly shortens whatever holds a percent sign |
| `UriComponents.DecodeFixesIff` | clients/uniappx/src/auth/sso-state.ts:65 | a text decodes to itself exactly when it holds no percent sign |
| `SsoRedirect.NormalizedRedirect` | clients/uniappx/src/auth/sso-state.ts:38-82 | answers exactly the page (no percent sign, no control character, under `/pages/`, at most 2048 units) that at most two decodings of the trimmed value reach; null exactly when there is none |
| `SsoRedirect.ContainsControlCharacter` | clients/uniappx/src/auth/sso-state.ts:28-36 | going by code points finds exactly the control units |
| `SsoRedirect.AcceptedPageIsUnique` | clients/uniappx/src/auth/sso-state.ts:48-60 | a value stands for at most one page |
| `SsoRedirect.PageMeans` | clients/uniappx/src/auth/sso-state.ts:69-79 | a page: `/pages/` in front, at most 2048 units, none below 32, none 127, no percent sign |
| `SsoRedirect.AcceptsMeans` | clients/uniappx/src/auth/sso-state.ts:38-82 | accepted is the page that the trimmed value is, or decodes to once, or twice |
| `SsoRedirect.TrimMeans` | clients/uniappx/src/auth/sso-state.ts:42 | trimming takes the white space at both ends and nothing else |
| `SsoRedirect.AcceptsIgnoresCase` | clients/uniappx/src/auth/sso-state.ts:48-60 | the same pages are accepted from %2f as from %2F |
| `SsoRedirect.AcceptedIsStable` | clients/uniappx/src/auth/sso-state.ts:62-71 | an accepted redirect is a page under any number of further decodings |
| `SsoRedirect.NormalizingTwice` | clients/uniappx/src/auth/sso-state.ts:38-82 | normalizing twice is normalizing once and trimming; three times equals twice; twice equals once if and only if the result does not end in white space |
| `SsoRedirect.TrailingEscapeIsNotIdempotent` | clients/uniappx/src/auth/sso-state.ts:43-60 | the witness: `/pages/%20` |
| `SsoRedirect.PagesAreLocal` | clients/uniappx/src/auth/sso-state.ts:75-76 | the test for `//` never decides: `/pages/` excludes it |
| `SsoRedirect.EncodingDepth` | clients/uniappx/src/auth/sso-state.ts:48-71 | a page is accepted as it is, encoded once and encoded twice; encoded three times it is refused |
| `SsoRedirect.ConsumeIsStable` | clients/uniappx/src/auth/sso-state.ts:153-194 | storing and consuming gives the trimmed page; and whatever is stored, what is consumed is a page that normalizes to itself |
| `SsoRedirect.NormalizeRedirectOption` | clients/uniappx/src/auth/sso-state.ts:84-86 | the page, or the default |
| `SsoRedirect.Storage.PersistSSORedirect` | clients/uniappx/src/auth/sso-state.ts:153-163 | stores the accepted page of the path, or the default; nothing when storage cannot be written |
| `SsoRedirect.Storage.ReadStoredSSORedirect` | clients/uniappx/src/auth/sso-state.ts:165-176 | exactly the accepted page of the stored value, or null |
| `SsoRedirect.Storage.ClearStoredSSORedirect` | clients/uniappx/src/auth/sso-state.ts:178-188 | removes the entry when it can |
| `SsoRedirect.Storage.ConsumeStoredSSORedirect` | clients/uniappx/src/auth/sso-state.ts:190-194 | the accepted page of the stored value without white space at its end, else the default: always a stable page; the entry is gone when it can be removed |
| `ConnectorRunner.OneRunAtATime` | server/internal/campusconnector/node/runner.go:285-290 | under any interleaving at most one thread is between a granted begin and its end, and `running` says whether one is |
| `ConnectorRunner.RunIsExclusive` | server/internal/campusconnector/node/runner.go:371-385 | every step keeps it, heartbeats and interactive requests included |
| `ConnectorRunner.BreakerRefinesHistory` | server/internal/campusconnector/node/runner.go:387-403 | consecutiveFails is the number of failures since the last success, openUntil and healthCode follow the last record |
| `ConnectorRunner.OpenIff` | server/internal/campusconnector/node/runner.go:365-369 | open if and only if five failures or more stand since the last success and the last is less than thirty seconds old |
| `ConnectorRunner.TrippedMeans` | server/internal/campusconnector/node/runner.go:395-402 | tripped is: the last five records are failures, the last of them less than thirty seconds old |
| `ConnectorRunner.CheckGrantedIff` | server/internal/campusconnector/node/runner.go:365-369 | a heartbeat or interactive request of an idle thread goes to the upstream exactly when the breaker is not open, and reports once |
| `ConnectorRunner.BeginGrantedIff` | server/internal/campusconnector/node/runner.go:371-379 | a begin is granted if and only if no run is under way and the breaker is not open |
| `ConnectorRunner.HalfOpen` | server/internal/campusconnector/node/runner.go:395-401 | after the thirty seconds one more failure reopens at once, one success closes |
| `ConnectorRunner.ReportedHealth` | server/internal/campusconnector/node/runner.go:405-412 | the health reported without a probe is the last recorded failure, except that an unavailable upstream reads as ok |
| `ConnectorRunner.HealthMeans` | server/internal/campusconnector/node/runner.go:405-412 | with nothing recorded, no code or an unavailable upstream the fallback; ok after a success; else the code |
| `ConnectorRunner.OutageReadsHealthy` | server/internal/campusconnector/node/runner.go:387-412 | an instance: after one to five outages in a row and no success the operation reports ok, with the breaker open after the fifth |
| `ConnectorRunner.OperationState.BeginRun` | server/internal/campusconnector/node/runner.go:371-379 | granted if and only if nothing runs and the history has not tripped the breaker; test and set in one step |
| `ConnectorRunner.OperationState.EndRun` | server/internal/campusconnector/node/runner.go:381-385 | frees the operation; the history stands |
| `ConnectorRunner.OperationState.RecordSuccess` | server/internal/campusconnector/node/runner.go:387-393 | the breaker is closed at every later moment, the streak is over, and a run under way goes on |
| `ConnectorRunner.OperationState.RecordFailure` | server/internal/campusconnector/node/runner.go:395-403 | one failure more in a row; open for exactly thirty seconds from now if that makes five or more |
| `ConnectorRunner.OperationState.IsOpenNow` | server/internal/campusconnector/node/runner.go:365-369 | open if and only if the history has five failures or more in a row, the last less than thirty seconds old |
| `ConnectorRunner.OperationState.ReportHealth` | server/internal/campusconnector/node/runner.go:405-412 | the last recorded failure of the history, with an unavailable upstream counted as none |
| `ConnectorRunner.RunPollWorker` | server/internal/campusconnector/node/runner.go:150-166 | after the k-th failed poll in a row the worker waits 2^min(k-1, 4) seconds |
| `ConnectorRunner.PollWaits` | server/internal/campusconnector/node/runner.go:151-163 | 1, 2, 4, 8, then 16 seconds for ever |
| `ConnectorRunner.PollWaitsInOrder` | server/internal/campusconnector/node/runner.go:150-166 | six failures, a success, a failure: 1, 2, 4, 8, 16, 16, 0, 1 seconds |
| `ConnectorRunner.RunRosterSchedule` | server/internal/campusconnector/node/runner.go:255-283 | the interval after a success; after the k-th failure in a row min(15 * 2^(k-1), min(interval, 360)) minutes, except that the first failure after a success waits 15 |
| `ConnectorRunner.RetryWaits` | server/internal/campusconnector/node/runner.go:257-273 | 15, 30, 60, 120, 240, then 360 minutes on schedules of six hours and more; never above a shorter interval |
| `ConnectorRunner.RosterDelaysInOrder` | server/internal/campusconnector/node/runner.go:255-283 | an hourly schedule: four failures, a success, two failures wait 15, 30, 60, 60, 60, 15, 30 minutes |
| `ConnectorRunner.RetryExceedsCapIff` | server/internal/campusconnector/node/runner.go:257-273 | a retry waits longer than the cap if and only if it is that first one, on a schedule under fifteen minutes |
| `ConnectorRunner.ShortScheduleWaitsLonger` | server/internal/campusconnector/node/config.go:313 | an accepted schedule on which one does: five minutes |
| `ScanGate.Gate` | infra/ops/validate-runtime-image-scan.py:500-744 | passes if and only if policy and scan are in order and the set of observed findings is the set of excepted and assessed ones, fixed versions included |
| `ScanGate.PassesIff` | infra/ops/validate-runtime-image-scan.py:500-744 | field by field, without keys or dictionaries: every group and record in order, nothing declared twice, one report in order for each image, no contradiction about a fixed version, and the same id, severity, package, installed and fixed version declared for an image as listed in its report, both ways |
| `ScanGate.SameFindingIff` | infra/ops/validate-runtime-image-scan.py:592-604 | two entries are one finding exactly when image, id, severity, package, installed and fixed version agree |
| `ScanGate.WindowIsRefusedIff` | infra/ops/validate-runtime-image-scan.py:150-161 | a window is refused exactly when it has not begun, has ended, ends within the minimum of days, or is longer than the maximum |
| `ScanGate.ValidatePolicy` | infra/ops/validate-runtime-image-scan.py:500-580 | succeeds exactly when every group and record is in order and no finding is declared twice, within or across the two lists; the dictionaries are those findings |
| `ScanGate.AddExceptions` | infra/ops/validate-runtime-image-scan.py:500-540 | the exception loop over groups |
| `ScanGate.AddGroup` | infra/ops/validate-runtime-image-scan.py:530-540 | the exception loop over findings: refuses a critical or repeated one |
| `ScanGate.AddAssessments` | infra/ops/validate-runtime-image-scan.py:545-580 | the loop over VEX records: succeeds exactly when each is in order and none is declared before, as exception or record |
| `ScanGate.ParseScanFindings` | infra/ops/validate-runtime-image-scan.py:607-677 | succeeds exactly when there is one report per image, all in order, and no two observations disagree on a fixed version; the dictionary is what was observed, in whatever order |
| `ScanGate.AddReport` | infra/ops/validate-runtime-image-scan.py:636-676 | the loop over results; a null list is skipped |
| `ScanGate.AddResult` | infra/ops/validate-runtime-image-scan.py:647-676 | the loop over vulnerabilities |
| `ScanGate.ValidateScan` | infra/ops/validate-runtime-image-scan.py:721-744 | reports every difference between the dictionaries, and only differences |
| `ScanGate.NothingFailsIff` | infra/ops/validate-runtime-image-scan.py:727-744 | nothing is reported exactly when the observed dictionary is the union of the declared ones |
| `ScanGate.UnionIsCovered` | infra/ops/validate-runtime-image-scan.py:576-578 | that union is the set of declared findings |
| `ScanGate.CriticalNeedsAssessment` | infra/ops/validate-runtime-image-scan.py:535-538 | a critical finding passes only under a VEX record, never under an exception |
| `ScanGate.DeclaredOnce` | infra/ops/validate-runtime-image-scan.py:539-577 | each observed finding is accounted for by exactly one declaration, and every declaration by an observation |
| `ScanGate.GateIgnoresOrder` | infra/ops/validate-runtime-image-scan.py:638-647 | reports that list the same vulnerabilities pass or fail alike: in whatever order, split into whatever results, with null lists between, and however often each is repeated |
| `SearchTokens.TokenCache.GetSearchTokens` | clients/web/src/composables/usePinyinSearch.ts:38-59 | the cached keys follow the history of names; the answer was computed for a name with the same key, and for this name when the key was not cached |
| `SearchTokens.CacheIsNewest` | clients/web/src/composables/usePinyinSearch.ts:40-57 | over any run the cached keys are exactly the most recently used, oldest first, as many as there is room for: five hundred, or the longest stretch of different keys that ever followed a blank name, that name included |
| `SearchTokens.CachedIff` | clients/web/src/composables/usePinyinSearch.ts:40-57 | a key is cached if and only if it was used and fewer keys than there is room for have been used since |
| `SearchTokens.CacheIsBoundedIff` | clients/web/src/composables/usePinyinSearch.ts:52-57 | the cache is within five hundred if and only if five hundred keys have at no moment followed a blank name; past that it never shrinks again |
| `SearchTokens.CacheHasNoBound` | clients/web/src/composables/usePinyinSearch.ts:53-56 | for every number there is a run after which the cache holds more: one blank name and that many others |
| `SearchTokens.ReachIsGreatest` | clients/web/src/composables/usePinyinSearch.ts:53-56 | no stretch of keys behind a blank name was longer than the room counts |
| `SearchTokens.NoBlankIsRecent` | clients/web/src/composables/usePinyinSearch.ts:54 | a caller without blank names is safe |
| `SearchTokens.RecencySplits` | clients/web/src/composables/usePinyinSearch.ts:42-43 | a key stands in recency order before exactly the keys used since |
| `SearchTokens.SinceMeans` | clients/web/src/composables/usePinyinSearch.ts:42-43 | those are the keys used at some position with no use of the first there or behind |
| `Subsequence.IsSubsequence` | clients/web/src/composables/usePinyinSearch.ts:27-36 | true if and only if the query is not empty and embeds, strictly increasing, in the target's single-unit characters |
| `Subsequence.SinglesOfBmp` | clients/web/src/composables/usePinyinSearch.ts:29 | for a target without surrogate pairs these are all its characters |
| `Subsequence.SinglesAreUnpaired` | clients/web/src/composables/usePinyinSearch.ts:29 | what is dropped of a target is exactly the halves of surrogate pairs |
| `Subsequence.AstralNeverMatches` | clients/web/src/composables/usePinyinSearch.ts:29-30 | a character outside the basic plane is not found even in itself |
| `Subsequence.GreedyHit` | clients/web/src/composables/usePinyinSearch.ts:30-31 | taking a unit at the first chance loses no embedding |
| `Subsequence.GreedyMiss` | clients/web/src/composables/usePinyinSearch.ts:29-34 | a unit that is not the next one cannot help |
| `TtlCache.GetIsLatestFresh` | clients/web/src/stores/courseReview.ts:38-67 | with a clock that never goes back, get returns exactly the latest set of its key that is not older than five minutes and not invalidated since |
| `TtlCache.GetIsNeverStale` | clients/web/src/stores/courseReview.ts:47-51 | with any clock, what get returns is the latest set and not too old |
| `TtlCache.FreshMeans` | clients/web/src/stores/courseReview.ts:40 | fresh is: at most five minutes old |
| `TtlCache.DecimalMeans` | clients/web/src/stores/courseReview.ts:208 | the text of a department id is its decimal digits without a leading zero |
| `TtlCache.CacheIsLatest` | clients/web/src/stores/courseReview.ts:38-73 | with any clock, the map holds a key exactly while its latest set has survived every prune and invalidation since |
| `TtlCache.YoungSurvives` | clients/web/src/stores/courseReview.ts:38-44 | a young entry has survived every prune |
| `TtlCache.InvalidationIsExactIff` | clients/web/src/stores/courseReview.ts:206-212 | invalidating a department drops its entry and no other if and only if no other cached key starts with the digits of its id |
| `TtlCache.DepartmentOneDropsTen` | clients/web/src/stores/courseReview.ts:206-212 | department 1 takes department 10 along |
| `TtlCache.CacheStore.PruneExpired` | clients/web/src/stores/courseReview.ts:38-44 | the loop drops exactly the expired entries |
| `TtlCache.CacheStore.GetEntry` | clients/web/src/stores/courseReview.ts:47-51 | never a stale entry; and while the clock does not go back, exactly the latest set of the key, if that is fresh and not invalidated |
| `TtlCache.CacheStore.SetEntry` | clients/web/src/stores/courseReview.ts:52-55 | from now on the entry, stamped by the second reading, is the latest set of its key and of no other; of the others, those expired at the first reading are gone |
| `TtlCache.CacheStore.InvalidateKeys` | clients/web/src/stores/courseReview.ts:57-67 | drops exactly the keys with the prefix, all of them for the empty prefix; no set before counts for them any more |

## Left out

- `validate_document`'s name, image, prefix and recovery-evidence patterns: one predicate, `detailOk`, stands for them.
- File ownership, modes, sizes, symbolic links and fsync in the activation script: assumed to succeed; link, unlink and replace are atomic, and a crash falls between two calls.
- ActivationPublish.Step: a load reads the directory in one step with one clock reading; records are immutable once linked, so only files that appear or vanish during the scan are not modelled.
- ActivationReach.ReachableDisks: each publisher makes one publication; a process that publishes again is another publisher.
- ActivationPublish.StateDirectory.Publish: the temporary names are parameters, constrained as mkstemp chooses them.
- The activation commands `validate` and `validate-chain`: `load_chain` with another argument list.
- PostgreSQL itself: statement effects, rollback and constraint checking are given; sequence gaps after a rollback and the keys to sources and import jobs are not modelled.
- AcademicTables.Item: whether dates and numbers can be read as their columns' types is one flag per row; attributes are taken in the form the column keeps them in.
- AcademicTables.Upsert: all tables draw surrogate keys from one counter; only their freshness is used.
- AcademicRefinement.InsertSlotsAt: schedule rows are multisets per offering; their own row ids are not modelled.
- AcademicImport.ExternalIds: one method for the four identical list builders.
- NotificationConnection.Store.OnMessage: what a valid message does to the lists and counters of the store is left out, as are the error texts.
- NotificationConnection.Store.StartPolling: the length of the polling interval is not modelled; a tick may come at any time.
- ActivationPublish.NewDocument: the recovery evidence is one JSON value, built by the caller from the four arguments.
- NotificationConnection.Next: closed sources and cleared timers are taken to fire nothing.
- SessionClient.Client.InvokeClientMethod: turning an error answer into an exception is left out; callers get the answer it is built from. `JSON.stringify` of the options is taken as given in `init`.
- SessionClient.Next: a transport whose `refresh` throws before it returns a promise is not modelled.
- `normalizeSchemaPath`, `appendQuery` and the header helpers: easy members.
- `normalizeState` and the SSO state functions: the same shape as the redirect, with a fixed pattern.
- ConnectorRunner.RunPollWorker: cancellation ends the list of polls; what a delivery triggers is in the breaker's machine.
- `handleRosterSync` and `handleInteractive`: which result code is delivered is left out; their records, begins and ends are events of the breaker's machine. LDAP, Oracle and encryption are not modelled.
- ScanGate.ValidatePolicy: owners, rationales, mitigations, evidence and the checks of the image list are one flag each; texts arrive stripped.
- ScanGate.ParseScanFindings: JSON reading, the schema version and the artifact name of a report are one flag; `FixedVersion` arrives as text.
- `getSearchTokens`: pinyin conversion, trimming and lower-casing are parameters.
- TtlCache.GetIsLatestFresh: needs a clock that does not go back; `GetIsNeverStale` and `CacheIsLatest` hold for any.
- `deptRequestID` and `courseRequestID`: reset reuses ids, so that the last selection wins is not a property of the code.
- Vue reactivity, the HTTP layer, authorization, admission and review services.
