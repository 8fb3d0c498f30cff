# A verified model of the canonical registry

The repository keeps a teacher's canonical academic records as files in a workspace: publication
records and withdrawals, academic-period calendars, Academic Work Registrations, grouping signals and
class rosters. Several processes may write at once, any of them may crash between two file operations,
and a cleanup may fail silently. From these files it derives an SQLite catalog and an audit report.
This project models the protocols that change the files, the validators and audits that read them and
the catalog computed from them, and proves what they promise.

Check everything with `dafny verify dfyconfig.toml` (Dafny 4.11).

## How it is organised

- **Publications.** `PublicationRecords` (one series is one chain), `PublicationAdmission` (what a writer
  accepts next), `PublicationProtocol` (publishers, withdrawers and listers as step machines over files and
  locks, with crashes and failed cleanups), `PublicationHistory` (what whole runs guarantee),
  `PublicationStore` (the writers as methods over a workspace object, each shown to be a run of the
  machine), `PublicationServices` (replay, id allocation, clock), `PublicationOutcomes` (what the services
  may answer), `PublicationRequests` and `PublicationWithdrawals` (whole requests, from reading to answer),
  `PublicationListings` (unlocked listings among writers), `PublicationRuns`, `PublicationRaces` and
  `PublicationIdReuse` (concrete runs).
- **Revision stores.** `RevisionStore`, `RevisionHistory` and `RevisionDirectory` model the compare-and-swap
  store once, for any record type and transition relation; `RegistrationServices` and
  `AcademicPeriodStorage` instantiate it; `RegistrationRequests` follows whole requests;
  `RegistrationConflicts` is a concrete run. `AcademicWorkRegistrations` is the canonical order of source
  records.
- **Grouping signals.** `SignalStore`, `SignalRepeats`, `SignalUniqueness` and `SignalDirectory` are the
  lock-free two-file commit; `GroupingSignals`, `SignalCsvText`, `SignalCsv` and `SignalCsvRoundTrip` the
  signal set and its CSV form; `SignalDiagnostics` the roster diagnostics.
- **Academic periods.** `AcademicPeriods` (hierarchy validation), `AcademicPeriodQueries` (tree queries).
- **Audit and catalog.** `CanonicalHistories`, `CanonicalListings`, `CanonicalPublications` and
  `RegistryAudit` put the audit's scans beside the catalog's projection of the same files;
  `ReachableRegistry` says what either can find in a state the writers reach. `CatalogTables`,
  `CatalogReadBack`, `CatalogVerification`, `CatalogRebuild`, `CatalogQueries` and `CatalogDiscovery` insert
  a projection, read it back, verify it and query it. `UtcText`, `Decimals` and `SnapshotEncoding` are the
  texts involved.
- **Rosters.** `Rosters` (row validation, writing and loading), `RosterImports` (preview), `RosterCommits`
  (guarded commits among competing writers).
- `Foundations` and `Tables` hold what all of these share.

Code that updates state in place is a class whose methods carry their new state in their contracts;
code that loops is a method proved against a specification function; pure code is functions and lemmas.
Concurrency is a step machine: one event is one file operation of one process, a crash, or the removal of
a dead process's lock, and a theorem about `Run` holds for every interleaving.

## What is assumed

- SHA-256 does not collide on the data seen: a digest stands for the bytes it was computed from.
- Exclusive creation, unlinking and `os.replace` are atomic; the content of a file being written is not.
- A lock is cleared by hand only when its holder no longer runs (`README.md:535-538` of the repository).
- A publication id is only ever used for one series. `PublicationIdReuse.ReuseOrphansAWithdrawal` shows
  that the claim about withdrawals is false without this. Where a result also needs ids to come from a fresh
  supply, so that none is given to two publishers, it says so; `PublicationIdReuse.ReuseInsideASeriesFailsAListing`
  shows that the exactness of unlocked listings is false without that.
- Python's `csv` writer followed by its reader gives back the same header and cells. This needs every cell to
  stay within the reader's limit of 131072 characters, which neither signal sets nor rosters enforce: a longer
  field is written and then refused.
- Text has no lone surrogates, so that it can be encoded as UTF-8.
- Directory listings name each entry once, in any order.

## What the proofs found

- Reusing one publication id in two series can leave a withdrawal without its publication: the two
  series have different locks, so a rollback under one removes a record the other's withdrawer has
  already located.
- A replayed publish can fail with no fault and no crash: the listing loads the whole collection, so a
  record that another series is just then writing makes it an integrity error
  (`PublicationRaces.ReplayFailsWithoutAnyFault`). `PublicationServices.ReplayInQuietWorkspace` and
  `PublicationListings.ReplaySucceedsExactly` give the exact conditions alone and among writers.
- A publication stored for good can be answered by a plain integrity failure, when a withdrawal of it is being
  written while its own service reads it back (`PublicationRaces.PublishedButAnsweredWithFailure`).
- A registration stored and current can be answered by a plain write failure: after a conflict the service
  reads the current registration unguarded, and a fault of that read becomes the answer
  (`RegistrationConflicts.ConflictReadFaultHidesTheRevision`). A plain write failure can be untrue in this case only.
- A withdrawal can be refused for a time the service itself chose, but only if the record it had read was not
  yet verified by its publisher, was rolled back, and was published again under the same id
  (`PublicationRaces.UnsettledRecordBlocksItsWithdrawal`).
- A valid roster whose first header begins with U+FEFF is written without a signature and read with one
  dropped: a guarded commit of it succeeds, and the file then holds another roster or none
  (`Rosters.MarkedRosterIsAnother`, `Rosters.MarkedRosterIsRefused`).
- A record whose own time cannot be written in UTC, such as 0001-01-01T00:00:00+05:00, is accepted everywhere,
  but the services convert it before they compare it with the clock: such a registration can never be updated,
  and such a publication can be neither superseded nor withdrawn (`RegistrationConflicts.EarlyRegistrationIsStuck`,
  `PublicationRaces.EarlyPublicationIsStuck`).
- Accepted records may carry integers beyond 64 bits, or times outside the years 1 to 9999 of UTC, that no
  validator or audit refuses and the catalog cannot hold; the rebuild then ends in an overflow error it does
  not handle, and so does a query with such a parameter (`CatalogRebuild.LargeRevisionIsNotStorable`,
  `CatalogRebuild.EarlyTimeIsNotStorable`, `CatalogQueries.AskCatalog`).
- Two different contents of one grouping signal can both be reported as successful, but only after a fault
  between the sidecar becoming visible and the writer's own verification
  (`SignalUniqueness.OneLateFaultAllowsTwoContents`); without such a fault there is one content for ever.
- In an audit without filters, the attempt to load a referenced registration directly from disk never finds
  one the registration scan has not already read (`RegistryAudit.OnDiskIsRegistered`).
- The check of who made a file, before a failed fill of a grouping signal is undone, never finds another's file
  (`SignalRepeats.OwnFilesAreUndone`).
- The series validator's head-count, cycle and disconnected checks can never be the ones to fail.
- An orphan revision left by a crash blocks every later write of that store until somebody removes it.

## Model

| member | source | states |
|---|---|---|
| `PublicationRecords.LocallyValidIffChain` | pds_core/publication_records.py:397-476 | the pairwise conditions the validator checks hold exactly when the records can be ordered as one root followed by valid successors |
| `PublicationRecords.ValidatePublicationRecordSeries` | pds_core/publication_records.py:397-476 | accepts a set exactly when it is empty or forms one chain; the result is that chain, its last record the only head; every rejection names a defect that is there; the last three checks are unreachable |
| `PublicationRecords.IndexRecords` | pds_core/publication_records.py:420-435 | indexes the records by id, or reports a repeated id or revision that is there |
| `PublicationRecords.LinkSuccessors` | pds_core/publication_records.py:441-456 | maps each record to its one successor, or reports a real missing predecessor, branch or invalid supersession |
| `PublicationRecords.WalkSeries` | pds_core/publication_records.py:462-475 | the walk from the root visits every record once, so neither cycle nor disconnection can be found |
| `PublicationRecords.ChainOrderIsRevisionOrder` | pds_core/publication_records.py:476 | sorting by record-set revision yields the only order in which the records are a chain |
| `PublicationRecords.HeadOfChain` | pds_core/publication_records.py:457-461 | however a chain is listed, exactly its last record is superseded by none |
| `PublicationRecords.ChainPrefix` | pds_core/publication_records.py:362-394 | a chain made of records of another chain is a prefix of it: supersession leaves no room to branch or insert |
| `PublicationAdmission.AdmittedIffContinues` | pds_core/publication_storage.py:386-412 | the checks a writer repeats under the lock admit a record exactly when it continues the series' chain, whatever order the series was listed in |
| `PublicationAdmission.AdmissionExactly` | pds_core/publication_storage.py:386-412 | which of the refusals a writer meets, or none, said of the fields of the record and of the chain: a repeated revision, a contradictory one, a predecessor where there is nothing, another predecessor than the head, an unfit successor |
| `PublicationProtocol.InvariantOverRuns` | pds_core/publication_storage.py:352-486 | every interleaving of publishers, withdrawers and listers, with crashes, faults and failed cleanups, keeps each series one chain, every file under its own id and no withdrawal without its record |
| `PublicationHistory.PublicationsStaySound` | pds_core/publication_storage.py:352-486 | in every reachable state each series, however listed, passes the validator; no logical revision is bound twice; no withdrawal outlives its publication |
| `PublicationHistory.SettledForever` | pds_core/publication_storage.py:632-648 | a record no live writer can still undo is never removed or replaced |
| `PublicationHistory.WrittenIsForever` | pds_core/publication_storage.py:352-432 | a record whose writer reported success is stored for good |
| `PublicationHistory.WithdrawnIsForever` | pds_core/publication_storage.py:435-486 | a withdrawal whose writer reported success is stored for good |
| `PublicationHistory.HistoryOnlyGrows` | pds_core/publication_storage.py:352-432 | between completed writes the later chain of a series extends the earlier one |
| `PublicationHistory.CurrentNeverGoesBack` | pds_core/publication_storage.py:317-349 | the current publication moves only to higher revisions; one superseded or withdrawn is never current again |
| `PublicationHistory.PublishedReferencesStand` | pds_core/publication_storage.py:489-530 | every stored academic publication refers to a registration revision that was selected and not cancelled when it was checked, although the registration may move before the write |
| `PublicationStore.Workspace.ListRecordSet` | pds_core/publication_storage.py:292-314 | lists exactly the series' records, or fails; without faults it fails exactly when some file in the collection is unreadable; a reader answers a read error only for a fault of its own |
| `PublicationStore.Workspace.WritePublicationRecord` | pds_core/publication_storage.py:352-432 | is a run of the publisher's machine; without faults it succeeds exactly when the manifest has the recorded digest, an academic record names the registration that is current for its work and not cancelled, the id is unused, the series unlocked, every file readable and the record the chain's next; which outcome every other case has; the record is all it changes, and only on success |
| `PublicationStore.Workspace.WritePublicationWithdrawal` | pds_core/publication_storage.py:435-486 | is a run of the withdrawer's machine; without faults it succeeds exactly when the publication loads and is not younger than its withdrawal, no withdrawal file exists and the series is unlocked; which outcome every other case has |
| `PublicationStore.Workspace.LocatePublication` | pds_core/publication_storage.py:439-447 | finds the series to lock exactly when the publication loads and the withdrawal is valid for it; a record that does not load is a read error, an unfit withdrawal a write error |
| `PublicationServices.ReplayIsFound` | pds_core/registry_services.py:867-892 | in a valid series, the record a request would recreate is what reconciliation returns |
| `PublicationServices.ReplayIsReal` | pds_core/registry_services.py:867-892 | what reconciliation returns was listed and matches the request; no match means no listed record has its logical key |
| `PublicationServices.ListingSeesSettled` | pds_core/publication_storage.py:292-314 | an unlocked listing made while others write contains every record settled before it began |
| `PublicationServices.ReplayNeverCreates` | pds_core/registry_services.py:307-361 | once a publish or supersede has succeeded, its repeat with unchanged bytes at any later time never creates anything, and returns the same record with its withdrawal if its listing succeeds; a listing that fails is a write failure for a file that cannot be opened and an integrity failure otherwise |
| `PublicationServices.ReplayInQuietWorkspace` | pds_core/registry_services.py:867-892 | with nobody else writing and no fault, a replay returns the existing record exactly when every file loads and its withdrawal file, if any, is complete |
| `PublicationServices.ClockNeverBlocksCreation` | pds_core/registry_services.py:924-966 | whatever the clock says, the service gives its record a time exactly when the clock's and the head's can be written in UTC, and what it then builds passes the writer's checks as long as the series still ends where the service saw it end |
| `PublicationServices.DecisionExactly` | pds_core/registry_services.py:307-361 | what a service decides from any listing of its series: a revision that is there is replayed if it is the record asked for, field by field, and contradicts otherwise; any other request is created exactly when it is the first without a predecessor, or names the last record and has a higher revision, no earlier than that record; which failure every other case has |
| `PublicationServices.ReconcileAfterError` | pds_core/registry_services.py:969-1036 | after a failed write reads the manifest and the series again; reports an existing record only if it is stored and is the request's own, and reports it whenever it is there and everything can be read; with everything readable and the revision absent it is the writer's own failure, or another id exactly when a conflict met an id that is taken |
| `PublicationServices.AttemptCreation` | pds_core/registry_services.py:960-1065 | one turn of the allocation loop: creates exactly the candidate; answers partial success exactly when the candidate is stored and one of its own reads failed; without faults the answer is given in full |
| `PublicationServices.CreatePublication` | pds_core/registry_services.py:924-1065 | overflows, before writing, exactly when its time cannot be written in UTC; otherwise creates, under one of the generated ids that was unused, a record with every field as requested, the given digest and predecessor and the later of clock and floor, and nothing else; without faults under the first unused id, with the answer given in full; gives up with a conflict when all eight are taken |
| `PublicationRequests.RegistrationDecides` | pds_core/publication_storage.py:489-530 | over runs: an intervention passes both registration checks; an academic record passes them exactly when its registration is the one last selected for its work and that one is not cancelled, whatever else its lifecycle; otherwise it ends in a conflict |
| `PublicationRequests.RefusalExactly` | pds_core/registry_services.py:907-921 | before creating, a service refuses with a write failure exactly when an academic request cannot read the current registration, and with a conflict exactly when the request does not name the current one of its work or that one is cancelled |
| `PublicationRequests.PublishManifest` | pds_core/registry_services.py:307-361 | a whole publish or supersede request: without faults and with nobody else at work it answers, for every state of manifests, registrations, locks and files, exactly what is listed case by case, and leaves exactly the requested record or nothing |
| `PublicationOutcomes.LookupExactly` | pds_core/registry_services.py:447-472 | what looking up a settled record's withdrawal finds, fault by fault, while others write |
| `PublicationOutcomes.PublishOutcomeExactly` | pds_core/registry_services.py:1037-1065 | once the writer has succeeded the record is stored for good; the answer is partial success exactly when one of the service's reads failed, otherwise creation, or an integrity failure exactly when somebody is just then writing a withdrawal of it |
| `PublicationOutcomes.ListedWereThere` | pds_core/publication_storage.py:292-314 | whatever an unlocked listing returns was stored at some time while it ran |
| `PublicationOutcomes.FailedPublishIsReconciled` | pds_core/registry_services.py:969-1036 | over runs: a failed publish is never answered by creation or partial success; an existing record answered was stored meanwhile and is the request's own; a candidate settled despite the failure is answered exactly when everything can be read, and is never answered by a conflict or followed by a second attempt |
| `PublicationOutcomes.UnreconciledExactly` | pds_core/registry_services.py:969-1036 | what a failed publish is answered with when there is nothing to reconcile with, among concurrent writers: every fault, changed manifest, failed listing, contradictory record and taken id has its answer |
| `PublicationOutcomes.WithdrawOutcomeExactly` | pds_core/registry_services.py:411-427 | once the withdrawer has succeeded the withdrawal is stored for good; the answer is the withdrawal with clean reads and partial success without, never a failure |
| `PublicationOutcomes.FailedWithdrawalIsReconciled` | pds_core/registry_services.py:1098-1130 | over runs: a withdrawal answered as existing is stored with the request's reason; one settled despite the failure is answered exactly when the reads meet no fault |
| `PublicationOutcomes.UnreconciledWithdrawalExactly` | pds_core/registry_services.py:391-424 | over runs with clean reads: after a failed withdrawal of a settled record, the writer's own failure when there is no withdrawal, a conflict for one with another reason, and that withdrawal for the same reason |
| `PublicationOutcomes.WithdrawReplays` | pds_core/registry_services.py:364-381 | the same request repeated later finds the stored withdrawal; another reason is a conflict |
| `PublicationOutcomes.ClockNeverBlocksWithdrawal` | pds_core/registry_services.py:382-389 | over runs: the service builds its withdrawal exactly when the clock's time and the record's can be written in UTC; at any later time it is valid for what is stored exactly when a record loads under the id that was not published after it; for a record that was settled when read it always is |
| `PublicationWithdrawals.PreparesExactly` | pds_core/registry_services.py:364-391 | over runs with clean reads, for a settled record: without a withdrawal the service goes to its writer with the record's id, the requested reason and the later of clock and publication time, and stops only where one of the two cannot be written in UTC |
| `PublicationWithdrawals.PreparesInFull` | pds_core/registry_services.py:364-391 | every branch before the writer, for any files and any faults of the three reads |
| `PublicationWithdrawals.AttachesInFull` | pds_core/registry_services.py:883-892 | which withdrawal, or which failure, a replayed record is answered with, for any files and any faults of the two reads |
| `PublicationWithdrawals.ConfirmsInFull` | pds_core/registry_services.py:410-424 | every branch after a completed writer: only the very withdrawal it wrote confirms it, another one is an integrity failure, and anything else leaves it unconfirmed |
| `PublicationWithdrawals.ReconcilesInFull` | pds_core/registry_services.py:1098-1130 | every branch after a failed writer, for any files and any faults of the three reads |
| `PublicationWithdrawals.WithdrawPublication` | pds_core/registry_services.py:364-424 | a whole withdrawal request: without faults and with nobody else at work it answers exactly as the files call for and stores exactly the requested withdrawal or nothing; a success it reports is stored |
| `PublicationOutcomes.SettledWithdrawalIsNeverRefused` | pds_core/publication_storage.py:435-471 | over runs: the withdrawer of a record that was settled when its service read it passes the relationship check before and under its lock, and stops there only for a withdrawal file already present |
| `PublicationListings.ListedFilesStay` | pds_core/publication_storage.py:352-432 | as long as no listed id is given to a second publisher, whatever of a series can still be loaded is what was stored when the names were enumerated, or the one record then being filled |
| `PublicationListings.ListingFailsExactly` | pds_core/publication_storage.py:236-314 | for any interleaving in which no listed id is given to a second publisher: an unlocked listing without faults of its own fails exactly when some file it opened did not load at that moment, and otherwise returns the series as it stood when enumerated, with the record then being filled if there was one |
| `PublicationListings.ReplaySucceedsExactly` | pds_core/registry_services.py:307-361 | the exact condition for a replay among concurrent writers, its own series' included: no file it opened was unreadable at that moment, and no withdrawal of the record is half written |
| `PublicationListings.EndedIsSettledOrGone` | pds_core/publication_storage.py:352-432 | when a publisher has ended, its record is stored for good or, unless the id is given to a second publisher, can never be loaded |
| `PublicationListings.FreshIdIsTriedOnce` | pds_core/registry_services.py:924-1095 | over runs: with ids from a fresh supply an attempt that reached its writer is never followed by another, so one call leaves at most one record |
| `PublicationRaces.ReplayFailsWithoutAnyFault` | pds_core/registry_services.py:307-328 | for any first records of two series, a run from the empty registry, with no fault and no crash, in which a replay fails while the other series is being published |
| `PublicationRaces.PublishedButAnsweredWithFailure` | pds_core/registry_services.py:1037-1065 | for any first record and withdrawal of it, a run with no fault and no crash in which the stored publication is answered by an integrity failure |
| `PublicationRaces.UnsettledRecordBlocksItsWithdrawal` | pds_core/registry_services.py:382-389 | for any two first records of one series and id, the second later, a run in which a withdrawal built from the first, not yet verified, is refused for its time |
| `PublicationRaces.EarlyPublicationIsStuck` | pds_core/registry_services.py:501-506 | a record with a time outside the UTC calendar can be published by a run without faults, and then neither withdrawn nor superseded, whatever the clock says |
| `PublicationIdReuse.ReuseOrphansAWithdrawal` | pds_core/publication_storage.py:435-486 | for any two first records of different series with one id, a run from the empty registry that ends with a withdrawal whose publication is gone |
| `PublicationIdReuse.ReuseInsideASeriesFailsAListing` | pds_core/publication_storage.py:236-314 | for any three records that give one id twice inside a series, a run in which an unlocked listing fails although its operations succeed and every file it opens loads |
| `RevisionStore.InvariantOverRuns` | pds_core/academic_work_registration_storage.py:212-298 | every interleaving of writers and readers, with crashes and failed cleanups, keeps pointer, revisions and history in agreement |
| `RevisionStore.ApprovedFits` | pds_core/academic_work_registration_storage.py:315-356 | a write state that passes validation lets the candidate extend what is selected, with nothing stored beyond the pointer |
| `RevisionStore.HistoryRises` | pds_core/academic_work_registrations.py:202-229 | selected revisions carry strictly rising numbers |
| `RevisionHistory.StoreStaysSound` | pds_core/academic_work_registration_storage.py:212-414 | in every reachable state the current revision number, if set, is that of a stored revision, at most one revision lies beyond it, and any two selected revisions satisfy the transition |
| `RevisionHistory.AnyTwoSelected` | pds_core/academic_work_registrations.py:202-229 | not only neighbours but any two selected revisions satisfy the transition |
| `RevisionHistory.OrphanBlocksWrites` | pds_core/academic_work_registration_storage.py:315-356 | while an orphan revision exists every write fails and the store does not change |
| `RevisionHistory.PointerMovesByExpectation` | pds_core/academic_work_registration_storage.py:382-414 | only a writer that expected the current pointer moves it, and to its own candidate |
| `RevisionHistory.HistoryOnlyGrows` | pds_core/academic_work_registration_storage.py:382-414 | the sequence of selected revisions is only ever extended |
| `RevisionHistory.SelectedStaysStored` | pds_core/academic_work_registration_storage.py:359-379 | no lost update: a revision once selected stays stored, unchanged |
| `RevisionHistory.ReadsAreNeverTorn` | pds_core/academic_work_registration_storage.py:115-143 | an unlocked read between which others write never reports a torn store and only returns a revision that was selected |
| `RevisionHistory.ReadsAreCurrentOnce` | pds_core/academic_work_registration_storage.py:115-143 | an unlocked read answers with what was selected at one moment while it ran, and fails only if one of its own steps met a fault |
| `RevisionDirectory.Directory.ValidateWriteState` | pds_core/academic_work_registration_storage.py:315-356 | as a method over the directory, the refusals the writer raises |
| `RevisionDirectory.VerdictExactly` | pds_core/academic_work_registration_storage.py:315-356 | the checks under the lock accept exactly a candidate that follows the expected, selected revision with its number free and nothing beyond, and refuse any other for exactly one reason, said of the stored files |
| `RevisionDirectory.Directory.Write` | pds_core/academic_work_registration_storage.py:212-298 | is a run of the machine; without faults its outcome is given for every state of revisions, pointer and lock: success exactly for the next revision over a readable store with nothing beyond the pointer; on success exactly the candidate is added and selected, otherwise nothing |
| `RegistrationServices.RegistrationRulesHold` | pds_core/academic_work_registrations.py:202-229 | the registration transition raises the revision and is transitive, so the generic store applies |
| `RegistrationServices.ReportsAreTruthful` | pds_core/registry_services.py:612-739 | under any interleaving and read faults: done only if the candidate was seen selected, existing only if the selected metadata equals the request and nothing was added, partial success only if the candidate is stored, a conflict only if its number is free or another registration holds it |
| `RegistrationServices.WriteFailureExactly` | pds_core/registry_services.py:612-739 | a plain write failure is reported exactly after a failed write whose revision is found free, and after a conflict whose reconciling read met a fault; outside that conflict it is true |
| `RegistrationServices.UnreadConflictIsTaken` | pds_core/registry_services.py:612-739 | over runs of services: the write failure reported after such a conflict is untrue whenever the pointer has moved past the expected revision: the number it tried is stored |
| `RegistrationServices.PartialSuccessExactly` | pds_core/registry_services.py:612-739 | over runs with clean reads: partial success exactly when the candidate is stored and was not confirmed as current, and a stored candidate is never answered by a plain failure |
| `RegistrationConflicts.SelectsRevision` | pds_core/academic_work_registration_storage.py:212-298 | alone, a writer whose write state is valid creates and selects its revision |
| `RegistrationConflicts.ConflictReadFaultHidesTheRevision` | pds_core/registry_services.py:612-660 | for every registration and change request, a run after which the service answers a plain write failure although the registration it built is stored and current |
| `RegistrationConflicts.EarlyRegistrationIsStuck` | pds_core/registry_services.py:267-304 | a registration with a time outside the UTC calendar can be stored and selected, and then never updated, whatever is requested and whatever the clock says |
| `RegistrationServices.ClockNeverBlocksUpdate` | pds_core/registry_services.py:267-304 | however the clock behaves, an update builds its candidate exactly when the clock's time and the registration's own can be written in UTC, and against an unmoved pointer it is then refused only for an unreadable store or a revision beyond the pointer |
| `RegistrationRequests.BuildsAsRequested` | pds_core/registry_services.py:293-296 | an update builds exactly the requested metadata under the next number, with the creation time kept and the later of clock and update time, whenever both can be written in UTC |
| `RegistrationRequests.RegistersExactly` | pds_core/registry_services.py:244-264 | over runs: a first registration is answered with the selected one if that says the same, refused for another or for unselected revisions, and otherwise goes to its writer with what the request asks for |
| `RegistrationRequests.UpdatesExactly` | pds_core/registry_services.py:267-304 | over runs: an update goes to its writer exactly when the expected revision is selected, the request changes something, every revision file is complete, the next number free and both times representable; which answer every other case has |
| `RegistrationRequests.DoneIsAsRequested` | pds_core/registry_services.py:244-304 | over runs, whatever faults the final reads meet: a request answered as done is selected then, with the requested metadata, continuing what was selected when the request was made |
| `RegistrationRequests.ReportsInFull` | pds_core/registry_services.py:612-739 | every branch after the writer, for any stored revisions and pointers and any faults of the three reads |
| `RegistrationRequests.FaultsBeforeTheWriter` | pds_core/registry_services.py:244-304 | a fault of a read the request needs before its writer is a write failure, and a fault of any other makes no difference |
| `RegistrationRequests.SelectedEvolves` | pds_core/academic_work_registrations.py:202-229 | over runs: between any two selected registrations the work and the creation time stay, the update time never falls and the revision rises |
| `RegistrationRequests.RegisterAcademicWork` | pds_core/registry_services.py:244-264 | a whole first registration: without faults and with nobody else at work the answer and the store it leaves are given for every stored state; whatever fails, one reported done is as requested and selected |
| `RegistrationRequests.UpdateRegistration` | pds_core/registry_services.py:267-304 | a whole update, under the same promise |
| `AcademicWorkRegistrations.SourceRecords` | pds_core/academic_work_registrations.py:241-276 | accepts exactly references of the work's module without repetition, and returns them ordered as the tuples of kind, id, presence of a version and version |
| `AcademicWorkRegistrations.SourceOrderDoesNotMatter` | pds_core/academic_work_registrations.py:272-276 | two valid lists have the same canonical tuple exactly when they name the same references |
| `AcademicPeriodStorage.CalendarRulesHold` | pds_core/academic_periods.py:398-445 | the calendar transition raises the revision and is transitive, so the generic store applies |
| `AcademicPeriodStorage.PeriodsNeverVanish` | pds_core/academic_period_storage.py:279-383 | over any run, a period of a selected calendar is in every later selected calendar with the same type |
| `AcademicPeriodStorage.PointerRises` | pds_core/academic_period_storage.py:491-531 | the selected calendar revision never goes back |
| `SignalStore.SuccessIsSomeWritersPair` | pds_core/grouping_signal_storage.py:149-293 | under any interleaving, faults and crashes, an operation succeeds only with bytes some single writer wrote in full to both files |
| `SignalStore.CreatedIsFinal` | pds_core/grouping_signal_storage.py:215-293 | once a write returned created its pair stays, and every later success is for exactly those bytes |
| `SignalStore.AtMostOneCreated` | pds_core/grouping_signal_storage.py:508-524 | at most one write of an identity ever returns created |
| `SignalRepeats.RepeatsAreAnswered` | pds_core/grouping_signal_storage.py:215-293 | over runs: once a pair has been created, every operation then at its start whose own steps work is answered for exactly that pair: the same bytes are confirmed, even after a lost race to create, other bytes refused, and a load returns them |
| `SignalRepeats.OwnFilesAreUndone` | pds_core/grouping_signal_storage.py:527-540 | in every reachable state a failed fill finds its own file there to undo |
| `SignalUniqueness.OneContentEver` | pds_core/grouping_signal_storage.py:215-293 | with no fault after a sidecar is visible, all successes ever are for one content |
| `SignalUniqueness.OneLateFaultAllowsTwoContents` | pds_core/grouping_signal_storage.py:371-390 | a run with one verification fault in which two contents succeed |
| `SignalDirectory.Directory.LoadPair` | pds_core/grouping_signal_storage.py:149-212 | without faults finds exactly the readable pair's bytes; not-found only when neither file exists |
| `SignalDirectory.Directory.LoadSignal` | pds_core/grouping_signal_storage.py:149-212 | a load is a run of the machine; without faults it is not found exactly when neither file exists, the bytes of a readable pair, and otherwise an error; bytes are only ever reported of a readable pair |
| `SignalDirectory.Directory.WriteSignal` | pds_core/grouping_signal_storage.py:215-293 | is a run of the machine; without faults it creates exactly when neither file exists, confirms exactly an equal readable pair, and otherwise changes nothing |
| `AcademicPeriods.WalkUp` | pds_core/academic_periods.py:580-599 | one walk over a shared set of finished periods finds a cycle only if some chain revisits a period, and otherwise leaves only rooted periods behind |
| `AcademicPeriods.ValidateNoCycles` | pds_core/academic_periods.py:580-599 | terminates, and rejects exactly when some parent chain visits a period twice |
| `AcademicPeriods.ValidateHierarchy` | pds_core/academic_periods.py:259-334 | accepts exactly the valid hierarchies and returns their periods in the order of their ids |
| `AcademicPeriods.TransitionExactly` | pds_core/academic_periods.py:398-445 | the calendar transition, said of the two lists: same school year and creation time, a higher revision, no earlier update, and every period still there under its id with its type |
| `AcademicPeriods.OrderDoesNotMatter` | pds_core/academic_periods.py:259-334 | verdict and result do not depend on the order of the input |
| `AcademicPeriods.AncestorsContain` | pds_core/academic_periods.py:314-323 | in an accepted hierarchy every ancestor's dates contain the descendant's |
| `AcademicPeriods.RootedNeverRevisits` | pds_core/academic_periods.py:580-599 | a chain that ends never visits a period twice |
| `AcademicPeriodQueries.NoRevisitReachesRoot` | pds_core/academic_periods.py:580-599 | a chain that never revisits a period reaches a root |
| `AcademicPeriodQueries.AcceptedIsTree` | pds_core/academic_periods.py:259-334 | acceptance gives the forest the queries rely on |
| `AcademicPeriodQueries.ByParent` | pds_core/academic_period_queries.py:159-170 | the dictionary holds, for each parent, its children in sequence order |
| `AcademicPeriodQueries.PreorderPeriods` | pds_core/academic_period_queries.py:173-183 | the stack loop terminates and delivers exactly recursive depth-first preorder |
| `AcademicPeriodQueries.PreorderMembers` | pds_core/academic_period_queries.py:173-183 | the preorder of some siblings holds exactly the periods at or below one of them |
| `AcademicPeriodQueries.PreorderDistinct` | pds_core/academic_period_queries.py:173-183 | the preorder lists no period twice |
| `AcademicPeriodQueries.ListPeriods` | pds_core/academic_period_queries.py:25-31 | display order is a permutation of the calendar's periods |
| `AcademicPeriodQueries.ListAncestors` | pds_core/academic_period_queries.py:76-88 | lists the chain of parents from the immediate one to the root |
| `AcademicPeriodQueries.ListDescendants` | pds_core/academic_period_queries.py:91-99 | lists exactly the periods strictly below, once each, in preorder |
| `AcademicPeriodQueries.AncestorsAndDescendantsAgree` | pds_core/academic_period_queries.py:76-99 | one period is among another's ancestors exactly when the other is among its descendants |
| `AcademicPeriodQueries.ListContainingDate` | pds_core/academic_period_queries.py:130-141 | lists exactly the periods whose dates contain the date, in display order |
| `AcademicPeriodQueries.ContainingDateClosedUnderAncestors` | pds_core/academic_period_queries.py:130-141 | a date inside a period is inside all its ancestors |
| `Decimals.DecimalRoundTrip` | pds_core/grouping_signal_csv.py:574-579 | a written number reads back as itself and has no leading zero |
| `Decimals.DecimalInjective` | pds_core/academic_catalog.py:985-994 | different numbers have different texts |
| `Decimals.PaddedOrder` | pds_core/academic_catalog.py:181-188 | fixed-width text compares like the numbers it stands for |
| `UtcText.MomentOf` | pds_core/academic_catalog.py:181-188 | every representable instant is some valid date and time of day |
| `UtcText.EarlierDate` | pds_core/academic_catalog.py:181-188 | an earlier date has a smaller day number, leap years included |
| `UtcText.YearsInClosedForm` | pds_core/academic_catalog.py:181-188 | the days before a year, counted year by year, are 365 a year and one for every fourth year but for three centuries in four |
| `UtcText.MonthsInClosedForm` | pds_core/academic_catalog.py:181-188 | the days before a month, counted month by month, follow the five-month pattern from March on |
| `UtcText.RepresentableExactly` | pds_core/academic_catalog.py:181-188 | the instants that have a date in UTC are those from day 1 up to day 3652059 |
| `UtcText.StampOrder` | pds_core/academic_catalog.py:181-188 | comparing stored timestamp text is comparing instants, and equal text is the same instant |
| `UtcText.ParseStamp` | pds_core/academic_catalog.py:191-206 | text is read only when it is exactly what is written for some moment, and then as that instant |
| `UtcText.StampRoundTrip` | pds_core/academic_catalog.py:181-206 | a stored instant reads back as itself |
| `UtcText.ServiceTime` | pds_core/registry_services.py:494-506 | the later of the clock and the floor, given exactly when both can be written in UTC |
| `SnapshotEncoding.Snapshot` | pds_core/academic_catalog.py:985-994 | the digest updates feed exactly the specified byte stream, the sources in the order of their paths |
| `SnapshotEncoding.StreamDeterminesInventory` | pds_core/academic_catalog.py:985-994 | two inventories feed the same stream exactly when they are the same sources in some order |
| `SnapshotEncoding.FirstDelimiter` | pds_core/academic_catalog.py:985-994 | text before the first delimiter is determined by the whole |
| `CanonicalHistories.ScanArtifacts` | pds_core/registry_audit.py:790-801 | hidden entries are warnings, any other stray entry an error |
| `CanonicalHistories.ScanRevisions` | pds_core/registry_audit.py:802-825 | every unreadable or misnamed revision is an error; the rest are collected in order |
| `CanonicalHistories.ScanTransitions` | pds_core/registry_audit.py:825-830 | a finding exactly when some neighbouring pair is not a transition |
| `CanonicalHistories.ScanPointer` | pds_core/registry_audit.py:831-858 | missing, invalid and orphan findings, each exactly under its condition |
| `CanonicalHistories.ScanHistory` | pds_core/registry_audit.py:776-860 | one directory is clean exactly when its history is sound; each finding code appears exactly under its condition |
| `CanonicalHistories.DiscoverHistory` | pds_core/academic_catalog.py:829-949 | discovery fails exactly for stray entries or when pointer and revisions do not come together |
| `CanonicalHistories.ParseRevisions` | pds_core/academic_catalog.py:1048-1065 | succeeds exactly when every revision file is readable under its name |
| `CanonicalHistories.CheckHistory` | pds_core/academic_catalog.py:1066-1105 | succeeds exactly when each revision is a transition of the last and the current revision is the latest |
| `CanonicalHistories.LoadHistory` | pds_core/academic_catalog.py:1039-1178 | one directory loads exactly when its history is sound, with the last revision marked current |
| `CanonicalListings.ScanAll` | pds_core/registry_audit.py:776-987 | the listing is clean exactly when every directory's history is sound and nothing is misplaced |
| `CanonicalListings.LoadAll` | pds_core/academic_catalog.py:1039-1178 | the projection loads the same listing exactly when it is sound, directory by directory in key order |
| `CanonicalListings.LoadedRowsAreHistories` | pds_core/academic_catalog.py:1039-1178 | the loaded rows are the scanned records, key by key and revision by revision, each a transition of the last, the last of each key current |
| `CanonicalPublications.ScanCollection` | pds_core/registry_audit.py:990-1007 | clean exactly when every entry loads under its own id; collects exactly those that do |
| `CanonicalPublications.ScanReferences` | pds_core/registry_audit.py:1061-1099 | clean exactly when every academic publication's registration revision was observed or can be loaded |
| `CanonicalPublications.ScanDuplicates` | pds_core/registry_audit.py:1100-1109 | reports duplicates, and only duplicates, exactly when some logical revision is bound twice |
| `CanonicalPublications.ScanSeries` | pds_core/registry_audit.py:1110-1120 | clean exactly when every series forms one chain |
| `CanonicalPublications.ScanWithdrawals` | pds_core/registry_audit.py:1121-1156 | clean exactly when every withdrawal loads and withdraws a valid record |
| `CanonicalPublications.ScanPublications` | pds_core/registry_audit.py:990-1156 | clean exactly when all files load, references stand, series are chains and withdrawals belong to records |
| `CanonicalPublications.CheckRecords` | pds_core/academic_catalog.py:1206-1229 | passes exactly when no logical revision repeats and every reference is registered |
| `CanonicalPublications.CheckSeries` | pds_core/academic_catalog.py:1230-1247 | passes exactly when every series forms one chain, and returns exactly the series heads |
| `CanonicalPublications.CheckWithdrawals` | pds_core/academic_catalog.py:1248-1267 | passes exactly when every withdrawal withdraws a record |
| `CanonicalPublications.LoadPublications` | pds_core/academic_catalog.py:1180-1267 | succeeds under exactly the conditions of the audit's publication scan |
| `CanonicalPublications.HeadsBySeries` | pds_core/academic_catalog.py:1230-1247 | in sound series, heads found series by series are the records nothing at all supersedes |
| `CanonicalPublications.SupersedesInsideSeries` | pds_core/academic_catalog.py:1326-1365 | a supersession never leaves its series, so the self-referencing foreign key can be met |
| `RegistryAudit.OnDiskIsRegistered` | pds_core/registry_audit.py:1061-1099 | every registration revision loadable from disk was already read by the scan |
| `RegistryAudit.Audit` | pds_core/registry_audit.py:1837-1889 | reports no error exactly when the files are acceptable and every registered work has its producer directory |
| `RegistryAudit.LoadProjection` | pds_core/academic_catalog.py:1039-1325 | succeeds exactly when the files are acceptable, and then projects exactly them |
| `RegistryAudit.AuditAgreesWithProjection` | pds_core/registry_audit.py:776-1156 | a default audit is clean exactly when the projection accepts the same files and the producer directories exist |
| `ReachableRegistry.ReachableStoreIsSoundUnlessOrphaned` | pds_core/registry_audit.py:836-860 | in any state the writers reach, each having been given records of the directory's own key, a directory is sound exactly when no revision lies beyond the pointer |
| `ReachableRegistry.RulesAgree` | pds_core/academic_catalog.py:1106-1244 | the audit files and compares calendars and registrations by the very revisions, keys and transitions the writers use |
| `ReachableRegistry.ReachableCollectionsAreSound` | pds_core/registry_audit.py:1100-1156 | in any state the writers reach, readable series are chains and readable withdrawals belong to readable records |
| `CatalogTables.Database.InsertCalendar` | pds_core/academic_catalog.py:1594-1623 | goes through exactly when its integers have 64 bits and its times can be written in UTC; then adds exactly the calendar's row and its period rows |
| `CatalogTables.Database.InsertRegistration` | pds_core/academic_catalog.py:1624-1660 | goes through exactly when its values can be held; then adds exactly the registration's row and its source rows with their positions |
| `CatalogTables.Database.InsertPublication` | pds_core/academic_catalog.py:1661-1699 | goes through exactly when its values can be held; then adds exactly the publication's row with its flags and its capability rows |
| `CatalogTables.Database.InsertProjection` | pds_core/academic_catalog.py:1562-1699 | goes through exactly when every integer and time of the projection can be held, and then fills an empty database with exactly its rows |
| `CatalogReadBack.CalendarReturns` | pds_core/academic_catalog.py:1916-1951 | a calendar read back from its rows is the calendar inserted |
| `CatalogReadBack.RegistrationReturns` | pds_core/academic_catalog.py:2676-2716 | a registration read back from its rows is the one inserted, sources in order |
| `CatalogReadBack.PublicationReturns` | pds_core/academic_catalog.py:2788-2838 | a publication read back from its rows is the one inserted, with its flags |
| `CatalogReadBack.ReadTables` | pds_core/academic_catalog.py:1913-2080 | the ordered reads of tables a projection filled give that projection |
| `CatalogReadBack.InsertThenRead` | pds_core/academic_catalog.py:1562-1699 | inserting an accepted projection and reading all rows back reproduces it, exactly when its values can be held |
| `CatalogVerification.ConstraintsNeverFail` | pds_core/academic_catalog.py:1328-1365 | primary keys, uniqueness, foreign keys and checks of the schema hold for every accepted projection |
| `CatalogVerification.VerifyHistories` | pds_core/academic_catalog.py:1952-2009 | accepts exactly rows whose keys each form a history with only the last current |
| `CatalogVerification.GroupOfHistories` | pds_core/academic_catalog.py:1952-2009 | in loaded histories the rows of one key follow one another, only the last current |
| `CatalogVerification.VerifySeries` | pds_core/academic_catalog.py:2054-2074 | accepts one series' rows exactly when they form a chain and exactly its head is flagged |
| `CatalogVerification.VerifyAllSeries` | pds_core/academic_catalog.py:2010-2074 | accepts exactly when every series verifies |
| `CatalogVerification.VerifySemanticHistories` | pds_core/academic_catalog.py:1913-2080 | accepts exactly tables whose rows are consistent |
| `CatalogVerification.InsertThenVerify` | pds_core/academic_catalog.py:2343-2523 | a rebuild inserts and verifies a projection exactly when its values can be held |
| `CatalogRebuild.AuditThenRebuild` | pds_core/academic_catalog.py:2343-2523 | a rebuild succeeds exactly when the projection accepts the files and every integer and time in them can be held; so after a clean audit exactly when they can be held |
| `CatalogRebuild.StorableExactly` | pds_core/academic_catalog.py:181-188 | what a catalog can hold, in numbers and field by field: integers of 64 bits and times of the years 1 to 9999, in every calendar, period, registration, publication and withdrawal |
| `CatalogRebuild.LargeRevisionIsNotStorable` | pds_core/publication_records.py:651-656 | whatever first intervention record one takes, with record-set revision 2^63 it makes a sound and well-formed registry that cannot be inserted; with 2^63-1 it can |
| `CatalogRebuild.EarlyTimeIsNotStorable` | pds_core/academic_catalog.py:181-188 | the same with a time just before the first instant of UTC, which no validator refuses |
| `CatalogQueries.QueryPublications` | pds_core/academic_catalog.py:2719-2785 | fails with an overflow exactly for a parameter that cannot be bound; otherwise reads exactly the selected rows with their joined columns, or fails on one that cannot be read |
| `CatalogQueries.BindableExactly` | pds_core/academic_catalog.py:2719-2785 | which parameters of a query can be bound, in numbers |
| `CatalogQueries.RowMatchesRecord` | pds_core/academic_catalog.py:2719-2785 | a row meets the WHERE clause, school year included, exactly when its record is what the query asks, instants instead of text |
| `CatalogQueries.AskedIs` | pds_core/academic_catalog.py:2719-2785 | the query's conditions mean, one by one, what they say of the record, its class's school year, the registrations, and the supersessions and withdrawals of it |
| `CatalogQueries.FullAnswerIs` | pds_core/academic_catalog.py:2719-2785 | filtering and sorting give the whole answer: exactly the records asked for, each once, times never rising and ids breaking ties |
| `CatalogQueries.SelectedRowsAre` | pds_core/academic_catalog.py:2719-2785 | the selected rows are those of the matching records, newest first, paged |
| `CatalogQueries.AskCatalog` | pds_core/academic_catalog.py:2719-2785 | a publication query over the tables answers with the page, of min(limit, what is left after the offset) entries, of the one whole answer; the k-th entry describes the record at offset + k: its flags, school year and joined registrations; it fails exactly when a value of the projection or of the query cannot be held |
| `CatalogQueries.PagesOfOneAnswer` | pds_core/academic_catalog.py:2550-2557 | the answer to a paged query is that stretch of the answer to the same query without limit and offset |
| `CatalogQueries.GetCurrentPublicationRecord` | pds_core/publication_storage.py:317-349 | returns the last record of the chain unless it is withdrawn; fails on an invalid series exactly when the records form no chain |
| `CatalogQueries.NarrowedAnswer` | pds_core/academic_catalog.py:2719-2785 | the current query narrowed to one series answers with the current publication or with nothing |
| `CatalogQueries.CurrentInFiles` | pds_core/publication_storage.py:317-349 | the record the writers' protocol calls current is the one the files name |
| `CatalogQueries.CurrentAnswersAgree` | pds_core/academic_catalog.py:2719-2785 | asking the catalog and asking the canonical files give the same current publication |
| `CatalogDiscovery.AskPeriods` | pds_core/academic_catalog.py:2560-2629 | a period query over the tables answers with the page of the whole answer - exactly the periods asked for, by school year, revision, sequence and id - each with its calendar's times; it fails exactly when a value cannot be held |
| `CatalogDiscovery.PagesOfOnePeriodAnswer` | pds_core/academic_catalog.py:2550-2557 | the answer to a paged period query is that stretch of the answer without limit and offset |
| `CatalogDiscovery.SelectedPeriodsAre` | pds_core/academic_catalog.py:2560-2602 | joined and filtered period rows are those of the wanted periods, in the same order |
| `CatalogDiscovery.AskRegistrations` | pds_core/academic_catalog.py:2632-2716 | a registration query answers with the page of the whole answer - exactly the revisions asked for, by school year with unknown years last, class, module, work and revision - sources included; it fails exactly when a value cannot be held |
| `CatalogDiscovery.PagesOfOneRegistrationAnswer` | pds_core/academic_catalog.py:2550-2557 | the answer to a paged registration query is that stretch of the answer without limit and offset |
| `CatalogDiscovery.SelectedRegistrationsAre` | pds_core/academic_catalog.py:2632-2673 | joined and filtered registration rows are those of the wanted revisions, in the same order |
| `GroupingSignals.CheckDimensions` | pds_core/grouping_signals.py:435-461 | accepts exactly valid dimensions with distinct ids |
| `GroupingSignals.CheckStudentBands` | pds_core/grouping_signals.py:464-494 | accepts exactly valid bands, one per student and dimension |
| `GroupingSignals.CheckDeclared` | pds_core/grouping_signals.py:188-216 | accepts exactly when every band lies in a declared dimension and every dimension is used |
| `GroupingSignals.Construct` | pds_core/grouping_signals.py:158-219 | constructs exactly the valid sets, in canonical order |
| `GroupingSignals.OrderedIsCanonical` | pds_core/grouping_signals.py:435-494 | ordering a valid set keeps it valid and changes nothing the second time |
| `SignalCsvText.CrlfRoundTrip` | pds_core/grouping_signal_csv.py:295-315 | CRLF and LF forms of a text are read alike |
| `SignalCsvText.MetadataRoundTrip` | pds_core/grouping_signal_csv.py:357-368 | a written metadata line is read as the binding it was written for |
| `SignalCsvText.MetadataExactly` | pds_core/grouping_signal_csv.py:357-368 | a line is metadata exactly when it is what would be written for a known key and some value |
| `SignalCsvText.OrderOfMetadata` | pds_core/grouping_signal_csv.py:318-354 | the order of metadata lines does not change what they bind |
| `SignalCsvText.SplitMetadata` | pds_core/grouping_signal_csv.py:318-354 | splits exactly the texts whose leading metadata binds every key once, at the header |
| `SignalCsvText.RowRoundTrip` | pds_core/grouping_signal_csv.py:427-480 | a written row is read as itself and needs no quoting |
| `SignalCsvText.RowExactly` | pds_core/grouping_signal_csv.py:427-480 | a line without quotes is a row exactly when it is an identifier and, after one comma, a number in range, leading zeros or not |
| `SignalCsvText.ParseRows` | pds_core/grouping_signal_csv.py:427-480 | succeeds exactly when every record after the header is a valid row, and returns those rows |
| `SignalCsv.IsoRoundTrip` | pds_core/grouping_signal_csv.py:582-595 | a written timestamp reads back as itself |
| `SignalCsv.Export` | pds_core/grouping_signal_csv.py:229-292 | succeeds exactly for a declared dimension, with exactly the document's lines |
| `SignalCsv.Parse` | pds_core/grouping_signal_csv.py:133-156 | succeeds exactly on texts that mean some document, and returns that document |
| `SignalCsv.ParseLines` | pds_core/grouping_signal_csv.py:318-556 | succeeds exactly on lines that read as some document |
| `SignalCsv.ToSignalSet` | pds_core/grouping_signal_csv.py:159-212 | converts exactly when a projection has a new identity, the identity differs and the set is valid |
| `SignalCsv.DescribesItself` | pds_core/grouping_signal_csv.py:371-424 | the metadata an export writes describes the exported document |
| `SignalCsv.DescribeExactly` | pds_core/grouping_signal_csv.py:371-424 | fourteen values describe a document exactly when they are those an export of it writes, but for the forms of time and number |
| `SignalCsv.LinesReadBack` | pds_core/grouping_signal_csv.py:229-354 | exported lines, metadata reordered after the first, read back as their document |
| `SignalCsvRoundTrip.EncodingsAgree` | pds_core/grouping_signal_csv.py:295-315 | byte-order mark and line ends make no difference |
| `SignalCsvRoundTrip.MetadataOrderDoesNotMatter` | pds_core/grouping_signal_csv.py:318-354 | for any text, the order of metadata lines after the first changes nothing |
| `SignalCsvRoundTrip.LastLineEndDoesNotMatter` | pds_core/grouping_signal_csv.py:427-480 | whether the last line of a text is ended makes no difference |
| `SignalCsvRoundTrip.ExportedMeans` | pds_core/grouping_signal_csv.py:133-156 | an exported text, re-encoded and reordered in any allowed way, still means what was exported |
| `SignalCsvRoundTrip.FromCsv` | pds_core/grouping_signal_csv.py:215-226 | parse then convert succeeds exactly under the conversion's conditions |
| `SignalCsvRoundTrip.CompleteRoundTrip` | pds_core/grouping_signal_csv.py:133-226 | a one-dimension set comes back from its CSV as the same set |
| `SignalCsvRoundTrip.ProjectionRoundTrip` | pds_core/grouping_signal_csv.py:159-212 | one dimension of several demands a new identity and then gives exactly that dimension's students and bands |
| `SignalCsvRoundTrip.ExportThenImport` | pds_core/grouping_signal_csv.py:215-292 | the bytes the exporter itself writes come back as the same set |
| `SignalDiagnostics.FindOtherClassMemberships` | pds_core/grouping_signal_diagnostics.py:481-510 | each unmatched student is mapped to exactly the other classes that have them |
| `SignalDiagnostics.DimensionFindings` | pds_core/grouping_signal_diagnostics.py:303-459 | reports exactly the facts of one dimension |
| `SignalDiagnostics.CountDimension` | pds_core/grouping_signal_diagnostics.py:354-459 | the counts pass the report's own checks, and each is the number of students of its kind: banded, matched, missing, unknown, in another class, and in each band |
| `SignalDiagnostics.RosterPartition` | pds_core/grouping_signal_diagnostics.py:174-214 | matched and missing students partition the roster |
| `SignalDiagnostics.AllBandsTotal` | pds_core/grouping_signal_diagnostics.py:174-214 | band counts total the matched students |
| `SignalDiagnostics.Diagnose` | pds_core/grouping_signal_diagnostics.py:298-459 | for every valid set and any valid rosters the report and its findings are accepted by their own constructors, the findings are exactly the facts, and every count is the number of students of its kind |
| `Rosters.ValidateColumns` | pds_core/rosters.py:112-168 | accepts exactly headers that are non-blank, distinct once stripped and complete; every issue is real |
| `Rosters.ReadValues` | pds_core/rosters.py:171-237 | reads a row's stripped values; an issue exactly when a required field is missing |
| `Rosters.StrippedRowsReadAlike` | pds_core/rosters.py:171-237 | rows keyed by the headers as written and by their stripped names are read alike |
| `Rosters.ValidateRow` | pds_core/rosters.py:181-345 | a row passes exactly when its fields are present and filled, identifiers valid, class as before and student new |
| `Rosters.ValidateRosterRows` | pds_core/rosters.py:181-355 | accepts exactly acceptable rows, returns the roster they stand for, and reports only defects that are there |
| `Rosters.ReadingIsValid` | pds_core/rosters.py:181-355 | whatever validation accepts is a valid roster |
| `Rosters.ValidRosterReturns` | pds_core/rosters.py:402-419 | a valid roster's own rows validate back to that roster |
| `Rosters.WrittenRosterLoads` | pds_core/rosters.py:358-526 | what loading a written roster finds: that roster exactly when its first header does not begin with an unquoted U+FEFF, and otherwise nothing or a roster with another column and another token |
| `Rosters.WrittenRosterReads` | pds_core/rosters.py:475-526 | under its own header, the table written for a valid roster reads as that roster |
| `Rosters.MarkedRosterIsRefused` | pds_core/rosters.py:358-526 | a valid roster whose own file cannot be loaded: its first header loses U+FEFF and is then a duplicate |
| `Rosters.MarkedRosterIsAnother` | pds_core/rosters.py:358-526 | a valid roster whose own file loads as another roster |
| `Rosters.LoadRoster` | pds_core/rosters.py:358-399 | loads exactly the tables that stand for a roster, a leading signature of an unquoted first header dropped, blank records skipped and overlong ones refused |
| `Rosters.RowDictReads` | pds_core/rosters.py:358-399 | a record under its header: the last of equal names decides, and missing cells are empty |
| `Rosters.TableDeterminesRoster` | pds_core/roster_imports.py:321-328 | the canonical bytes determine a valid roster |
| `Rosters.ValidateRosterInstance` | pds_core/rosters.py:594-647 | accepts a roster value exactly when its own rows are acceptable and its class and fields agree |
| `Rosters.ValidatedIsValid` | pds_core/rosters.py:594-647 | validation returns valid rosters and leaves exactly those unchanged, so validating twice is validating once |
| `RosterImports.SameTokenSameRoster` | pds_core/roster_imports.py:315-328 | equal state tokens mean the same roster state |
| `RosterImports.SameTokenSameState` | pds_core/roster_imports.py:299-318 | two files that load with the same token hold the same roster state |
| `RosterImports.LoadCurrentState` | pds_core/roster_imports.py:299-312 | no file is a state; an unreadable, invalid or foreign file is none |
| `RosterImports.CompareRosters` | pds_core/roster_imports.py:167-192 | sorts every id of either roster into exactly one of four lists |
| `RosterImports.PlanRosterImport` | pds_core/roster_imports.py:152-206 | succeeds exactly for a valid candidate of the class over a loadable file, and describes both states and the way from one to the other |
| `RosterImports.PreviewPartitions` | pds_core/roster_imports.py:167-192 | the four lists partition the union of student ids |
| `RosterImports.PreviewApplies` | pds_core/roster_imports.py:152-206 | applying the preview to the current roster yields the candidate |
| `RosterCommits.InvariantOverRuns` | pds_core/roster_imports.py:209-281 | every interleaving of guarded commits and plain writes keeps the lock exclusive and every commit's replacement guarded |
| `RosterCommits.CommitReplacesThePlanned` | pds_core/roster_imports.py:209-281 | a commit succeeds only over a file that still holds the planned roster, whatever was written in between; what it wrote holds the reviewed candidate, under its token, exactly when the first header survives decoding |
| `RosterCommits.OnlyReplacementsChangeTheFile` | pds_core/rosters.py:475-526 | the file changes only by a recorded replacement |
| `RosterCommits.PlainWriteExactly` | pds_core/rosters.py:475-526 | a plain write that holds the lock replaces the file exactly when the replacement works, nothing is overwritten unasked, the five required columns are there and every student is of the class; otherwise the file stays |
| `RosterCommits.CommitEnds` | pds_core/roster_imports.py:209-281 | where a commit run alone ends, for any candidate, file, lock and faults, and what it leaves |
| `RosterCommits.RosterFile.CommitRosterImport` | pds_core/roster_imports.py:209-281 | alone, is a run of the commit's steps: commits exactly when the candidate is the reviewed one, the lock free, the state the expected one and no operation fails; otherwise the file is untouched |
| `RosterCommits.RosterFile.PlanThenCommit` | pds_core/roster_imports.py:152-281 | planning and committing at once always succeeds, and the file then holds the candidate exactly when its first header survives decoding |

## Left out

- File-system detail: fsync, symlinks, containment checks, stat fingerprints and the findings that report a file changing during an audit.
- Temporary files of the atomic replacements: a replacement either happens or does not; a leftover temporary file is never read.
- JSON and ISO-8601 parsing: a complete file is its record. The CSV model reads the two timestamp forms `isoformat` writes and no others; period dates are values, not text.
- CSV quoting: a quoted field in a signal CSV is refused by the model, where Python's reader would unquote it; exported fields never need quotes. For rosters the model starts at the cells.
- ParseRows: refuses rows with quoted fields, which the source unquotes and accepts.
- Parse, ParseLines: refuse quoted fields and ISO timestamps other than the two forms `isoformat` writes.
- FromCsv: says nothing of quoted texts and of other ISO forms.
- LoadRoster: a file that begins with a signature followed by a quoted first header is not among its tables, and cells are taken to be within the csv reader's limit.
- Per-field validation of titles, labels and enumerations; identifiers are modelled where a proof needs them.
- InsertProjection: leaves out the class-context, metadata and source-inventory tables; the registration and publication queries take the class-context table as a parameter.
- ConstraintsNeverFail: leaves out the checks on single columns (positive numbers, enumerations, digests), which repeat the record constructors' own, and the foreign keys into the class-context table.
- VerifySemanticHistories: the record constructors run again on every row read; that they accept what is read is not stated beyond the order of periods and capabilities.
- QueryPublications: the answer's own constructor checks are not repeated.
- SQL text, pragmas, schema signature, sidecar files, the metadata and source-inventory tables, and the counts compared with them.
- Audit scopes for manifests, contracts, catalog and locks, filtered audits, and the severity counters of the report.
- Nested class, module and work directories are one listing of namespaces; a history is loaded directory by directory instead of grouped by identity first.
- Lock observation and guarded lock clearing by the command line; clearing is an event allowed when the holder is gone.
- PDS2 payloads, menus, teacher commands, module operations, dispatch and entry-point discovery.
- Non-string cells and headers of rosters, and the roster operations that add, replace or remove one student.
- The listing of grouping signals and of withdrawals, and single-record reads, beyond what the protocols use.
- CreatePublication: as a method it runs with nobody else writing; what becomes of an attempt among concurrent writers, and that a fresh id is tried once, is stated over the step machine (`PublicationListings.FreshIdIsTriedOnce`).
- PublishManifest, WithdrawPublication: as methods they run with nobody else writing; among concurrent writers the decisions and answers they are made of are stated over runs.
- RegisterAcademicWork, UpdateRegistration: as methods they run with nobody else writing; among concurrent writers their branches and answers are stated over runs.
- UpdateRegistration: takes a directory whose registrations are all of the request's work; the source refuses any other when it loads it.
- ReplayNeverCreates: the repeated request is a listing process followed by its decision; that its manifest bytes are unchanged is a premise.
- WritePublicationWithdrawal: its run of the machine ends in the located series, which the contract only says exists.
- CheckRecords: stops at the first defect, and which of several defects is named is not stated.
- ScanPublications: assumes the registration scan has read every revision that can be loaded, which holds for audits without filters (`RegistryAudit.OnDiskIsRegistered`).
- SignalStore, RevisionStore: one identity, one calendar year or one work at a time; different identities use different files and do not interact.
