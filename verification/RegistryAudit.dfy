/**
 The audit of the canonical registry against the catalog's projection of it: two
 independent readers of the same files that must agree on whether they are sound.
 */
module RegistryAudit {
  import opened Foundations
  import opened PublicationRecords
  import opened AcademicPeriods
  import opened CanonicalHistories
  import opened CanonicalListings
  import opened CanonicalPublications
  import RegistrationServices

  type Registration = RegistrationServices.Registration

  function CalendarHistories(): HistoryRules<string, Calendar> {
    HistoryRules((c: Calendar) => c.schoolYear, (c: Calendar) => c.revision,
                 (a: Calendar, b: Calendar) => CalendarTransition(a, b))
  }

  function RegistrationHistories(): HistoryRules<ModuleWorkRef, Registration> {
    HistoryRules((r: Registration) => r.metadata.work, (r: Registration) => r.revision,
                 (a: Registration, b: Registration) => RegistrationServices.Transition(a, b))
  }

  /** Works are ordered by class, module and work id. */
  predicate WorkLe(a: ModuleWorkRef, b: ModuleWorkRef) {
    if a.classId != b.classId then StrLe(a.classId, b.classId)
    else if a.moduleId != b.moduleId then StrLe(a.moduleId, b.moduleId)
    else StrLe(a.workId, b.workId)
  }

  lemma WorkLeIsOrder()
    ensures Total(WorkLe) && Transitive(WorkLe) && Antisymmetric(WorkLe)
  {
    StrLeIsOrder();
  }

  /** The canonical files of a workspace, as directory listings. */
  datatype Canonical = Canonical(
    years: seq<TopEntry<string, Calendar>>,
    works: seq<TopEntry<ModuleWorkRef, Registration>>,
    publications: seq<CollectionEntry<PublicationRecord>>,
    withdrawals: seq<CollectionEntry<PublicationWithdrawal>>)

  ghost predicate WellNamed(c: Canonical) {
    && NamesUnique(c.years) && NamesUnique(c.works)
    && FilesUnique(c.publications) && FilesUnique(c.withdrawals)
  }

  function Refer(r: Registration): Reference { Reference(r.metadata.work, r.revision) }

  function References(registrations: seq<Registration>): set<Reference> {
    set r | r in registrations :: Refer(r)
  }

  function Registered(c: Canonical): seq<Registration> {
    AllRecords(RegistrationHistories(), Namespaces(c.works))
  }

  /** What both readers require of the canonical files. */
  ghost predicate Acceptable(c: Canonical) {
    && ListingSound(CalendarHistories(), c.years)
    && ListingSound(RegistrationHistories(), c.works)
    && AllLoad(c.publications, RecordId) && AllLoad(c.withdrawals, WithdrawalId)
    && CollectionsSound(Contents(c.publications, RecordId), Contents(c.withdrawals, WithdrawalId),
                        References(Registered(c)))
  }

  // ------------------------------------------------------------------- the audit

  /** Loading one registration revision straight from its path. */
  predicate OnDisk(works: seq<Namespace<ModuleWorkRef, Registration>>, x: Reference) {
    exists ns :: ns in works && ns.key == x.work
                 && LoadRevision(RegistrationHistories(), ns.key, ns.revisions, x.revision).Some?
  }

  /** The registration scan has already read every revision that can be loaded. */
  lemma OnDiskIsRegistered(c: Canonical, x: Reference)
    requires WellNamed(c) && OnDisk(Namespaces(c.works), x)
    ensures x in References(Registered(c))
  {
    var u := RegistrationHistories();
    var ns :| ns in Namespaces(c.works) && ns.key == x.work
              && LoadRevision(u, ns.key, ns.revisions, x.revision).Some?;
    LoadedIsListed(u, ns.key, ns.revisions, x.revision);
    var r := LoadRevision(u, ns.key, ns.revisions, x.revision).value;
    HistoryRises(u, ns);
    hide History;
    RecordIsListed(u, Namespaces(c.works), r);
    assert Refer(r) == x;
  }

  /** An audit with default options: every scan runs to its end, whatever it finds. */
  method Audit(c: Canonical) returns (findings: seq<Finding>, canonicalValid: bool)
    requires WellNamed(c)
    ensures canonicalValid <==> Clean(findings)
    ensures canonicalValid <==> Acceptable(c) && ProducersPresent(c.works)
  {
    hide ListingSound, CollectionsSound, AllLoad, ProducersPresent, AllRecords, Contents, Clean, NamesUnique,
         FilesUnique;
    var periods, _ := ScanAll(CalendarHistories(), c.years, AcademicPeriodsDomain, false);
    var registrations, observed := ScanAll(RegistrationHistories(), c.works, RegistrationsDomain, true);
    var works := Namespaces(c.works);
    forall x | OnDisk(works, x) ensures x in References(observed) { OnDiskIsRegistered(c, x); }
    var publications := ScanPublications(c.publications, c.withdrawals, References(observed),
                                         (x: Reference) => OnDisk(works, x));
    CleanConcat(periods + registrations, publications);
    CleanConcat(periods, registrations);
    findings := periods + registrations + publications;
    canonicalValid := HasNoError(findings);
  }

  function HasNoError(findings: seq<Finding>): (clean: bool)
    ensures clean <==> Clean(findings)
  {
    forall f :: f in findings ==> f.severity != Error
  }

  // ---------------------------------------------------------------- the projection

  datatype Projection = Projection(
    calendars: seq<(Calendar, bool)>,
    registrations: seq<(Registration, bool)>,
    publications: seq<PublicationRecord>,
    withdrawals: seq<PublicationWithdrawal>,
    heads: set<string>)

  function RegistrationsOf(p: Projection): set<Reference> {
    set row | row in p.registrations :: Refer(row.0)
  }

  ghost predicate StrictlyBy<T>(items: seq<T>, idOf: T -> string) {
    forall i, j :: 0 <= i < j < |items| ==> StrLe(idOf(items[i]), idOf(items[j])) && idOf(items[i]) != idOf(items[j])
  }

  /** What the rest of the catalog may rely on. */
  ghost predicate ProjectionSound(p: Projection) {
    && Histories(CalendarHistories(), StrLe, p.calendars)
    && Histories(RegistrationHistories(), WorkLe, p.registrations)
    && StrictlyBy(p.publications, RecordId) && StrictlyBy(p.withdrawals, WithdrawalId)
    && CollectionsSound(p.publications, p.withdrawals, RegistrationsOf(p))
    && (forall id :: id in p.heads <==> HeadOf(p.publications, id))
  }

  /** Nothing but the canonical records, and all of them. */
  ghost predicate Projects(p: Projection, c: Canonical) {
    && (forall x :: (exists row :: row in p.calendars && row.0 == x) <==>
                    x in AllRecords(CalendarHistories(), Namespaces(c.years)))
    && (forall x :: (exists row :: row in p.registrations && row.0 == x) <==> x in Registered(c))
    && multiset(p.publications) == multiset(Contents(c.publications, RecordId))
    && multiset(p.withdrawals) == multiset(Contents(c.withdrawals, WithdrawalId))
  }

  /** The projection, class metadata aside: the first defect stops it. */
  method LoadProjection(c: Canonical) returns (result: Result<Projection, SourceError>)
    requires WellNamed(c)
    ensures result.Success? <==> Acceptable(c)
    ensures result.Success? ==> ProjectionSound(result.value) && Projects(result.value, c)
  {
    hide ListingSound, CollectionsSound, AllLoad, AllRecords, Contents, NamesUnique, FilesUnique, Rows, ProjectionSound,
         Projects;
    var calendars := LoadAll(CalendarHistories(), c.years, StrLe);
    if calendars.Failure? { return Failure(calendars.error); }
    var registrations := LoadAll(RegistrationHistories(), c.works, WorkLe);
    if registrations.Failure? { return Failure(registrations.error); }
    var registered := set row | row in registrations.value :: Refer(row.0);
    RegisteredRows(c, registrations.value);
    var collections := LoadPublications(c.publications, c.withdrawals, registered);
    if collections.Failure? { return Failure(collections.error); }
    var v := collections.value;
    var p := Projection(calendars.value, registrations.value, v.publications, v.withdrawals, v.heads);
    LoadedIsSound(c, p);
    return Success(p);
  }

  lemma RegisteredRows(c: Canonical, rows: seq<(Registration, bool)>)
    requires WellNamed(c) && ListingSound(RegistrationHistories(), c.works)
    requires rows == Rows(RegistrationHistories(), SortBy(Namespaces(c.works), ByKey(WorkLe)))
    ensures (set row | row in rows :: Refer(row.0)) == References(Registered(c))
  {
    WorkLeIsOrder();
    LoadedRowsAreHistories(RegistrationHistories(), WorkLe, c.works);
    hide Rows, AllRecords, ListingSound, Histories;
    forall x ensures x in (set row | row in rows :: Refer(row.0)) <==> x in References(Registered(c)) {
      if x in References(Registered(c)) {
        var r :| r in Registered(c) && Refer(r) == x;
        var row :| row in rows && row.0 == r;
      }
      if row: (Registration, bool) :| row in rows && Refer(row.0) == x {
        assert row.0 in Registered(c);
      }
    }
  }

  lemma LoadedIsSound(c: Canonical, p: Projection)
    requires WellNamed(c) && Acceptable(c)
    requires p.calendars == Rows(CalendarHistories(), SortBy(Namespaces(c.years), ByKey(StrLe)))
    requires p.registrations == Rows(RegistrationHistories(), SortBy(Namespaces(c.works), ByKey(WorkLe)))
    requires p.publications == SortBy(Contents(c.publications, RecordId), RecordsById)
    requires p.withdrawals == SortBy(Contents(c.withdrawals, WithdrawalId), WithdrawalsById)
    requires forall id :: id in p.heads <==> HeadOf(Contents(c.publications, RecordId), id)
    ensures ProjectionSound(p) && Projects(p, c)
  {
    StrLeIsOrder();
    WorkLeIsOrder();
    hide ListingSound, AllLoad, AllRecords, Contents, Rows, Histories, CollectionsSound, HeadOf, StrictlyBy, Total,
         Transitive;
    LoadedRowsAreHistories(CalendarHistories(), StrLe, c.years);
    LoadedRowsAreHistories(RegistrationHistories(), WorkLe, c.works);
    RegisteredRows(c, p.registrations);
    LoadedCollections(c.publications, c.withdrawals, p.publications, p.withdrawals, RegistrationsOf(p));
  }

  lemma LoadedCollections(publications: seq<CollectionEntry<PublicationRecord>>,
                          withdrawals: seq<CollectionEntry<PublicationWithdrawal>>,
                          records: seq<PublicationRecord>, withdrawn: seq<PublicationWithdrawal>,
                          registered: set<Reference>)
    requires FilesUnique(publications) && FilesUnique(withdrawals)
    requires records == SortBy(Contents(publications, RecordId), RecordsById)
    requires withdrawn == SortBy(Contents(withdrawals, WithdrawalId), WithdrawalsById)
    requires CollectionsSound(Contents(publications, RecordId), Contents(withdrawals, WithdrawalId), registered)
    ensures StrictlyBy(records, RecordId) && StrictlyBy(withdrawn, WithdrawalId)
    ensures multiset(records) == multiset(Contents(publications, RecordId))
    ensures multiset(withdrawn) == multiset(Contents(withdrawals, WithdrawalId))
    ensures CollectionsSound(records, withdrawn, registered)
    ensures forall id :: HeadOf(Contents(publications, RecordId), id) <==> HeadOf(records, id)
  {
    ContentsDiffer(publications, RecordId);
    ContentsDiffer(withdrawals, WithdrawalId);
    hide Contents, CollectionsSound, HeadOf, IdsDiffer, StrictlyBy;
    SortedByIds(Contents(publications, RecordId), records, RecordId, RecordsById);
    SortedByIds(Contents(withdrawals, WithdrawalId), withdrawn, WithdrawalId, WithdrawalsById);
    SameCollections(Contents(publications, RecordId), records, Contents(withdrawals, WithdrawalId), withdrawn,
                    registered);
  }

  lemma DifferIsDistinct<T>(items: seq<T>, idOf: T -> string)
    requires IdsDiffer(items, idOf)
    ensures Distinct(items)
  {
    forall i, j | 0 <= i < j < |items| ensures items[i] != items[j] { assert idOf(items[i]) != idOf(items[j]); }
  }

  /** Sorting by id keeps exactly the items and puts their ids in strict order. */
  lemma SortedByIds<T(!new)>(items: seq<T>, sorted: seq<T>, idOf: T -> string, le: (T, T) -> bool)
    requires IdsDiffer(items, idOf) && sorted == SortBy(items, le)
    requires forall x, y :: le(x, y) <==> StrLe(idOf(x), idOf(y))
    ensures StrictlyBy(sorted, idOf) && multiset(sorted) == multiset(items)
  {
    StrLeIsOrder();
    SortByContents(items, le);
    SortBySorted(items, le);
    DifferIsDistinct(items, idOf);
    DistinctByContents(items, sorted);
    forall i, j | 0 <= i < j < |sorted|
      ensures idOf(sorted[i]) != idOf(sorted[j]) && StrLe(idOf(sorted[i]), idOf(sorted[j]))
    {
      assert le(sorted[i], sorted[j]) && sorted[i] != sorted[j];
      assert sorted[i] in items && sorted[j] in items;
      var a :| 0 <= a < |items| && items[a] == sorted[i];
      var b :| 0 <= b < |items| && items[b] == sorted[j];
      assert idOf(items[a]) != idOf(items[b]);
    }
  }

  /** Soundness does not depend on the order the records are listed in. */
  lemma SameCollections(a: seq<PublicationRecord>, b: seq<PublicationRecord>, d: seq<PublicationWithdrawal>,
                        e: seq<PublicationWithdrawal>, registered: set<Reference>)
    requires multiset(a) == multiset(b) && multiset(d) == multiset(e)
    ensures CollectionsSound(a, d, registered) <==> CollectionsSound(b, e, registered)
    ensures forall id :: HeadOf(a, id) <==> HeadOf(b, id)
  {
    SameContents(a, b);
    SameContents(d, e);
    forall s
      ensures SeriesOf(a, s) == [] || FormsChain(SeriesOf(a, s)) <==> SeriesOf(b, s) == [] || FormsChain(SeriesOf(b, s))
    {
      SameGroup(a, b, s);
    }
    assert (forall w :: w in d ==> Withdraws(a, w)) <==> (forall w :: w in e ==> Withdraws(b, w)) by {
      assert forall w :: Withdraws(a, w) <==> Withdraws(b, w);
    }
    SameHeads(a, b);
  }

  lemma SameHeads(a: seq<PublicationRecord>, b: seq<PublicationRecord>)
    requires multiset(a) == multiset(b)
    ensures forall id :: HeadOf(a, id) <==> HeadOf(b, id)
  {
    SameContents(a, b);
    assert SupersededIds(a) == SupersededIds(b);
    FilterMembers(a, (x: PublicationRecord) => x.publicationId !in SupersededIds(a));
    FilterMembers(b, (x: PublicationRecord) => x.publicationId !in SupersededIds(b));
    assert forall r :: r in Heads(a) <==> r in Heads(b);
  }

  lemma SameGroup(a: seq<PublicationRecord>, b: seq<PublicationRecord>, s: SeriesId)
    requires multiset(a) == multiset(b)
    ensures multiset(SeriesOf(a, s)) == multiset(SeriesOf(b, s))
    ensures SeriesOf(a, s) == [] <==> SeriesOf(b, s) == []
    ensures FormsChain(SeriesOf(a, s)) <==> FormsChain(SeriesOf(b, s))
  {
    GroupCount(a, SeriesKey, s);
    GroupCount(b, SeriesKey, s);
    assert multiset(SeriesOf(a, s)) == multiset(SeriesOf(b, s));
    SameContents(SeriesOf(a, s), SeriesOf(b, s));
  }

  // ------------------------------------------------------------------- agreement

  /**
   A default audit reports no error in the three canonical domains exactly when the
   projection accepts the same files and every registered work still has its producer
   directory. So what a clean audit has seen can be projected; whether the catalog can also
   hold it is a question of sizes alone (`CatalogRebuild`).
   */
  method AuditAgreesWithProjection(c: Canonical)
    returns (canonicalValid: bool, projected: Result<Projection, SourceError>)
    requires WellNamed(c)
    ensures canonicalValid <==> projected.Success? && ProducersPresent(c.works)
    ensures projected.Success? ==> ProjectionSound(projected.value) && Projects(projected.value, c)
  {
    var _, valid := Audit(c);
    canonicalValid := valid;
    projected := LoadProjection(c);
  }
}
