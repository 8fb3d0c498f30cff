/** The publication query over the tables, and what it answers in terms of the canonical records. */
module CatalogQueries {
  import opened Foundations
  import opened UtcText
  import opened Tables
  import opened PublicationRecords
  import PublicationProtocol
  import PublicationHistory
  import opened CanonicalListings
  import opened CanonicalPublications
  import opened RegistryAudit
  import opened CatalogTables
  import opened CatalogReadBack
  import opened CatalogVerification

  datatype State = CurrentState | SeriesHeads | Historical | WithdrawnState | AllStates

  /** Every field narrows; `None` leaves its column alone. */
  datatype Query = Query(
    schoolYear: Option<string>,
    classId: Option<string>,
    moduleId: Option<string>,
    workId: Option<string>,
    kind: Option<PublicationKind>,
    manifestContractVersion: Option<string>,
    sourceContractVersion: Option<string>,
    producerContractVersion: Option<string>,
    referencedLifecycle: Option<string>,
    currentLifecycle: Option<string>,
    recordSetId: Option<string>,
    minimumRevision: Option<int>,
    publishedAtOrAfter: Option<int>,
    publishedBefore: Option<int>,
    state: State,
    capabilities: seq<string>,
    limit: Option<nat>,
    offset: nat)

  /** The class-context table: the school year of every class with registrations or publications, if it has metadata. */
  type ClassYears = map<string, Option<string>>

  /** `LIMIT` and `OFFSET` can be bound. An offset of zero without a limit is not bound at all. */
  predicate BindablePage(limit: Option<nat>, offset: nat) { Fits64(offset) && (limit.Some? ==> Fits64(limit.value)) }

  /** Every parameter of the query can be bound; the query's own validation demands none of this. */
  predicate Bindable(q: Query) {
    && (q.minimumRevision.Some? ==> Fits64(q.minimumRevision.value))
    && (q.publishedAtOrAfter.Some? ==> Representable(q.publishedAtOrAfter.value))
    && (q.publishedBefore.Some? ==> Representable(q.publishedBefore.value))
    && BindablePage(q.limit, q.offset)
  }

  /** In numbers: what SQLite binds as an integer, and what can be written in UTC. */
  lemma BindableExactly(q: Query)
    ensures Bindable(q) <==>
            && (q.minimumRevision.Some? ==>
                  -0x8000_0000_0000_0000 <= q.minimumRevision.value <= 0x7fff_ffff_ffff_ffff)
            && (q.publishedAtOrAfter.Some? ==>
                  86400000000 <= q.publishedAtOrAfter.value < 3652060 * 86400000000)
            && (q.publishedBefore.Some? ==> 86400000000 <= q.publishedBefore.value < 3652060 * 86400000000)
            && q.offset <= 0x7fff_ffff_ffff_ffff
            && (q.limit.Some? ==> q.limit.value <= 0x7fff_ffff_ffff_ffff)
  {
    forall t: int ensures Representable(t) <==> 86400000000 <= t < 3652060 * 86400000000 { RepresentableExactly(t); }
  }

  datatype QueryError =
    | Overflowed          // a value too large for SQLite, or a time outside the UTC calendar
    | InvalidRow

  predicate Narrows<T(==)>(wanted: Option<T>, actual: T) { wanted.None? || wanted.value == actual }

  /** A nullable column equals the wanted value; SQL's NULL equals nothing. */
  predicate NarrowsNullable<T(==)>(wanted: Option<T>, actual: Option<T>) { wanted.None? || wanted == actual }

  predicate StateMatches(state: State, head: bool, withdrawn: bool, selectable: bool) {
    match state
    case CurrentState => selectable
    case SeriesHeads => head
    case Historical => !head
    case WithdrawnState => withdrawn
    case AllStates => true
  }

  function SourceVersion(source: Option<ModuleRecordRef>): Option<string> {
    if source.None? then None else source.value.contractVersion
  }

  // --------------------------------------------------------------------- over rows

  function JoinReferenced(rows: seq<RegistrationRow>, key: Option<Reference>): Option<RegistrationRow> {
    if rows == [] then None
    else if Some(rows[0].key) == key then Some(rows[0])
    else JoinReferenced(rows[1..], key)
  }

  function JoinCurrent(rows: seq<RegistrationRow>, work: ModuleWorkRef): Option<RegistrationRow> {
    if rows == [] then None
    else if rows[0].key.work == work && rows[0].isCurrent then Some(rows[0])
    else JoinCurrent(rows[1..], work)
  }

  function ReferenceKey(work: ModuleWorkRef, revision: Option<int>): Option<Reference> {
    if revision.None? then None else Some(Reference(work, revision.value))
  }

  function Lifecycle(row: Option<RegistrationRow>): Option<string> {
    if row.None? then None else Some(row.value.lifecycle)
  }

  function Contract(row: Option<RegistrationRow>): Option<string> {
    if row.None? then None else Some(row.value.producerContractVersion)
  }

  /** Conditions on a publication's own columns, times and flags aside. */
  predicate OwnColumnsMatch(q: Query, work: ModuleWorkRef, kind: PublicationKind, recordSetId: string, revision: int,
                            manifestVersion: string, source: Option<ModuleRecordRef>)
  {
    && Narrows(q.classId, work.classId) && Narrows(q.moduleId, work.moduleId) && Narrows(q.workId, work.workId)
    && Narrows(q.kind, kind) && Narrows(q.recordSetId, recordSetId)
    && Narrows(q.manifestContractVersion, manifestVersion)
    && NarrowsNullable(q.sourceContractVersion, SourceVersion(source))
    && (q.minimumRevision.Some? ==> revision >= q.minimumRevision.value)
  }

  /** Conditions on the referenced and the current registration. */
  predicate JoinsMatch(t: TableContents, q: Query, work: ModuleWorkRef, revision: Option<int>) {
    var referenced := JoinReferenced(t.registrations, ReferenceKey(work, revision));
    && NarrowsNullable(q.producerContractVersion, Contract(referenced))
    && NarrowsNullable(q.referencedLifecycle, Lifecycle(referenced))
    && NarrowsNullable(q.currentLifecycle, Lifecycle(JoinCurrent(t.registrations, work)))
  }

  /** Published times are compared as text. */
  predicate TextInWindow(q: Query, publishedAtUtc: string) {
    && (q.publishedAtOrAfter.Some? ==> StrLe(Utc(q.publishedAtOrAfter.value), publishedAtUtc))
    && (q.publishedBefore.Some? ==> !StrLe(Utc(q.publishedBefore.value), publishedAtUtc))
  }

  predicate OffersAll(t: TableContents, q: Query, id: string) {
    forall c :: c in q.capabilities ==> CapabilityRow(id, c) in t.capabilities
  }

  /** The inner join with the class context, and the condition on its school year. */
  predicate InSchoolYear(years: ClassYears, q: Query, classId: string) {
    classId in years && NarrowsNullable(q.schoolYear, years[classId])
  }

  /** The `WHERE` clause. */
  predicate RowMatches(t: TableContents, years: ClassYears, q: Query, row: PublicationRow) {
    && InSchoolYear(years, q, row.work.classId)
    && OwnColumnsMatch(q, row.work, row.kind, row.recordSetId, row.recordSetRevision, row.manifestContractVersion,
                       row.sourceRecord)
    && JoinsMatch(t, q, row.work, row.registrationRevision)
    && TextInWindow(q, row.publishedAtUtc)
    && StateMatches(q.state, row.isSeriesHead, row.isWithdrawn, row.isCurrentSelectable)
    && OffersAll(t, q, row.publicationId)
  }

  /** `ORDER BY published_at_utc DESC, publication_id`. */
  predicate NewestFirst(a: PublicationRow, b: PublicationRow) {
    if a.publishedAtUtc == b.publishedAtUtc then StrLe(a.publicationId, b.publicationId)
    else StrLe(b.publishedAtUtc, a.publishedAtUtc)
  }

  /** `LIMIT` and `OFFSET`. */
  function Page<T>(items: seq<T>, limit: Option<nat>, offset: nat): seq<T> {
    var rest := if offset <= |items| then items[offset..] else [];
    if limit.Some? && limit.value <= |rest| then rest[..limit.value] else rest
  }

  function SelectedRows(t: TableContents, years: ClassYears, q: Query): seq<PublicationRow> {
    Page(SortBy(Filter(t.publications, (row: PublicationRow) => RowMatches(t, years, q, row)), NewestFirst), q.limit,
         q.offset)
  }

  /** One answered publication, with its class's school year and what the joined registrations say. */
  datatype CatalogEntry = CatalogEntry(
    schoolYear: Option<string>,
    publication: CatalogPublication,
    referencedLifecycle: Option<string>,
    currentRevision: Option<int>,
    currentLifecycle: Option<string>)

  function SchoolYearOf(years: ClassYears, classId: string): Option<string> {
    if classId in years then years[classId] else None
  }

  function Revision(row: Option<RegistrationRow>): Option<int> {
    if row.None? then None else Some(row.value.key.revision)
  }

  /** `_publication_row` over the joined columns. */
  function ReadEntry(t: TableContents, years: ClassYears, row: PublicationRow): Option<CatalogEntry> {
    var publication := ReadPublication(t, row);
    var current := JoinCurrent(t.registrations, row.work);
    if publication.None? then None
    else Some(CatalogEntry(SchoolYearOf(years, row.work.classId), publication.value,
                           Lifecycle(JoinReferenced(t.registrations, ReferenceKey(row.work, row.registrationRevision))),
                           Revision(current), Lifecycle(current)))
  }

  method QueryPublications(t: TableContents, years: ClassYears, q: Query)
    returns (answer: Result<seq<CatalogEntry>, QueryError>)
    ensures answer == Failure(Overflowed) <==> !Bindable(q)
    ensures Bindable(q) ==>
              ReadFrom(SelectedRows(t, years, q), (row: PublicationRow) => ReadEntry(t, years, row), answer.ToOption())
  {
    if !Bindable(q) { return Failure(Overflowed); }
    var read := ReadAll(SelectedRows(t, years, q), (row: PublicationRow) => ReadEntry(t, years, row));
    return if read.Some? then Success(read.value) else Failure(InvalidRow);
  }

  // ------------------------------------------------------------------ over records

  ghost predicate ReferencedBy(p: Projection, r: PublicationRecord, x: Registration) {
    r.registrationRevision == Some(x.revision) && x.metadata.work == r.work && exists row ::
      row in p.registrations && row.0 == x
  }

  ghost predicate RegistrationsMatch(p: Projection, q: Query, r: PublicationRecord) {
    && (q.producerContractVersion.Some? ==>
          exists x :: ReferencedBy(p, r, x) && x.metadata.producerContractVersion == q.producerContractVersion.value)
    && (q.referencedLifecycle.Some? ==>
          exists x :: ReferencedBy(p, r, x) && x.metadata.lifecycle == q.referencedLifecycle.value)
    && (q.currentLifecycle.Some? ==>
          exists row :: CurrentFor(p, r.work, row) && row.0.metadata.lifecycle == q.currentLifecycle.value)
  }

  predicate InWindow(q: Query, t: int) {
    && (q.publishedAtOrAfter.Some? ==> t >= q.publishedAtOrAfter.value)
    && (q.publishedBefore.Some? ==> t < q.publishedBefore.value)
  }

  /** What a query asks, said of the canonical records and of instants. */
  ghost predicate RecordMatches(p: Projection, years: ClassYears, q: Query, r: PublicationRecord) {
    var flags := Flags(p, r);
    && InSchoolYear(years, q, r.work.classId)
    && OwnColumnsMatch(q, r.work, r.kind, r.recordSetId, r.recordSetRevision, r.manifestContractVersion, r.sourceRecord)
    && RegistrationsMatch(p, q, r)
    && InWindow(q, r.publishedAt)
    && StateMatches(q.state, flags.isSeriesHead, flags.isWithdrawn, flags.isCurrentSelectable)
    && (forall c :: c in q.capabilities ==> c in r.capabilities)
  }

  predicate NewestRecordFirst(a: PublicationRecord, b: PublicationRecord) {
    if a.publishedAt == b.publishedAt then StrLe(a.publicationId, b.publicationId) else b.publishedAt <= a.publishedAt
  }

  ghost function Matching(p: Projection, years: ClassYears, q: Query): seq<PublicationRecord> {
    Filter(p.publications, (r: PublicationRecord) => RecordMatches(p, years, q, r))
  }

  /** The records of the answer, from the canonical records and the classes' school years alone. */
  ghost function AnswerPage(p: Projection, years: ClassYears, q: Query): seq<PublicationRecord> {
    Page(SortBy(Matching(p, years, q), NewestRecordFirst), q.limit, q.offset)
  }

  /**
   What an entry says of its record: whether anything supersedes it or withdraws it and when, the
   class's school year, and the two joined registrations.
   */
  ghost predicate Describes(p: Projection, years: ClassYears, e: CatalogEntry, r: PublicationRecord) {
    && e.publication.record == r
    && (e.publication.isSeriesHead <==> !Superseded(p, r)) && (e.publication.isWithdrawn <==> WithdrawnIn(p, r))
    && (e.publication.isCurrentSelectable <==> !Superseded(p, r) && !WithdrawnIn(p, r))
    && (forall t :: e.publication.withdrawnAt == Some(t) <==> exists d ::
        d in p.withdrawals && d.publicationId == r.publicationId && d.withdrawnAt == t)
    && e.schoolYear == (if r.work.classId in years then years[r.work.classId] else None)
    && (forall v :: e.referencedLifecycle == Some(v) <==> exists x ::
        ReferencedBy(p, r, x) && x.metadata.lifecycle == v)
    && (forall v :: e.currentLifecycle == Some(v) <==> exists row ::
        CurrentFor(p, r.work, row) && row.0.metadata.lifecycle == v)
    && (forall n :: e.currentRevision == Some(n) <==> exists row :: CurrentFor(p, r.work, row) && row.0.revision == n)
  }

  ghost predicate CurrentFor(p: Projection, work: ModuleWorkRef, row: (Registration, bool)) {
    row in p.registrations && row.1 && row.0.metadata.work == work
  }

  /** A record of the projection supersedes `r`. */
  ghost predicate Superseded(p: Projection, r: PublicationRecord) {
    exists x :: x in p.publications && x.supersedes == Some(r.publicationId)
  }

  ghost predicate WithdrawnIn(p: Projection, r: PublicationRecord) {
    exists d :: d in p.withdrawals && d.publicationId == r.publicationId
  }

  /** What the five states mean, in terms of supersessions and withdrawals. */
  ghost predicate InState(p: Projection, state: State, r: PublicationRecord) {
    && (state == CurrentState ==> !Superseded(p, r) && !WithdrawnIn(p, r))
    && (state == SeriesHeads ==> !Superseded(p, r))
    && (state == Historical ==> Superseded(p, r))
    && (state == WithdrawnState ==> WithdrawnIn(p, r))
  }

  /** A condition on what the record itself says. */
  predicate FieldsAsked(q: Query, r: PublicationRecord) {
    && (q.classId.Some? ==> r.work.classId == q.classId.value)
    && (q.moduleId.Some? ==> r.work.moduleId == q.moduleId.value)
    && (q.workId.Some? ==> r.work.workId == q.workId.value)
    && (q.kind.Some? ==> r.kind == q.kind.value)
    && (q.manifestContractVersion.Some? ==> r.manifestContractVersion == q.manifestContractVersion.value)
    && (q.sourceContractVersion.Some? ==>
          r.sourceRecord.Some? && r.sourceRecord.value.contractVersion == q.sourceContractVersion)
    && (q.recordSetId.Some? ==> r.recordSetId == q.recordSetId.value)
    && (q.minimumRevision.Some? ==> q.minimumRevision.value <= r.recordSetRevision)
    && (q.publishedAtOrAfter.Some? ==> q.publishedAtOrAfter.value <= r.publishedAt)
    && (q.publishedBefore.Some? ==> r.publishedAt < q.publishedBefore.value)
    && (forall c :: c in q.capabilities ==> c in r.capabilities)
  }

  /** The registration `r` names has the wanted producer contract and lifecycle. */
  ghost predicate ReferencedAsked(p: Projection, q: Query, r: PublicationRecord) {
    q.producerContractVersion.Some? || q.referencedLifecycle.Some? ==>
      exists x ::
        && ReferencedBy(p, r, x)
        && (q.producerContractVersion.Some? ==> x.metadata.producerContractVersion == q.producerContractVersion.value)
        && (q.referencedLifecycle.Some? ==> x.metadata.lifecycle == q.referencedLifecycle.value)
  }

  /**
   What a query asks for, condition by condition and in terms of the canonical records alone: its
   class is known, in the wanted school year, and every condition that is given holds.
   */
  ghost predicate Asked(p: Projection, years: ClassYears, q: Query, r: PublicationRecord) {
    && r.work.classId in years && (q.schoolYear.Some? ==> years[r.work.classId] == q.schoolYear)
    && FieldsAsked(q, r) && ReferencedAsked(p, q, r)
    && (q.currentLifecycle.Some? ==>
          exists row :: CurrentFor(p, r.work, row) && row.0.metadata.lifecycle == q.currentLifecycle.value)
    && InState(p, q.state, r)
  }

  /** `a` comes before `b`: it is newer, or as old and has the smaller id. */
  predicate Precedes(a: PublicationRecord, b: PublicationRecord) {
    if a.publishedAt == b.publishedAt then a.publicationId != b.publicationId && StrLe(a.publicationId, b.publicationId)
    else a.publishedAt > b.publishedAt
  }

  /** The whole answer: exactly the records asked for, each once, newest first. */
  ghost predicate FullAnswer(p: Projection, years: ClassYears, q: Query, full: seq<PublicationRecord>) {
    && (forall r :: r in full <==> r in p.publications && Asked(p, years, q, r))
    && (forall i, j :: 0 <= i < j < |full| ==> Precedes(full[i], full[j]))
  }

  /** How many of `n` items a page holds. */
  function PageLength(n: nat, limit: Option<nat>, offset: nat): nat {
    var rest := if offset >= n then 0 else n - offset;
    if limit.None? || limit.value > rest then rest else limit.value
  }

  /** A page is so many consecutive items, from the offset on. */
  ghost predicate PageOf<T>(page: seq<T>, full: seq<T>, limit: Option<nat>, offset: nat) {
    && |page| == PageLength(|full|, limit, offset)
    && forall k :: 0 <= k < |page| ==> page[k] == full[offset + k]
  }

  /** The entries answer the query: that page of the whole answer, each record described truly. */
  ghost predicate Answers(p: Projection, years: ClassYears, q: Query, entries: seq<CatalogEntry>) {
    exists full ::
      && FullAnswer(p, years, q, full) && |entries| == PageLength(|full|, q.limit, q.offset)
      && forall k :: 0 <= k < |entries| ==> Describes(p, years, entries[k], full[q.offset + k])
  }

  // ------------------------------------------------------------ rows answer for records

  lemma RowKeys()
    ensures forall item :: RegistrationRowOf(item).key == Refer(item.0) && RegistrationRowOf(item).isCurrent == item.1
  {
  }

  lemma {:induction false} JoinReferencedFinds(items: seq<(Registration, bool)>, key: Option<Reference>)
    ensures var j := JoinReferenced(Map(items, RegistrationRowOf), key);
            && (j.Some? ==> exists item ::
                item in items && Some(Refer(item.0)) == key && j.value == RegistrationRowOf(item))
            && (j.None? ==> forall item :: item in items ==> Some(Refer(item.0)) != key)
  {
    hide RegistrationRowOf;
    RowKeys();
    if items != [] {
      JoinReferencedFinds(items[1..], key);
      assert Map(items, RegistrationRowOf)[1..] == Map(items[1..], RegistrationRowOf);
      assert items == [items[0]] + items[1..];
    }
  }

  lemma {:induction false} JoinCurrentFinds(items: seq<(Registration, bool)>, work: ModuleWorkRef)
    ensures var j := JoinCurrent(Map(items, RegistrationRowOf), work);
            && (j.Some? ==> exists item ::
                item in items && item.0.metadata.work == work && item.1 && j.value == RegistrationRowOf(item))
            && (j.None? ==> forall item :: item in items && item.0.metadata.work == work ==> !item.1)
  {
    hide RegistrationRowOf;
    RowKeys();
    if items != [] {
      JoinCurrentFinds(items[1..], work);
      assert Map(items, RegistrationRowOf)[1..] == Map(items[1..], RegistrationRowOf);
      assert items == [items[0]] + items[1..];
    }
  }

  lemma OneRegistrationPerKey(p: Projection, a: (Registration, bool), b: (Registration, bool))
    requires ProjectionSound(p) && a in p.registrations && b in p.registrations && Refer(a.0) == Refer(b.0)
    ensures a == b
  {
    RegistrationKeysAgree(p);
    var i :| 0 <= i < |p.registrations| && p.registrations[i] == a;
    var j :| 0 <= j < |p.registrations| && p.registrations[j] == b;
    assert RegistrationKeyOf(p.registrations[i]) == RegistrationKeyOf(p.registrations[j]);
  }

  /** A work has one current registration. */
  lemma OneCurrentPerWork(p: Projection, a: (Registration, bool), b: (Registration, bool))
    requires ProjectionSound(p) && a in p.registrations && b in p.registrations
    requires a.0.metadata.work == b.0.metadata.work && a.1 && b.1
    ensures a == b
  {
    var i :| 0 <= i < |p.registrations| && p.registrations[i] == a;
    var j :| 0 <= j < |p.registrations| && p.registrations[j] == b;
    WorkLeIsOrder();
    hide WorkLe, Histories;
    if i < j { CurrentEndsItsKey(RegistrationHistories(), WorkLe, p.registrations, i, j); }
    if j < i { CurrentEndsItsKey(RegistrationHistories(), WorkLe, p.registrations, j, i); }
  }

  lemma ReferencedColumns(p: Projection, r: PublicationRecord, v: string)
    requires ProjectionSound(p)
    ensures var row := JoinReferenced(TablesOf(p).registrations, ReferenceKey(r.work, r.registrationRevision));
            && (Lifecycle(row) == Some(v) <==> exists x :: ReferencedBy(p, r, x) && x.metadata.lifecycle == v)
            && (Contract(row) == Some(v) <==> exists x ::
                ReferencedBy(p, r, x) && x.metadata.producerContractVersion == v)
  {
    var key := ReferenceKey(r.work, r.registrationRevision);
    JoinReferencedFinds(p.registrations, key);
    var row := JoinReferenced(TablesOf(p).registrations, key);
    if row.Some? {
      var item :| item in p.registrations && Some(Refer(item.0)) == key && row.value == RegistrationRowOf(item);
      assert ReferencedBy(p, r, item.0);
      forall x | ReferencedBy(p, r, x) ensures x == item.0 {
        var other :| other in p.registrations && other.0 == x;
        OneRegistrationPerKey(p, item, other);
      }
    } else {
      assert forall x :: !ReferencedBy(p, r, x);
    }
  }

  lemma CurrentColumns(p: Projection, work: ModuleWorkRef, v: string)
    requires ProjectionSound(p)
    ensures Lifecycle(JoinCurrent(TablesOf(p).registrations, work)) == Some(v) <==>
            exists row :: CurrentFor(p, work, row) && row.0.metadata.lifecycle == v
    ensures forall n :: Revision(JoinCurrent(TablesOf(p).registrations, work)) == Some(n) <==>
              exists row :: CurrentFor(p, work, row) && row.0.revision == n
  {
    JoinCurrentFinds(p.registrations, work);
    var j := JoinCurrent(TablesOf(p).registrations, work);
    if j.Some? {
      var item :| item in p.registrations && item.0.metadata.work == work && item.1
        && j.value == RegistrationRowOf(item);
      forall row | CurrentFor(p, work, row) ensures row == item { OneCurrentPerWork(p, row, item); }
      assert CurrentFor(p, work, item) && j.value.key.revision == item.0.revision
             && j.value.lifecycle == item.0.metadata.lifecycle;
    } else {
      assert forall row :: !CurrentFor(p, work, row);
    }
  }

  lemma JoinsAgree(p: Projection, q: Query, r: PublicationRecord)
    requires ProjectionSound(p)
    ensures JoinsMatch(TablesOf(p), q, r.work, r.registrationRevision) <==> RegistrationsMatch(p, q, r)
  {
    hide ProjectionSound, TablesOf, JoinReferenced, JoinCurrent, ReferencedBy, CurrentFor, ReferenceKey, Lifecycle,
         Contract;
    if q.producerContractVersion.Some? { ReferencedColumns(p, r, q.producerContractVersion.value); }
    if q.referencedLifecycle.Some? { ReferencedColumns(p, r, q.referencedLifecycle.value); }
    if q.currentLifecycle.Some? { CurrentColumns(p, r.work, q.currentLifecycle.value); }
  }

  lemma WindowsAgree(q: Query, t: int)
    requires Bindable(q) && Representable(t)
    ensures TextInWindow(q, Utc(t)) <==> InWindow(q, t)
  {
    if q.publishedAtOrAfter.Some? { StampOrder(q.publishedAtOrAfter.value, t); }
    if q.publishedBefore.Some? { StampOrder(q.publishedBefore.value, t); }
  }

  lemma CapabilityTable(p: Projection)
    ensures TablesOf(p).capabilities == FlatMap(p.publications, CapabilityRowsOf)
  {
  }

  lemma CapabilityInRows(r: PublicationRecord, row: CapabilityRow)
    ensures row in CapabilityRowsOf(r) <==> row.publicationId == r.publicationId && row.capability in r.capabilities
  {
    if row.publicationId == r.publicationId && row.capability in r.capabilities {
      var k :| 0 <= k < |r.capabilities| && r.capabilities[k] == row.capability;
      assert CapabilityRowsOf(r)[k] == row;
    }
  }

  lemma CapabilityColumns(p: Projection, r: PublicationRecord, c: string)
    requires ProjectionSound(p) && r in p.publications
    ensures CapabilityRow(r.publicationId, c) in TablesOf(p).capabilities <==> c in r.capabilities
  {
    hide ProjectionSound, IdsDiffer, CapabilityRowsOf;
    RecordsDiffer(p);
    var row := CapabilityRow(r.publicationId, c);
    CapabilityTable(p);
    hide TablesOf;
    FlatMapMembers(p.publications, CapabilityRowsOf);
    if c in r.capabilities {
      var i :| 0 <= i < |p.publications| && p.publications[i] == r;
      CapabilityInRows(r, row);
    }
    if row in TablesOf(p).capabilities {
      var i :| 0 <= i < |p.publications| && row in CapabilityRowsOf(p.publications[i]);
      CapabilityInRows(p.publications[i], row);
      SameIdSameRecord(p.publications, p.publications[i], r);
    }
  }

  /** A row satisfies the `WHERE` clause exactly when its record is what the query asks for. */
  lemma RowMatchesRecord(p: Projection, years: ClassYears, q: Query, r: PublicationRecord)
    requires ProjectionSound(p) && Storable(p) && Bindable(q) && r in p.publications
    ensures RowMatches(TablesOf(p), years, q, RowIn(p)(r)) <==> RecordMatches(p, years, q, r)
  {
    PublishedRepresentable(p, r);
    WindowsAgree(q, r.publishedAt);
    JoinsAgree(p, q, r);
    forall c | c in q.capabilities
      ensures CapabilityRow(r.publicationId, c) in TablesOf(p).capabilities <==> c in r.capabilities
    {
      CapabilityColumns(p, r, c);
    }
    RowColumns(p, r);
    hide ProjectionSound, Storable, TablesOf, InSchoolYear, OwnColumnsMatch, JoinsMatch, RegistrationsMatch,
         TextInWindow, InWindow, Utc,
         StateMatches, RowIn, Flags;
  }

  lemma RowColumns(p: Projection, r: PublicationRecord)
    ensures var row, flags := RowIn(p)(r), Flags(p, r);
            && row.publicationId == r.publicationId && row.work == r.work && row.kind == r.kind
            && row.recordSetId == r.recordSetId && row.recordSetRevision == r.recordSetRevision
            && row.manifestContractVersion == r.manifestContractVersion && row.sourceRecord == r.sourceRecord
            && row.registrationRevision == r.registrationRevision && row.publishedAtUtc == Utc(r.publishedAt)
            && row.isSeriesHead == flags.isSeriesHead && row.isWithdrawn == flags.isWithdrawn
            && row.isCurrentSelectable == flags.isCurrentSelectable
  {
    hide WithdrawalOf, Utc;
  }

  lemma RowOrderIsRecordOrder(p: Projection, a: PublicationRecord, b: PublicationRecord)
    requires Representable(a.publishedAt) && Representable(b.publishedAt)
    ensures NewestFirst(RowIn(p)(a), RowIn(p)(b)) <==> NewestRecordFirst(a, b)
  {
    StampOrder(a.publishedAt, b.publishedAt);
    StampOrder(b.publishedAt, a.publishedAt);
  }

  // ------------------------------------------------ filtering and sorting mapped lists

  lemma {:induction false} FilterMapped<S, T>(s: seq<S>, f: S -> T, keep: T -> bool, keepItem: S -> bool)
    requires forall x :: x in s ==> keep(f(x)) == keepItem(x)
    ensures Filter(Map(s, f), keep) == Map(Filter(s, keepItem), f)
  {
    if s != [] {
      hide Map;
      assert s[0] in s && forall x :: x in s[1..] ==> x in s;
      FilterMapped(s[1..], f, keep, keepItem);
      MapTail(s, f);
      MapCons(s[0], Filter(s[1..], keepItem), f);
    }
  }

  lemma {:induction false} InsertMapped<S, T>(x: S, s: seq<S>, f: S -> T, le: (T, T) -> bool, leItem: (S, S) -> bool)
    requires forall y :: y in s ==> le(f(x), f(y)) == leItem(x, y)
    ensures Insert(f(x), Map(s, f), le) == Map(Insert(x, s, leItem), f)
  {
    MapCons(x, s, f);
    hide Map;
    if s != [] {
      assert s[0] in s && forall y :: y in s[1..] ==> y in s;
      MapTail(s, f);
      if !leItem(x, s[0]) {
        InsertMapped(x, s[1..], f, le, leItem);
        MapCons(s[0], Insert(x, s[1..], leItem), f);
      }
    }
  }

  lemma {:induction false} SortMapped<S(!new), T>(s: seq<S>, f: S -> T, le: (T, T) -> bool, leItem: (S, S) -> bool)
    requires forall x, y :: x in s && y in s ==> le(f(x), f(y)) == leItem(x, y)
    ensures SortBy(Map(s, f), le) == Map(SortBy(s, leItem), f)
  {
    if s != [] {
      hide Map;
      assert s[0] in s && forall y :: y in s[1..] ==> y in s;
      SortMapped(s[1..], f, le, leItem);
      MapTail(s, f);
      SortByContents(s[1..], leItem);
      InsertMapped(s[0], SortBy(s[1..], leItem), f, le, leItem);
    }
  }

  lemma PageMapped<S, T>(s: seq<S>, f: S -> T, limit: Option<nat>, offset: nat)
    ensures Page(Map(s, f), limit, offset) == Map(Page(s, limit, offset), f)
  {
  }

  /** The selected rows are the rows of the records the query asks for, newest first. */
  lemma SelectedRowsAre(p: Projection, years: ClassYears, q: Query)
    requires ProjectionSound(p) && Storable(p) && Bindable(q)
    ensures SelectedRows(TablesOf(p), years, q) == Map(AnswerPage(p, years, q), RowIn(p))
    ensures forall r :: r in Matching(p, years, q) <==> r in p.publications && RecordMatches(p, years, q, r)
  {
    hide RowMatches, RecordMatches, ProjectionSound, Storable, NewestFirst, NewestRecordFirst, RowIn, TablesOf;
    var t, f := TablesOf(p), RowIn(p);
    PublicationTable(p);
    var keep := (row: PublicationRow) => RowMatches(t, years, q, row);
    var keepRecord := (r: PublicationRecord) => RecordMatches(p, years, q, r);
    forall r | r in p.publications ensures keep(f(r)) == keepRecord(r) { RowMatchesRecord(p, years, q, r); }
    FilterMembers(p.publications, keepRecord);
    FilterMapped(p.publications, f, keep, keepRecord);
    var found := Filter(p.publications, keepRecord);
    assert found == Matching(p, years, q);
    forall x, y | x in found && y in found ensures NewestFirst(f(x), f(y)) == NewestRecordFirst(x, y) {
      PublishedRepresentable(p, x);
      PublishedRepresentable(p, y);
      RowOrderIsRecordOrder(p, x, y);
    }
    SortMapped(found, f, NewestFirst, NewestRecordFirst);
    PageMapped(SortBy(found, NewestRecordFirst), f, q.limit, q.offset);
  }

  lemma PublicationTable(p: Projection)
    ensures TablesOf(p).publications == Map(p.publications, RowIn(p))
  {
  }

  lemma PublishedRepresentable(p: Projection, r: PublicationRecord)
    requires Storable(p) && r in p.publications
    ensures Representable(r.publishedAt)
  {
    var i :| 0 <= i < |p.publications| && p.publications[i] == r;
    assert PublicationStorable(r, WithdrawalOf(p.withdrawals, p.publications[i].publicationId));
  }

  lemma PageMembers<T>(items: seq<T>, limit: Option<nat>, offset: nat)
    ensures forall k :: 0 <= k < |Page(items, limit, offset)| ==> Page(items, limit, offset)[k] in items
  {
  }

  /**
   The catalog refines the canonical records: a query over the inserted tables answers what
   the records themselves answer - same records, same flags, same registrations, same order,
   same page. It overflows exactly when a value of the projection or a parameter of the query
   cannot be held, and there is no other error.
   */
  method AskCatalog(p: Projection, years: ClassYears, q: Query) returns (answer: Result<seq<CatalogEntry>, QueryError>)
    requires ProjectionSound(p) && WellFormed(p)
    ensures answer.Success? <==> Storable(p) && Bindable(q)
    ensures answer.Success? ==> Answers(p, years, q, answer.value)
    ensures answer.Failure? ==> answer.error == Overflowed
  {
    hide Answers, ProjectionSound, WellFormed, Storable, Bindable, ReadFrom, SelectedRows, TablesOf;
    var db := new Database();
    var ok := db.InsertTransaction(p);
    if !ok { return Failure(Overflowed); }
    var t := db.Tables();
    answer := QueryPublications(t, years, q);
    if Bindable(q) { AnswerIsRead(p, years, q, (row: PublicationRow) => ReadEntry(t, years, row), answer.ToOption()); }
  }

  /** The conditions as the query gives them, and what they say. */
  lemma AskedIs(p: Projection, years: ClassYears, q: Query, r: PublicationRecord)
    requires ProjectionSound(p) && r in p.publications
    ensures RecordMatches(p, years, q, r) <==> Asked(p, years, q, r)
  {
    hide ProjectionSound, Flags, OwnColumnsMatch, InWindow, FieldsAsked, RegistrationsMatch, ReferencedAsked, InState,
         StateMatches, CurrentFor;
    FieldsAskedIs(q, r);
    ReferencedAskedIs(p, q, r);
    StateIs(p, q.state, r);
  }

  lemma FieldsAskedIs(q: Query, r: PublicationRecord)
    ensures FieldsAsked(q, r) <==>
            && OwnColumnsMatch(q, r.work, r.kind, r.recordSetId, r.recordSetRevision, r.manifestContractVersion,
                               r.sourceRecord)
            && InWindow(q, r.publishedAt) && (forall c :: c in q.capabilities ==> c in r.capabilities)
  {
  }

  lemma ReferencedAskedIs(p: Projection, q: Query, r: PublicationRecord)
    requires ProjectionSound(p)
    ensures RegistrationsMatch(p, q, r) <==>
            && ReferencedAsked(p, q, r)
            && (q.currentLifecycle.Some? ==>
                  exists row :: CurrentFor(p, r.work, row) && row.0.metadata.lifecycle == q.currentLifecycle.value)
  {
    OneReferenced(p, r);
    hide ProjectionSound, ReferencedBy, CurrentFor;
    if x :| ReferencedBy(p, r, x) { assert forall y :: ReferencedBy(p, r, y) ==> y == x; }
  }

  lemma StateIs(p: Projection, state: State, r: PublicationRecord)
    requires ProjectionSound(p) && r in p.publications
    ensures var flags := Flags(p, r);
            StateMatches(state, flags.isSeriesHead, flags.isWithdrawn, flags.isCurrentSelectable)
            <==> InState(p, state, r)
  {
    FlagsMean(p, r);
    hide ProjectionSound, Flags, Superseded, WithdrawnIn;
  }

  lemma OneReferenced(p: Projection, r: PublicationRecord)
    requires ProjectionSound(p)
    ensures forall x, y :: ReferencedBy(p, r, x) && ReferencedBy(p, r, y) ==> x == y
  {
    hide ProjectionSound;
    forall x, y | ReferencedBy(p, r, x) && ReferencedBy(p, r, y) ensures x == y {
      var a :| a in p.registrations && a.0 == x;
      var b :| b in p.registrations && b.0 == y;
      OneRegistrationPerKey(p, a, b);
    }
  }

  /** The flags of a row say which records supersede or withdraw it. */
  lemma FlagsMean(p: Projection, r: PublicationRecord)
    requires ProjectionSound(p) && r in p.publications
    ensures var f := Flags(p, r);
            && f.record == r
            && (f.isSeriesHead <==> !Superseded(p, r)) && (f.isWithdrawn <==> WithdrawnIn(p, r))
            && (f.isCurrentSelectable <==> !Superseded(p, r) && !WithdrawnIn(p, r))
            && (forall t :: f.withdrawnAt == Some(t) <==> exists d ::
                d in p.withdrawals && d.publicationId == r.publicationId && d.withdrawnAt == t)
  {
    RecordsDiffer(p);
    assert r.publicationId in p.heads <==> HeadOf(p.publications, r.publicationId);
    assert StrictlyBy(p.withdrawals, WithdrawalId);
    hide ProjectionSound;
    FlaggedHead(p.publications, r);
    FilterMembers(p.publications, (x: PublicationRecord) => x.publicationId !in SupersededIds(p.publications));
    assert r in Heads(p.publications) <==> !Superseded(p, r);
    WithdrawalFound(p.withdrawals, r.publicationId);
    OneWithdrawal(p.withdrawals, r.publicationId);
  }

  lemma OneWithdrawal(withdrawals: seq<PublicationWithdrawal>, id: string)
    requires StrictlyBy(withdrawals, WithdrawalId)
    ensures forall d :: d in withdrawals && d.publicationId == id ==> WithdrawalOf(withdrawals, id) == Some(d)
  {
    WithdrawalFound(withdrawals, id);
    forall d | d in withdrawals && d.publicationId == id ensures WithdrawalOf(withdrawals, id) == Some(d) {
      var i :| 0 <= i < |withdrawals| && withdrawals[i] == d;
      var found := WithdrawalOf(withdrawals, id).value;
      var j :| 0 <= j < |withdrawals| && withdrawals[j] == found;
      assert WithdrawalId(withdrawals[i]) == WithdrawalId(withdrawals[j]);
    }
  }

  lemma PageIs<T>(items: seq<T>, limit: Option<nat>, offset: nat)
    ensures PageOf(Page(items, limit, offset), items, limit, offset)
  {
  }

  /** The whole answer is what filtering and sorting the records give. */
  lemma FullAnswerIs(p: Projection, years: ClassYears, q: Query)
    requires ProjectionSound(p)
    ensures FullAnswer(p, years, q, SortBy(Matching(p, years, q), NewestRecordFirst))
  {
    var keep := (r: PublicationRecord) => RecordMatches(p, years, q, r);
    var found := Filter(p.publications, keep);
    assert found == Matching(p, years, q);
    RecordsDiffer(p);
    FilterMembers(p.publications, keep);
    forall r | r in p.publications ensures keep(r) <==> Asked(p, years, q, r) { AskedIs(p, years, q, r); }
    hide ProjectionSound, RecordMatches, Asked, Matching;
    NewestFirstIsOrder();
    SortByContents(found, NewestRecordFirst);
    SortBySorted(found, NewestRecordFirst);
    DistinctByContents(found, SortBy(found, NewestRecordFirst));
    var full := SortBy(found, NewestRecordFirst);
    forall i, j | 0 <= i < j < |full| ensures Precedes(full[i], full[j]) {
      assert full[i] in p.publications && full[j] in p.publications && full[i] != full[j];
      if full[i].publicationId == full[j].publicationId { SameIdSameRecord(p.publications, full[i], full[j]); }
    }
  }

  lemma NewestFirstIsOrder()
    ensures Total(NewestRecordFirst) && Transitive(NewestRecordFirst)
  {
    StrLeIsOrder();
  }

  /** There is one whole answer. */
  lemma FullAnswerIsUnique(p: Projection, years: ClassYears, q: Query, a: seq<PublicationRecord>,
                           b: seq<PublicationRecord>)
    requires FullAnswer(p, years, q, a) && FullAnswer(p, years, q, b)
    ensures a == b
  {
    hide Asked;
    StrLeIsOrder();
    PrecedesOrders(a);
    PrecedesOrders(b);
    SameMembersSameContents(a, b);
    SortedUnique(a, b, NewestRecordFirst);
  }

  lemma PrecedesOrders(s: seq<PublicationRecord>)
    requires forall i, j :: 0 <= i < j < |s| ==> Precedes(s[i], s[j])
    ensures Distinct(s) && Sorted(s, NewestRecordFirst) && TiesAreEqual(s, NewestRecordFirst)
  {
    StrLeIsOrder();
    assert forall i, j :: 0 <= i < j < |s| ==> s[i] != s[j];
    forall i, j | 0 <= i < |s| && 0 <= j < |s| && NewestRecordFirst(s[i], s[j]) && NewestRecordFirst(s[j], s[i])
      ensures s[i] == s[j]
    {
      StrictOne(s[i], s[j]);
    }
  }

  lemma StrictOne(a: PublicationRecord, b: PublicationRecord)
    requires NewestRecordFirst(a, b) && NewestRecordFirst(b, a)
    ensures !Precedes(a, b) && !Precedes(b, a)
  {
    if a.publishedAt == b.publishedAt { StrLeAntisymmetric(a.publicationId, b.publicationId); }
  }

  /** An entry is determined by the record it describes. */
  lemma DescribedOnce(p: Projection, years: ClassYears, e: CatalogEntry, f: CatalogEntry, r: PublicationRecord)
    requires Describes(p, years, e, r) && Describes(p, years, f, r)
    ensures e == f
  {
    hide Superseded, WithdrawnIn, ReferencedBy, CurrentFor;
    assert forall t :: e.publication.withdrawnAt == Some(t) <==> f.publication.withdrawnAt == Some(t);
    assert forall v :: e.referencedLifecycle == Some(v) <==> f.referencedLifecycle == Some(v);
    assert forall v :: e.currentLifecycle == Some(v) <==> f.currentLifecycle == Some(v);
    assert forall n :: e.currentRevision == Some(n) <==> f.currentRevision == Some(n);
    SameOption(e.publication.withdrawnAt, f.publication.withdrawnAt);
    SameOption(e.referencedLifecycle, f.referencedLifecycle);
    SameOption(e.currentLifecycle, f.currentLifecycle);
    SameOption(e.currentRevision, f.currentRevision);
  }

  lemma SameOption<T(!new)>(a: Option<T>, b: Option<T>)
    requires forall t :: a == Some(t) <==> b == Some(t)
    ensures a == b
  {
    if a.Some? { assert b == Some(a.value); }
  }

  /** Paging: the answer to a paged query is that page of the answer to the same query without paging. */
  lemma PagesOfOneAnswer(p: Projection, years: ClassYears, q: Query, entries: seq<CatalogEntry>, all: seq<CatalogEntry>)
    requires Answers(p, years, q, entries) && Answers(p, years, q.(limit := None, offset := 0), all)
    ensures PageOf(entries, all, q.limit, q.offset)
  {
    hide Describes, FullAnswer;
    var whole := q.(limit := None, offset := 0);
    var full :|
      && FullAnswer(p, years, q, full) && |entries| == PageLength(|full|, q.limit, q.offset)
      && forall k :: 0 <= k < |entries| ==> Describes(p, years, entries[k], full[q.offset + k]);
    var other :|
      && FullAnswer(p, years, whole, other) && |all| == PageLength(|other|, None, 0)
      && forall k :: 0 <= k < |all| ==> Describes(p, years, all[k], other[0 + k]);
    SameAsked(p, years, q, other);
    FullAnswerIsUnique(p, years, q, full, other);
    forall k | 0 <= k < |entries| ensures entries[k] == all[q.offset + k] {
      DescribedOnce(p, years, entries[k], all[q.offset + k], full[q.offset + k]);
    }
  }

  /** The whole answer is the same for every page. */
  lemma SameAsked(p: Projection, years: ClassYears, q: Query, full: seq<PublicationRecord>)
    requires FullAnswer(p, years, q.(limit := None, offset := 0), full)
    ensures FullAnswer(p, years, q, full)
  {
    var whole := q.(limit := None, offset := 0);
    hide ReferencedAsked, Superseded, WithdrawnIn, CurrentFor, Precedes;
    forall r ensures Asked(p, years, q, r) <==> Asked(p, years, whole, r) {
      assert ReferencedAsked(p, q, r) <==> ReferencedAsked(p, whole, r) by { SameReference(p, q, r); }
    }
    hide Asked;
  }

  lemma SameReference(p: Projection, q: Query, r: PublicationRecord)
    ensures ReferencedAsked(p, q, r) <==> ReferencedAsked(p, q.(limit := None, offset := 0), r)
  {
    hide ReferencedBy;
  }

  lemma AnswerIsRead(p: Projection, years: ClassYears, q: Query, read: PublicationRow -> Option<CatalogEntry>,
                     answer: Option<seq<CatalogEntry>>)
    requires ProjectionSound(p) && WellFormed(p) && Storable(p) && Bindable(q)
    requires forall row :: read(row) == ReadEntry(TablesOf(p), years, row)
    requires ReadFrom(SelectedRows(TablesOf(p), years, q), read, answer)
    ensures answer.Some? && Answers(p, years, q, answer.value)
  {
    hide Matching, AnswerPage, Describes, ProjectionSound, WellFormed, Storable, FullAnswer, Bindable, ReadFrom,
         SelectedRows, ReadEntry, TablesOf, NewestRecordFirst;
    PageIsRead(p, years, q, read, answer);
    FullAnswerIs(p, years, q);
    AnswerPageIs(p, years, q);
    var full := SortBy(Matching(p, years, q), NewestRecordFirst);
    forall k | 0 <= k < |answer.value| ensures Describes(p, years, answer.value[k], full[q.offset + k]) {
      assert Describes(p, years, answer.value[k], AnswerPage(p, years, q)[k]);
    }
  }

  lemma AnswerPageIs(p: Projection, years: ClassYears, q: Query)
    ensures PageOf(AnswerPage(p, years, q), SortBy(Matching(p, years, q), NewestRecordFirst), q.limit, q.offset)
  {
    hide Matching;
    PageIs(SortBy(Matching(p, years, q), NewestRecordFirst), q.limit, q.offset);
  }

  lemma PageIsRead(p: Projection, years: ClassYears, q: Query, read: PublicationRow -> Option<CatalogEntry>,
                   answer: Option<seq<CatalogEntry>>)
    requires ProjectionSound(p) && WellFormed(p) && Storable(p) && Bindable(q)
    requires forall row :: read(row) == ReadEntry(TablesOf(p), years, row)
    requires ReadFrom(SelectedRows(TablesOf(p), years, q), read, answer)
    ensures answer.Some? && |answer.value| == |AnswerPage(p, years, q)|
    ensures forall k :: 0 <= k < |answer.value| ==> Describes(p, years, answer.value[k], AnswerPage(p, years, q)[k])
  {
    SelectedRowsAre(p, years, q);
    var f, page := RowIn(p), AnswerPage(p, years, q);
    PageOfMatching(p, years, q);
    hide Matching, AnswerPage, SelectedRows, ReadEntry, Page, Flags, RowIn, Describes, TablesOf, ProjectionSound,
         WellFormed, Storable;
    var rows := Map(page, f);
    forall i | 0 <= i < |page|
      ensures read(rows[i]).Some? && Describes(p, years, read(rows[i]).value, page[i])
    {
      assert page[i] in page;
      EntryDescribes(p, years, page[i]);
    }
  }

  lemma PageOfMatching(p: Projection, years: ClassYears, q: Query)
    ensures forall r :: r in AnswerPage(p, years, q) ==> r in p.publications
  {
    FilterMembers(p.publications, (r: PublicationRecord) => RecordMatches(p, years, q, r));
    SortByContents(Matching(p, years, q), NewestRecordFirst);
    PageMembers(SortBy(Matching(p, years, q), NewestRecordFirst), q.limit, q.offset);
    hide RecordMatches, NewestRecordFirst;
  }

  lemma EntryDescribes(p: Projection, years: ClassYears, r: PublicationRecord)
    requires ProjectionSound(p) && WellFormed(p) && Storable(p) && r in p.publications
    ensures var e := ReadEntry(TablesOf(p), years, RowIn(p)(r)); e.Some? && Describes(p, years, e.value, r)
  {
    hide ProjectionSound, WellFormed, Storable, TablesOf, RowIn, Flags, ReadPublication, ReadEntry, Describes;
    RecordReturns(p, r);
    RowColumns(p, r);
    ColumnsDescribe(p, years, RowIn(p)(r), r);
  }

  lemma ColumnsDescribe(p: Projection, years: ClassYears, row: PublicationRow, r: PublicationRecord)
    requires ProjectionSound(p) && r in p.publications
    requires row.work == r.work && row.registrationRevision == r.registrationRevision
    requires ReadPublication(TablesOf(p), row) == Some(Flags(p, r))
    ensures var e := ReadEntry(TablesOf(p), years, row); e.Some? && Describes(p, years, e.value, r)
  {
    hide ProjectionSound, TablesOf, Flags, ReadPublication, JoinReferenced, JoinCurrent, ReferencedBy, CurrentFor,
         ReferenceKey, Lifecycle, Revision, Contract, Superseded, WithdrawnIn;
    FlagsMean(p, r);
    var registrations := TablesOf(p).registrations;
    var referenced := Lifecycle(JoinReferenced(registrations, ReferenceKey(r.work, r.registrationRevision)));
    var current := Lifecycle(JoinCurrent(registrations, r.work));
    forall v ensures referenced == Some(v) <==> exists x :: ReferencedBy(p, r, x) && x.metadata.lifecycle == v {
      ReferencedColumns(p, r, v);
    }
    forall v ensures current == Some(v) <==> exists row :: CurrentFor(p, r.work, row) && row.0.metadata.lifecycle == v {
      CurrentColumns(p, r.work, v);
    }
    CurrentColumns(p, r.work, "");
  }

  lemma RecordReturns(p: Projection, r: PublicationRecord)
    requires ProjectionSound(p) && WellFormed(p) && Storable(p) && r in p.publications
    ensures ReadPublication(TablesOf(p), RowIn(p)(r)) == Some(Flags(p, r))
  {
    var i :| 0 <= i < |p.publications| && p.publications[i] == r;
    PublicationReturns(p, i);
  }

  // -------------------------------------------------------- the current publication

  /** The `current` query narrowed to one series. */
  function CurrentOf(s: SeriesId): Query {
    Query(None, Some(s.work.classId), Some(s.work.moduleId), Some(s.work.workId), Some(s.kind), None, None, None, None,
          None,
          Some(s.recordSetId), None, None, None, CurrentState, [], None, 0)
  }

  datatype CurrentError = InvalidSeriesFound | ManyHeads | InvalidWithdrawalFound

  ghost predicate Orders(chain: seq<PublicationRecord>, series: seq<PublicationRecord>) {
    IsChain(chain) && multiset(chain) == multiset(series)
  }

  ghost predicate WithdrawalsStand(records: seq<PublicationRecord>, withdrawals: seq<PublicationWithdrawal>) {
    IdsDiffer(records, RecordId) && forall d :: d in withdrawals ==> Withdraws(records, d)
  }

  /** The last record of the chain, unless it has been withdrawn. */
  function CurrentIn(chain: seq<PublicationRecord>,
                     withdrawals: seq<PublicationWithdrawal>): Option<PublicationRecord> {
    if chain == [] || WithdrawalOf(withdrawals, chain[|chain| - 1].publicationId).Some? then None
    else Some(chain[|chain| - 1])
  }

  /** `get_current_publication_record` over the canonical records. */
  method GetCurrentPublicationRecord(records: seq<PublicationRecord>, withdrawals: seq<PublicationWithdrawal>,
                                     s: SeriesId)
    returns (result: Result<Option<PublicationRecord>, CurrentError>)
    ensures result.Failure? && result.error.InvalidSeriesFound? <==>
              SeriesOf(records, s) != [] && !FormsChain(SeriesOf(records, s))
    ensures forall chain | Orders(chain, SeriesOf(records, s)) && WithdrawalsStand(records, withdrawals) ::
              result == Success(CurrentIn(chain, withdrawals))
  {
    var series := SeriesOf(records, s);
    var validated := ValidatePublicationRecordSeries(series);
    if validated.Failure? {
      return Failure(InvalidSeriesFound);
    }
    var chain := validated.value;
    forall other | Orders(other, series) ensures other == chain { ChainIsUnique(series, chain, other); }
    SameContents(chain, series);
    if chain == [] { return Success(None); }
    HeadOfChain(chain, chain);
    hide IsChain, FormsChain, Heads, WithdrawalOf, WithdrawalsStand, ErrorIsReal, Orders;
    var heads := Heads(chain);
    if |heads| != 1 { return Failure(ManyHeads); }
    var head := heads[0];
    var withdrawal := WithdrawalOf(withdrawals, head.publicationId);
    if withdrawal.None? { return Success(Some(head)); }
    if !ValidWithdrawal(head, withdrawal.value) {
      InvalidWithdrawalIsUnsound(records, withdrawals, chain, s);
      return Failure(InvalidWithdrawalFound);
    }
    return Success(None);
  }

  lemma ChainIsUnique(series: seq<PublicationRecord>, a: seq<PublicationRecord>, b: seq<PublicationRecord>)
    requires Orders(a, series) && Orders(b, series)
    ensures a == b
  {
    SameContents(a, series);
    SameContents(b, series);
    ChainsWithSameRecords(a, b);
  }

  lemma InvalidWithdrawalIsUnsound(records: seq<PublicationRecord>, withdrawals: seq<PublicationWithdrawal>,
                                   chain: seq<PublicationRecord>, s: SeriesId)
    requires chain != [] && multiset(chain) == multiset(SeriesOf(records, s))
    requires var d := WithdrawalOf(withdrawals, chain[|chain| - 1].publicationId);
             d.Some? && !ValidWithdrawal(chain[|chain| - 1], d.value)
    ensures !WithdrawalsStand(records, withdrawals)
  {
    SameContents(chain, SeriesOf(records, s));
    GroupMembers(records, SeriesKey, s);
    var head := chain[|chain| - 1];
    WithdrawalFound(withdrawals, head.publicationId);
    var d := WithdrawalOf(withdrawals, head.publicationId).value;
    assert head in chain && head in records;
    if WithdrawalsStand(records, withdrawals) {
      var r :| r in records && ValidWithdrawal(r, d);
      SameIdSameRecord(records, r, head);
    }
  }

  /** The record the writers' protocol calls current is the one the canonical files name. */
  lemma CurrentInFiles(f: PublicationProtocol.Files, chain: seq<PublicationRecord>,
                       withdrawals: seq<PublicationWithdrawal>)
    requires forall id :: id in f.withdrawals <==> exists d :: d in withdrawals && d.publicationId == id
    ensures PublicationHistory.CurrentPublication(f, chain) == CurrentIn(chain, withdrawals)
  {
    if chain != [] { WithdrawalFound(withdrawals, chain[|chain| - 1].publicationId); }
  }

  /** The class-context table has a row for every class with publications. */
  ghost predicate CoversClasses(p: Projection, years: ClassYears) {
    forall r :: r in p.publications ==> r.work.classId in years
  }

  lemma NarrowedMatches(p: Projection, years: ClassYears, s: SeriesId, chain: seq<PublicationRecord>,
                        r: PublicationRecord)
    requires ProjectionSound(p) && CoversClasses(p, years) && Orders(chain, SeriesOf(p.publications, s))
             && r in p.publications
    ensures RecordMatches(p, years, CurrentOf(s), r) <==> CurrentIn(chain, p.withdrawals) == Some(r)
  {
    hide IsChain, Heads, SeriesSound, WithdrawalOf, IdsDiffer;
    RecordsDiffer(p);
    HeadsBySeries(p.publications);
    GroupMembers(p.publications, SeriesKey, s);
    var part := SeriesOf(p.publications, s);
    SameContents(chain, part);
    if chain != [] { HeadOfChain(part, chain); }
    assert r.publicationId in p.heads <==> HeadOf(p.publications, r.publicationId);
    hide ProjectionSound;
    FlaggedHead(p.publications, r);
    assert RecordMatches(p, years, CurrentOf(s), r) <==>
           r.Series() == s && r in Heads(p.publications) && WithdrawalOf(p.withdrawals, r.publicationId).None?;
    assert r in Heads(part) <==> r in Heads(p.publications) && r.Series() == s;
    if chain == [] { assert part == []; }
  }

  lemma FlaggedHead(records: seq<PublicationRecord>, r: PublicationRecord)
    requires IdsDiffer(records, RecordId) && r in records
    ensures HeadOf(records, r.publicationId) <==> r in Heads(records)
  {
    if HeadOf(records, r.publicationId) {
      var h :| h in Heads(records) && h.publicationId == r.publicationId;
      HeadIsListed(records, h);
      SameIdSameRecord(records, h, r);
    }
  }

  /** The `current` query narrowed to one series answers with the current publication, or with nothing. */
  lemma NarrowedAnswer(p: Projection, years: ClassYears, s: SeriesId, chain: seq<PublicationRecord>)
    requires ProjectionSound(p) && CoversClasses(p, years) && Orders(chain, SeriesOf(p.publications, s))
    ensures var current := CurrentIn(chain, p.withdrawals);
            forall full :: FullAnswer(p, years, CurrentOf(s), full) ==>
              full == if current.None? then [] else [current.value]
  {
    hide ProjectionSound, CoversClasses, RecordMatches, Orders, CurrentIn, CurrentOf, NewestRecordFirst, IdsDiffer,
         FullAnswer;
    FullAnswerIs(p, years, CurrentOf(s));
    forall full | FullAnswer(p, years, CurrentOf(s), full)
      ensures full == SortBy(Matching(p, years, CurrentOf(s)), NewestRecordFirst)
    {
      FullAnswerIsUnique(p, years, CurrentOf(s), full, SortBy(Matching(p, years, CurrentOf(s)), NewestRecordFirst));
    }
    var q, current := CurrentOf(s), CurrentIn(chain, p.withdrawals);
    var found := Matching(p, years, q);
    RecordsDiffer(p);
    NoPaging(s);
    FilterMembers(p.publications, (r: PublicationRecord) => RecordMatches(p, years, q, r));
    forall r | r in p.publications ensures r in found <==> current == Some(r) {
      NarrowedMatches(p, years, s, chain, r);
    }
    if current.None? { FilterNone(p.publications, (r: PublicationRecord) => RecordMatches(p, years, q, r)); }
    if current.Some? {
      CurrentIsRecorded(p, s, chain);
      OnlyMember(found, current.value);
      assert SortBy(found, NewestRecordFirst) == found;
    }
  }

  lemma NoPaging(s: SeriesId)
    ensures CurrentOf(s).limit.None? && CurrentOf(s).offset == 0
  {
  }

  lemma CurrentIsRecorded(p: Projection, s: SeriesId, chain: seq<PublicationRecord>)
    requires Orders(chain, SeriesOf(p.publications, s)) && CurrentIn(chain, p.withdrawals).Some?
    ensures CurrentIn(chain, p.withdrawals).value in p.publications
  {
    SameContents(chain, SeriesOf(p.publications, s));
    GroupMembers(p.publications, SeriesKey, s);
    assert chain[|chain| - 1] in chain;
  }

  /** Asking the catalog and asking the canonical files give the same current publication. */
  method CurrentAnswersAgree(p: Projection, years: ClassYears, s: SeriesId)
    returns (answer: seq<CatalogEntry>, current: Option<PublicationRecord>)
    requires ProjectionSound(p) && WellFormed(p) && Storable(p) && CoversClasses(p, years)
    ensures current.None? ==> answer == []
    ensures current.Some? ==> |answer| == 1 && Describes(p, years, answer[0], current.value)
    ensures forall chain :: Orders(chain, SeriesOf(p.publications, s)) ==> current == CurrentIn(chain, p.withdrawals)
  {
    hide Storable, WellFormed;
    var asked := AskCatalog(p, years, CurrentOf(s));
    var read := GetCurrentPublicationRecord(p.publications, p.withdrawals, s);
    ghost var chain := ChainOfSeries(p, s);
    NarrowedAnswer(p, years, s, chain);
    NoPaging(s);
    RecordsDiffer(p);
    assert WithdrawalsStand(p.publications, p.withdrawals);
    hide ProjectionSound, Orders, FullAnswer, CurrentIn, Describes;
    assert read == Success(CurrentIn(chain, p.withdrawals));
    answer, current := asked.value, read.value;
  }

  lemma ChainOfSeries(p: Projection, s: SeriesId) returns (chain: seq<PublicationRecord>)
    requires ProjectionSound(p)
    ensures Orders(chain, SeriesOf(p.publications, s))
  {
    var part := SeriesOf(p.publications, s);
    assert SeriesSound(p.publications);
    if part == [] {
      chain := [];
    } else {
      assert FormsChain(part);
      chain :| multiset(chain) == multiset(part) && IsChain(chain);
    }
  }
}
