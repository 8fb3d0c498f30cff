/** Rows read back are the projection that was inserted; the schema's constraints never refuse it. */
module CatalogReadBack {
  import opened Foundations
  import opened UtcText
  import opened Tables
  import opened PublicationRecords
  import opened AcademicPeriods
  import opened CanonicalListings
  import opened CanonicalPublications
  import opened RegistryAudit
  import opened CatalogTables
  import RegistrationServices

  // ---------------------------------------------------------------- reading one row

  function PeriodCalendar(row: PeriodRow): CalendarKey { row.calendar }

  function PeriodOf(row: PeriodRow): AcademicPeriod { row.period }

  function SourceRegistration(row: SourceRow): Reference { row.registration }

  function SourceOf(row: SourceRow): ModuleRecordRef { row.source }

  function CapabilityOwner(row: CapabilityRow): string { row.publicationId }

  function CapabilityOf(row: CapabilityRow): string { row.capability }

  predicate ByPosition(a: SourceRow, b: SourceRow) { a.position <= b.position }

  /** A row with a time that is not normalised text is an integrity error. */
  function ReadCalendar(t: TableContents, row: CalendarRow): Option<(Calendar, bool)> {
    var created, updated := ParseStamp(row.createdAtUtc), ParseStamp(row.updatedAtUtc);
    if created.None? || updated.None? then None
    else
      var periods := SortBy(Map(Group(t.periods, PeriodCalendar, row.key), PeriodOf), BySequence);
      // The calendar's constructor puts its periods in canonical order.
      Some((Calendar(row.key.schoolYear, row.key.revision, created.value, updated.value, SortBy(periods, ById)),
            row.isCurrent))
  }

  function ReadRegistration(t: TableContents, row: RegistrationRow): Option<(Registration, bool)> {
    var created, updated := ParseStamp(row.createdAtUtc), ParseStamp(row.updatedAtUtc);
    if created.None? || updated.None? then None
    else
      var sources := Map(SortBy(Group(t.sources, SourceRegistration, row.key), ByPosition), SourceOf);
      Some((RegistrationServices.Registration(
              RegistrationServices.Metadata(row.key.work, row.producerContractVersion, row.title, row.workKind,
                                            row.intent, row.lifecycle, sources),
              row.key.revision, created.value, updated.value), row.isCurrent))
  }

  datatype CatalogPublication = CatalogPublication(
    record: PublicationRecord,
    isSeriesHead: bool,
    isWithdrawn: bool,
    withdrawnAt: Option<int>,
    isCurrentSelectable: bool)

  function ReadPublication(t: TableContents, row: PublicationRow): Option<CatalogPublication> {
    var published := ParseStamp(row.publishedAtUtc);
    if published.None? || (row.withdrawnAtUtc.Some? && ParseStamp(row.withdrawnAtUtc.value).None?) then None
    else
      var capabilities := SortBy(Map(Group(t.capabilities, CapabilityOwner, row.publicationId), CapabilityOf), StrLe);
      Some(CatalogPublication(
        PublicationRecord(row.publicationId, row.work, row.sourceRecord, row.kind, capabilities, row.recordSetId,
                          row.recordSetRevision, row.manifestContractVersion, row.manifestPath, row.manifestDigest,
                          published.value, row.registrationRevision, row.supersedes),
        row.isSeriesHead, row.isWithdrawn,
        if row.withdrawnAtUtc.Some? then ParseStamp(row.withdrawnAtUtc.value) else None,
        row.isCurrentSelectable))
  }

  // -------------------------------------------------------------- each record returns

  lemma UtcRoundTrip(t: int)
    requires Representable(t)
    ensures ParseStamp(Utc(t)) == Some(t)
  {
    StampRoundTrip(t);
  }

  lemma CalendarKeysAgree(p: Projection)
    requires ProjectionSound(p)
    ensures KeysAgree(p.calendars, PeriodRowsOf, CalendarKeyOf, PeriodCalendar)
  {
    var u := CalendarHistories();
    forall i, j | 0 <= i < j < |p.calendars| ensures CalendarKeyOf(p.calendars[i]) != CalendarKeyOf(p.calendars[j]) {
      assert Before(u, StrLe, p.calendars[i].0, p.calendars[j].0);
    }
  }

  lemma RegistrationKeysAgree(p: Projection)
    requires ProjectionSound(p)
    ensures KeysAgree(p.registrations, SourceRowsOf, RegistrationKeyOf, SourceRegistration)
  {
    var u := RegistrationHistories();
    forall i, j | 0 <= i < j < |p.registrations|
      ensures RegistrationKeyOf(p.registrations[i]) != RegistrationKeyOf(p.registrations[j])
    {
      assert Before(u, WorkLe, p.registrations[i].0, p.registrations[j].0);
    }
  }

  lemma PublicationKeysAgree(p: Projection)
    requires ProjectionSound(p)
    ensures KeysAgree(p.publications, CapabilityRowsOf, RecordId, CapabilityOwner)
  {
  }

  lemma PeriodsReturn(p: Projection, i: nat)
    requires ProjectionSound(p) && WellFormed(p) && i < |p.calendars|
    ensures var item := p.calendars[i];
            SortBy(SortBy(Map(Group(TablesOf(p).periods, PeriodCalendar, CalendarKeyOf(item)), PeriodOf), BySequence),
                   ById)
            == item.0.periods
  {
    var item := p.calendars[i];
    assert CalendarWellFormed(item.0);
    CalendarKeysAgree(p);
    PeriodTableOf(p);
    hide ProjectionSound, WellFormed, TablesOf, SortBy;
    SelectInserted(p.calendars, PeriodRowsOf, CalendarKeyOf, PeriodCalendar, i);
    PeriodsOfRows(item);
    hide FlatMap, Group;
    CanonicalOrderReturns(item.0.periods);
  }

  lemma PeriodTableOf(p: Projection)
    ensures TablesOf(p).periods == FlatMap(p.calendars, PeriodRowsOf)
  {
  }

  lemma PeriodsOfRows(item: (Calendar, bool))
    ensures Map(PeriodRowsOf(item), PeriodOf) == item.0.periods
  {
  }

  lemma CalendarReturns(p: Projection, i: nat)
    requires ProjectionSound(p) && WellFormed(p) && Storable(p) && i < |p.calendars|
    ensures ReadCalendar(TablesOf(p), CalendarRowOf(p.calendars[i])) == Some(p.calendars[i])
  {
    var c := p.calendars[i].0;
    assert CalendarStorable(c);
    hide ProjectionSound, WellFormed, Storable, TablesOf, ParseStamp, Utc, Map, Group, SortBy;
    UtcRoundTrip(c.createdAt);
    UtcRoundTrip(c.updatedAt);
    PeriodsReturn(p, i);
  }

  /** Whatever order the periods come in, the constructor restores the canonical one. */
  lemma CanonicalOrderReturns(periods: seq<AcademicPeriod>)
    requires IdsUnique(periods) && Sorted(periods, ById)
    ensures SortBy(SortBy(periods, BySequence), ById) == periods
  {
    var s := SortBy(periods, BySequence);
    StrLeIsOrder();
    SortByContents(periods, BySequence);
    SortByContents(s, ById);
    SortBySorted(s, ById);
    forall i, j | 0 <= i < |periods| && 0 <= j < |periods| && ById(periods[i], periods[j])
      && ById(periods[j], periods[i])
      ensures periods[i] == periods[j]
    {
      StrLeAntisymmetric(periods[i].periodId, periods[j].periodId);
    }
    SortedUnique(periods, SortBy(s, ById), ById);
  }

  lemma SourcesReturn(p: Projection, i: nat)
    requires ProjectionSound(p) && i < |p.registrations|
    ensures var r := p.registrations[i].0;
            Map(SortBy(Group(TablesOf(p).sources, SourceRegistration, Refer(r)), ByPosition), SourceOf)
            == r.metadata.sourceRecords
  {
    var item := p.registrations[i];
    RegistrationKeysAgree(p);
    SelectInserted(p.registrations, SourceRowsOf, RegistrationKeyOf, SourceRegistration, i);
    hide ProjectionSound, Group, FlatMap;
    AlreadyOrdered(SourceRowsOf(item), ByPosition);
    assert Map(SourceRowsOf(item), SourceOf) == item.0.metadata.sourceRecords;
  }

  lemma RegistrationReturns(p: Projection, i: nat)
    requires ProjectionSound(p) && WellFormed(p) && Storable(p) && i < |p.registrations|
    ensures ReadRegistration(TablesOf(p), RegistrationRowOf(p.registrations[i])) == Some(p.registrations[i])
  {
    var r := p.registrations[i].0;
    assert RegistrationStorable(r);
    hide ProjectionSound, WellFormed, Storable, TablesOf, ParseStamp, Utc, Map, Group, SortBy;
    UtcRoundTrip(r.createdAt);
    UtcRoundTrip(r.updatedAt);
    SourcesReturn(p, i);
  }

  function Flags(p: Projection, r: PublicationRecord): CatalogPublication {
    var withdrawal := WithdrawalOf(p.withdrawals, r.publicationId);
    CatalogPublication(r, r.publicationId in p.heads, withdrawal.Some?,
                       if withdrawal.Some? then Some(withdrawal.value.withdrawnAt) else None,
                       r.publicationId in p.heads && withdrawal.None?)
  }

  lemma CapabilitiesReturn(p: Projection, i: nat)
    requires ProjectionSound(p) && WellFormed(p) && i < |p.publications|
    ensures var r := p.publications[i];
            SortBy(Map(Group(TablesOf(p).capabilities, CapabilityOwner, r.publicationId), CapabilityOf), StrLe)
            == r.capabilities
  {
    var r := p.publications[i];
    assert PublicationWellFormed(r);
    PublicationKeysAgree(p);
    SelectInserted(p.publications, CapabilityRowsOf, RecordId, CapabilityOwner, i);
    hide ProjectionSound, WellFormed, Group, FlatMap, SortBy;
    assert Map(CapabilityRowsOf(r), CapabilityOf) == r.capabilities;
    StrLeIsOrder();
    AlreadyOrdered(r.capabilities, StrLe);
  }

  lemma RowReturns(t: TableContents, r: PublicationRecord, head: bool, withdrawal: Option<PublicationWithdrawal>)
    requires Representable(r.publishedAt) && (withdrawal.Some? ==> Representable(withdrawal.value.withdrawnAt))
    requires SortBy(Map(Group(t.capabilities, CapabilityOwner, r.publicationId), CapabilityOf), StrLe) == r.capabilities
    ensures ReadPublication(t, PublicationRowOf(r, head, withdrawal))
         == Some(CatalogPublication(r, head, withdrawal.Some?,
                                    if withdrawal.Some? then Some(withdrawal.value.withdrawnAt) else None,
                                    head && withdrawal.None?))
  {
    UtcRoundTrip(r.publishedAt);
    if withdrawal.Some? { UtcRoundTrip(withdrawal.value.withdrawnAt); }
    hide ParseStamp, Utc, Map, Group, SortBy;
  }

  lemma PublicationReturns(p: Projection, i: nat)
    requires ProjectionSound(p) && WellFormed(p) && Storable(p) && i < |p.publications|
    ensures ReadPublication(TablesOf(p), RowIn(p)(p.publications[i])) == Some(Flags(p, p.publications[i]))
  {
    var r := p.publications[i];
    assert PublicationWellFormed(r) && PublicationStorable(r, WithdrawalOf(p.withdrawals, r.publicationId));
    CapabilitiesReturn(p, i);
    hide ProjectionSound, WellFormed, Storable, TablesOf, WithdrawalOf, ReadPublication, PublicationRowOf, SortBy;
    RowReturns(TablesOf(p), r, r.publicationId in p.heads, WithdrawalOf(p.withdrawals, r.publicationId));
  }

  lemma {:induction false} WithdrawalFound(withdrawals: seq<PublicationWithdrawal>, id: string)
    ensures var d := WithdrawalOf(withdrawals, id);
            && (d.Some? ==> d.value in withdrawals && d.value.publicationId == id
                            && exists k :: 0 <= k < |withdrawals| && withdrawals[k] == d.value)
            && (d.Some? <==> exists x :: x in withdrawals && x.publicationId == id)
  {
    if withdrawals != [] {
      WithdrawalFound(withdrawals[1..], id);
      assert forall x :: x in withdrawals <==> x == withdrawals[0] || x in withdrawals[1..];
      assert withdrawals[0] in withdrawals;
    }
  }

  // --------------------------------------------------------- the whole projection back

  predicate CalendarRowLe(a: CalendarRow, b: CalendarRow) {
    if a.key.schoolYear == b.key.schoolYear then a.key.revision <= b.key.revision
    else StrLe(a.key.schoolYear, b.key.schoolYear)
  }

  predicate RegistrationRowLe(a: RegistrationRow, b: RegistrationRow) {
    if a.key.work == b.key.work then a.key.revision <= b.key.revision else WorkLe(a.key.work, b.key.work)
  }

  predicate PublicationRowLe(a: PublicationRow, b: PublicationRow) { StrLe(a.publicationId, b.publicationId) }

  /** Every row read, in order; one malformed row makes the whole read an integrity error. */
  method ReadAll<R, T>(rows: seq<R>, read: R -> Option<T>) returns (items: Option<seq<T>>)
    ensures ReadFrom(rows, read, items)
  {
    var got: seq<T> := [];
    for i := 0 to |rows|
      invariant |got| == i && forall k :: 0 <= k < i ==> read(rows[k]) == Some(got[k])
    {
      var item := read(rows[i]);
      if item.None? { return None; }
      got := got + [item.value];
    }
    return Some(got);
  }

  lemma RowsStayOrdered(p: Projection)
    requires ProjectionSound(p)
    ensures SortBy(TablesOf(p).calendars, CalendarRowLe) == TablesOf(p).calendars
    ensures SortBy(TablesOf(p).registrations, RegistrationRowLe) == TablesOf(p).registrations
    ensures SortBy(TablesOf(p).publications, PublicationRowLe) == TablesOf(p).publications
  {
    StrLeIsOrder();
    WorkLeIsOrder();
    CalendarRowsOrdered(p);
    RegistrationRowsOrdered(p);
    PublicationRowsOrdered(p);
  }

  lemma CalendarRowsOrdered(p: Projection)
    requires ProjectionSound(p)
    ensures SortBy(Map(p.calendars, CalendarRowOf), CalendarRowLe) == Map(p.calendars, CalendarRowOf)
  {
    StrLeIsOrder();
    var rows := Map(p.calendars, CalendarRowOf);
    forall i, j | 0 <= i < j < |rows| ensures CalendarRowLe(rows[i], rows[j]) && !CalendarRowLe(rows[j], rows[i]) {
      assert Before(CalendarHistories(), StrLe, p.calendars[i].0, p.calendars[j].0);
    }
    AlreadyOrdered(rows, CalendarRowLe);
  }

  lemma RegistrationRowsOrdered(p: Projection)
    requires ProjectionSound(p)
    ensures SortBy(Map(p.registrations, RegistrationRowOf), RegistrationRowLe)
            == Map(p.registrations, RegistrationRowOf)
  {
    hide WorkLe, StrictlyBy, CollectionsSound, HeadOf, SortBy;
    WorkLeIsOrder();
    var rows := Map(p.registrations, RegistrationRowOf);
    forall i, j | 0 <= i < j < |rows|
      ensures RegistrationRowLe(rows[i], rows[j]) && !RegistrationRowLe(rows[j], rows[i])
    {
      assert Before(RegistrationHistories(), WorkLe, p.registrations[i].0, p.registrations[j].0);
      RegistrationRowsInOrder(p.registrations[i], p.registrations[j]);
    }
    AlreadyOrdered(rows, RegistrationRowLe);
  }

  lemma RegistrationRowsInOrder(a: (Registration, bool), b: (Registration, bool))
    requires Before(RegistrationHistories(), WorkLe, a.0, b.0) && Antisymmetric(WorkLe)
    ensures RegistrationRowLe(RegistrationRowOf(a), RegistrationRowOf(b))
    ensures !RegistrationRowLe(RegistrationRowOf(b), RegistrationRowOf(a))
  {
    hide WorkLe;
  }

  lemma PublicationRowsOrdered(p: Projection)
    requires ProjectionSound(p)
    ensures SortBy(Map(p.publications, RowIn(p)), PublicationRowLe) == Map(p.publications, RowIn(p))
  {
    StrLeIsOrder();
    var rows := Map(p.publications, RowIn(p));
    forall i, j | 0 <= i < j < |rows|
      ensures PublicationRowLe(rows[i], rows[j]) && !PublicationRowLe(rows[j], rows[i])
    {
      assert RecordId(p.publications[i]) != RecordId(p.publications[j]);
    }
    AlreadyOrdered(rows, PublicationRowLe);
  }

  datatype ReadResult = ReadResult(
    calendars: Option<seq<(Calendar, bool)>>,
    registrations: Option<seq<(Registration, bool)>>,
    publications: Option<seq<CatalogPublication>>)

  /** What reading the tables of a projection must return. */
  function Everything(p: Projection): ReadResult {
    ReadResult(Some(p.calendars), Some(p.registrations),
               Some(seq(|p.publications|, i requires 0 <= i < |p.publications| => Flags(p, p.publications[i]))))
  }

  ghost predicate ReadFrom<R, T>(rows: seq<R>, read: R -> Option<T>, items: Option<seq<T>>) {
    && (items.Some? <==> forall i :: 0 <= i < |rows| ==> read(rows[i]).Some?)
    && (items.Some? ==> |items.value| == |rows| && forall i :: 0 <= i < |rows| ==>
        read(rows[i]) == Some(items.value[i]))
  }

  lemma AllReturn<R, T>(rows: seq<R>, read: R -> Option<T>, items: Option<seq<T>>, expected: seq<T>)
    requires ReadFrom(rows, read, items) && |expected| == |rows|
    requires forall i :: 0 <= i < |rows| ==> read(rows[i]) == Some(expected[i])
    ensures items == Some(expected)
  {
    assert items.value == expected;
  }

  /** The three `SELECT ... ORDER BY` reads of the semantic verification. */
  method ReadTables(t: TableContents) returns (r: ReadResult)
    ensures forall p :: FilledBy(t, p) ==> r == Everything(p)
  {
    var calendarRows := SortBy(t.calendars, CalendarRowLe);
    var readCalendar := (row: CalendarRow) => ReadCalendar(t, row);
    var calendars := ReadAll(calendarRows, readCalendar);
    var registrationRows := SortBy(t.registrations, RegistrationRowLe);
    var readRegistration := (row: RegistrationRow) => ReadRegistration(t, row);
    var registrations := ReadAll(registrationRows, readRegistration);
    var publicationRows := SortBy(t.publications, PublicationRowLe);
    var readPublication := (row: PublicationRow) => ReadPublication(t, row);
    var publications := ReadAll(publicationRows, readPublication);
    r := ReadResult(calendars, registrations, publications);
    hide TablesOf, ReadCalendar, ReadRegistration, ReadPublication, ProjectionSound, WellFormed, Storable, SortBy;
    forall p | FilledBy(t, p) ensures r == Everything(p) {
      CalendarsReturn(p, readCalendar, calendars);
      RegistrationsReturn(p, readRegistration, registrations);
      PublicationsReturn(p, readPublication, publications);
    }
  }

  lemma CalendarsReturn(p: Projection, read: CalendarRow -> Option<(Calendar, bool)>,
                        items: Option<seq<(Calendar, bool)>>)
    requires ProjectionSound(p) && WellFormed(p) && Storable(p)
    requires forall row :: read(row) == ReadCalendar(TablesOf(p), row)
    requires ReadFrom(SortBy(TablesOf(p).calendars, CalendarRowLe), read, items)
    ensures items == Some(p.calendars)
  {
    hide ProjectionSound, WellFormed, Storable, ReadCalendar, ReadFrom, SortBy;
    RowsStayOrdered(p);
    forall i | 0 <= i < |p.calendars| ensures read(TablesOf(p).calendars[i]) == Some(p.calendars[i]) {
      CalendarReturns(p, i);
    }
    AllReturn(TablesOf(p).calendars, read, items, p.calendars);
  }

  lemma RegistrationsReturn(p: Projection, read: RegistrationRow -> Option<(Registration, bool)>,
                            items: Option<seq<(Registration, bool)>>)
    requires ProjectionSound(p) && WellFormed(p) && Storable(p)
    requires forall row :: read(row) == ReadRegistration(TablesOf(p), row)
    requires ReadFrom(SortBy(TablesOf(p).registrations, RegistrationRowLe), read, items)
    ensures items == Some(p.registrations)
  {
    hide ProjectionSound, WellFormed, Storable, ReadRegistration, ReadFrom, SortBy;
    RowsStayOrdered(p);
    forall i | 0 <= i < |p.registrations| ensures read(TablesOf(p).registrations[i]) == Some(p.registrations[i]) {
      RegistrationReturns(p, i);
    }
    AllReturn(TablesOf(p).registrations, read, items, p.registrations);
  }

  lemma PublicationsReturn(p: Projection, read: PublicationRow -> Option<CatalogPublication>,
                           items: Option<seq<CatalogPublication>>)
    requires ProjectionSound(p) && WellFormed(p) && Storable(p)
    requires forall row :: read(row) == ReadPublication(TablesOf(p), row)
    requires ReadFrom(SortBy(TablesOf(p).publications, PublicationRowLe), read, items)
    ensures items == Everything(p).publications
  {
    hide ProjectionSound, WellFormed, Storable, ReadPublication, ReadFrom, SortBy;
    RowsStayOrdered(p);
    forall i | 0 <= i < |p.publications|
      ensures read(TablesOf(p).publications[i]) == Some(Flags(p, p.publications[i]))
    {
      PublicationReturns(p, i);
    }
    AllReturn(TablesOf(p).publications, read, items, Everything(p).publications.value);
  }

  /**
   A projection inserted into a fresh catalog and read back is the same projection. The
   insertion fails, and there is nothing to read, exactly when some integer or time of the
   projection cannot be held.
   */
  method InsertThenRead(p: Projection) returns (r: Option<ReadResult>)
    requires ProjectionSound(p) && WellFormed(p)
    ensures r == if Storable(p) then Some(Everything(p)) else None
  {
    var db := new Database();
    var ok := db.InsertTransaction(p);
    if !ok { return None; }
    assert FilledBy(db.Tables(), p);
    var read := ReadTables(db.Tables());
    return Some(read);
  }
}
