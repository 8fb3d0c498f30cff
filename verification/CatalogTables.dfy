/** The catalog's tables, the insertion of a projection into them, and reading it back. */
module CatalogTables {
  import opened Foundations
  import opened UtcText
  import opened Tables
  import opened PublicationRecords
  import opened AcademicPeriods
  import opened CanonicalPublications
  import opened RegistryAudit
  import RegistrationServices

  // ------------------------------------------------------------------------ rows

  datatype CalendarKey = CalendarKey(schoolYear: string, revision: int)

  datatype CalendarRow =
    CalendarRow(key: CalendarKey, createdAtUtc: string, updatedAtUtc: string, isCurrent: bool)

  datatype PeriodRow = PeriodRow(calendar: CalendarKey, period: AcademicPeriod)

  datatype RegistrationRow = RegistrationRow(
    key: Reference,
    producerContractVersion: string,
    title: string,
    workKind: string,
    intent: string,
    lifecycle: string,
    createdAtUtc: string,
    updatedAtUtc: string,
    isCurrent: bool)

  datatype SourceRow = SourceRow(registration: Reference, position: nat, source: ModuleRecordRef)

  datatype PublicationRow = PublicationRow(
    publicationId: string,
    work: ModuleWorkRef,
    sourceRecord: Option<ModuleRecordRef>,
    kind: PublicationKind,
    recordSetId: string,
    recordSetRevision: int,
    manifestContractVersion: string,
    manifestPath: string,
    manifestDigest: string,
    publishedAtUtc: string,
    registrationRevision: Option<int>,
    supersedes: Option<string>,
    isSeriesHead: bool,
    isWithdrawn: bool,
    withdrawnAtUtc: Option<string>,
    isCurrentSelectable: bool)

  datatype CapabilityRow = CapabilityRow(publicationId: string, capability: string)

  datatype TableContents = TableContents(
    calendars: seq<CalendarRow>,
    periods: seq<PeriodRow>,
    registrations: seq<RegistrationRow>,
    sources: seq<SourceRow>,
    publications: seq<PublicationRow>,
    capabilities: seq<CapabilityRow>)

  const EMPTY_TABLES := TableContents([], [], [], [], [], [])

  // --------------------------------------------------------------- canonical values

  /** What record constructors establish of a record's lists. */
  ghost predicate WellFormed(p: Projection) {
    && (forall i :: 0 <= i < |p.calendars| ==> CalendarWellFormed(p.calendars[i].0))
    && (forall i :: 0 <= i < |p.publications| ==> PublicationWellFormed(p.publications[i]))
  }

  ghost predicate CalendarWellFormed(c: Calendar) {
    IdsUnique(c.periods) && Sorted(c.periods, ById) && Closed(IndexOf(c.periods))
  }

  ghost predicate PublicationWellFormed(r: PublicationRecord) {
    && Distinct(r.capabilities) && Sorted(r.capabilities, StrLe)
    && (r.kind.AcademicResultSet? <==> r.registrationRevision.Some?)
  }

  // ------------------------------------------------------------- what SQLite can hold

  const LIMIT64: int := 0x8000000000000000

  /** SQLite integers have 64 bits; a larger Python integer cannot be bound to a column or parameter. */
  predicate Fits64(n: int) { -LIMIT64 <= n < LIMIT64 }

  predicate CalendarStorable(c: Calendar) {
    && Representable(c.createdAt) && Representable(c.updatedAt) && Fits64(c.revision)
    && (forall i :: 0 <= i < |c.periods| ==> Fits64(c.periods[i].sequence))
  }

  predicate RegistrationStorable(r: Registration) {
    Representable(r.createdAt) && Representable(r.updatedAt) && Fits64(r.revision)
      && |r.metadata.sourceRecords| <= LIMIT64
  }

  predicate PublicationStorable(r: PublicationRecord, withdrawal: Option<PublicationWithdrawal>) {
    && Representable(r.publishedAt) && Fits64(r.recordSetRevision)
    && (r.registrationRevision.Some? ==> Fits64(r.registrationRevision.value))
    && (withdrawal.Some? ==> Representable(withdrawal.value.withdrawnAt))
  }

  /** Every integer has 64 bits and every time can be written in UTC. The records' constructors demand neither. */
  ghost predicate Storable(p: Projection) {
    && (forall i :: 0 <= i < |p.calendars| ==> CalendarStorable(p.calendars[i].0))
    && (forall i :: 0 <= i < |p.registrations| ==> RegistrationStorable(p.registrations[i].0))
    && (forall i :: 0 <= i < |p.publications| ==>
          PublicationStorable(p.publications[i], WithdrawalOf(p.withdrawals, p.publications[i].publicationId)))
  }

  // ------------------------------------------------------------- one record's rows

  /** Text for a time; only times that can be written in UTC reach a row. */
  function Utc(t: int): string { if Representable(t) then Stamp(t) else "" }

  function CalendarKeyOf(item: (Calendar, bool)): CalendarKey { CalendarKey(item.0.schoolYear, item.0.revision) }

  function CalendarRowOf(item: (Calendar, bool)): CalendarRow {
    CalendarRow(CalendarKeyOf(item), Utc(item.0.createdAt), Utc(item.0.updatedAt), item.1)
  }

  function PeriodRowsOf(item: (Calendar, bool)): seq<PeriodRow> {
    seq(|item.0.periods|, i requires 0 <= i < |item.0.periods| => PeriodRow(CalendarKeyOf(item), item.0.periods[i]))
  }

  function RegistrationKeyOf(item: (Registration, bool)): Reference { Refer(item.0) }

  function RegistrationRowOf(item: (Registration, bool)): RegistrationRow {
    var r := item.0;
    RegistrationRow(Refer(r), r.metadata.producerContractVersion, r.metadata.title, r.metadata.workKind,
                    r.metadata.intent, r.metadata.lifecycle, Utc(r.createdAt), Utc(r.updatedAt), item.1)
  }

  function SourceRowsOf(item: (Registration, bool)): seq<SourceRow> {
    var sources := item.0.metadata.sourceRecords;
    seq(|sources|, i requires 0 <= i < |sources| => SourceRow(Refer(item.0), i, sources[i]))
  }

  function WithdrawalOf(withdrawals: seq<PublicationWithdrawal>, id: string): Option<PublicationWithdrawal> {
    if withdrawals == [] then None
    else if withdrawals[0].publicationId == id then Some(withdrawals[0])
    else WithdrawalOf(withdrawals[1..], id)
  }

  function PublicationRowOf(r: PublicationRecord, head: bool,
                            withdrawal: Option<PublicationWithdrawal>): PublicationRow {
    PublicationRow(r.publicationId, r.work, r.sourceRecord, r.kind, r.recordSetId, r.recordSetRevision,
                   r.manifestContractVersion, r.manifestPath, r.manifestDigest, Utc(r.publishedAt),
                   r.registrationRevision, r.supersedes, head, withdrawal.Some?,
                   if withdrawal.Some? then Some(Utc(withdrawal.value.withdrawnAt)) else None,
                   head && withdrawal.None?)
  }

  function CapabilityRowsOf(r: PublicationRecord): seq<CapabilityRow> {
    seq(|r.capabilities|, i requires 0 <= i < |r.capabilities| => CapabilityRow(r.publicationId, r.capabilities[i]))
  }

  function RowIn(p: Projection): PublicationRecord -> PublicationRow {
    (r: PublicationRecord) => PublicationRowOf(r, r.publicationId in p.heads,
                                               WithdrawalOf(p.withdrawals, r.publicationId))
  }

  /** The tables a projection fills. */
  function TablesOf(p: Projection): TableContents {
    TableContents(Map(p.calendars, CalendarRowOf), FlatMap(p.calendars, PeriodRowsOf),
             Map(p.registrations, RegistrationRowOf), FlatMap(p.registrations, SourceRowsOf),
             Map(p.publications, RowIn(p)), FlatMap(p.publications, CapabilityRowsOf))
  }

  /** The tables hold the rows of a sound projection and nothing else. */
  ghost predicate FilledBy(t: TableContents, p: Projection) {
    ProjectionSound(p) && WellFormed(p) && Storable(p) && t == TablesOf(p)
  }

  // ------------------------------------------------------------------- the database

  class Database {
    var calendars: seq<CalendarRow>
    var periods: seq<PeriodRow>
    var registrations: seq<RegistrationRow>
    var sources: seq<SourceRow>
    var publications: seq<PublicationRow>
    var capabilities: seq<CapabilityRow>

    constructor ()
      ensures Tables() == EMPTY_TABLES
    {
      calendars, periods, registrations, sources, publications, capabilities := [], [], [], [], [], [];
    }

    function Tables(): TableContents
      reads this
    {
      TableContents(calendars, periods, registrations, sources, publications, capabilities)
    }

    /** A time or an integer the database cannot hold ends the insertion with an overflow error. */
    method InsertCalendar(item: (Calendar, bool)) returns (ok: bool)
      modifies this`calendars, this`periods
      ensures ok <==> CalendarStorable(item.0)
      ensures ok ==> calendars == old(calendars) + [CalendarRowOf(item)] && periods == old(periods) + PeriodRowsOf(item)
    {
      var c := item.0;
      if !Representable(c.createdAt) || !Representable(c.updatedAt) || !Fits64(c.revision) { return false; }
      calendars := calendars + [CalendarRowOf(item)];
      for i := 0 to |c.periods|
        invariant calendars == old(calendars) + [CalendarRowOf(item)]
        invariant periods == old(periods) + PeriodRowsOf(item)[..i]
        invariant forall k :: 0 <= k < i ==> Fits64(c.periods[k].sequence)
      {
        if !Fits64(c.periods[i].sequence) { return false; }
        var row := PeriodRow(CalendarKeyOf(item), c.periods[i]);
        assert PeriodRowsOf(item)[..i + 1] == PeriodRowsOf(item)[..i] + [row];
        periods := periods + [row];
      }
      return true;
    }

    method InsertRegistration(item: (Registration, bool)) returns (ok: bool)
      modifies this`registrations, this`sources
      ensures ok <==> RegistrationStorable(item.0)
      ensures ok ==>
                registrations == old(registrations) + [RegistrationRowOf(item)]
                  && sources == old(sources) + SourceRowsOf(item)
    {
      var r := item.0;
      if !Representable(r.createdAt) || !Representable(r.updatedAt) || !Fits64(r.revision) { return false; }
      registrations := registrations + [RegistrationRowOf(item)];
      var records := r.metadata.sourceRecords;
      for i := 0 to |records|
        invariant registrations == old(registrations) + [RegistrationRowOf(item)]
        invariant sources == old(sources) + SourceRowsOf(item)[..i]
        invariant i <= LIMIT64
      {
        if !Fits64(i) { return false; }
        var row := SourceRow(Refer(r), i, records[i]);
        assert SourceRowsOf(item)[..i + 1] == SourceRowsOf(item)[..i] + [row];
        sources := sources + [row];
      }
      return true;
    }

    method InsertPublication(r: PublicationRecord, head: bool, withdrawal: Option<PublicationWithdrawal>)
      returns (ok: bool)
      modifies this`publications, this`capabilities
      ensures ok <==> PublicationStorable(r, withdrawal)
      ensures ok ==>
                && publications == old(publications) + [PublicationRowOf(r, head, withdrawal)]
                && capabilities == old(capabilities) + CapabilityRowsOf(r)
    {
      hide PublicationRowOf;
      if !Representable(r.publishedAt) || !Fits64(r.recordSetRevision) { return false; }
      if r.registrationRevision.Some? && !Fits64(r.registrationRevision.value) { return false; }
      if withdrawal.Some? && !Representable(withdrawal.value.withdrawnAt) { return false; }
      publications := publications + [PublicationRowOf(r, head, withdrawal)];
      for i := 0 to |r.capabilities|
        invariant publications == old(publications) + [PublicationRowOf(r, head, withdrawal)]
        invariant capabilities == old(capabilities) + CapabilityRowsOf(r)[..i]
      {
        var row := CapabilityRow(r.publicationId, r.capabilities[i]);
        assert CapabilityRowsOf(r)[..i + 1] == CapabilityRowsOf(r)[..i] + [row];
        capabilities := capabilities + [row];
      }
      return true;
    }

    /**
     `_insert_projection` into a fresh database: it goes through exactly when every integer and
     every time of the projection can be held, and then the tables are the projection's.
     */
    method InsertProjection(p: Projection) returns (ok: bool)
      requires Tables() == EMPTY_TABLES
      modifies this
      ensures ok <==> Storable(p)
      ensures ok ==> Tables() == TablesOf(p)
    {
      hide CalendarStorable, RegistrationStorable, PublicationStorable, CalendarRowOf, PeriodRowsOf, RegistrationRowOf,
           SourceRowsOf, CapabilityRowsOf, PublicationRowOf, WithdrawalOf;
      ok := InsertCalendars(p.calendars);
      if !ok { return; }
      ok := InsertRegistrations(p.registrations);
      if !ok { return; }
      var rowOf := RowIn(p);
      for i := 0 to |p.publications|
        invariant calendars == Map(p.calendars, CalendarRowOf) && periods == FlatMap(p.calendars, PeriodRowsOf)
        invariant registrations == Map(p.registrations, RegistrationRowOf)
        invariant sources == FlatMap(p.registrations, SourceRowsOf)
        invariant publications == Map(p.publications[..i], rowOf)
        invariant capabilities == FlatMap(p.publications[..i], CapabilityRowsOf)
        invariant forall k :: 0 <= k < i ==>
                    PublicationStorable(p.publications[k], WithdrawalOf(p.withdrawals, p.publications[k].publicationId))
      {
        OneMoreItem(p.publications, rowOf, CapabilityRowsOf, i);
        var r := p.publications[i];
        ok := InsertPublication(r, r.publicationId in p.heads, WithdrawalOf(p.withdrawals, r.publicationId));
        if !ok { return; }
      }
      assert p.publications[..|p.publications|] == p.publications;
      ok := true;
    }

    method InsertCalendars(items: seq<(Calendar, bool)>) returns (ok: bool)
      requires calendars == [] && periods == []
      modifies this`calendars, this`periods
      ensures ok <==> forall i :: 0 <= i < |items| ==> CalendarStorable(items[i].0)
      ensures ok ==> calendars == Map(items, CalendarRowOf) && periods == FlatMap(items, PeriodRowsOf)
    {
      hide CalendarStorable, CalendarRowOf, PeriodRowsOf;
      for i := 0 to |items|
        invariant calendars == Map(items[..i], CalendarRowOf) && periods == FlatMap(items[..i], PeriodRowsOf)
        invariant forall k :: 0 <= k < i ==> CalendarStorable(items[k].0)
      {
        OneMoreItem(items, CalendarRowOf, PeriodRowsOf, i);
        ok := InsertCalendar(items[i]);
        if !ok { return; }
      }
      assert items[..|items|] == items;
      ok := true;
    }

    method InsertRegistrations(items: seq<(Registration, bool)>) returns (ok: bool)
      requires registrations == [] && sources == []
      modifies this`registrations, this`sources
      ensures ok <==> forall i :: 0 <= i < |items| ==> RegistrationStorable(items[i].0)
      ensures ok ==> registrations == Map(items, RegistrationRowOf) && sources == FlatMap(items, SourceRowsOf)
    {
      hide RegistrationStorable, RegistrationRowOf, SourceRowsOf;
      for i := 0 to |items|
        invariant registrations == Map(items[..i], RegistrationRowOf) && sources == FlatMap(items[..i], SourceRowsOf)
        invariant forall k :: 0 <= k < i ==> RegistrationStorable(items[k].0)
      {
        OneMoreItem(items, RegistrationRowOf, SourceRowsOf, i);
        ok := InsertRegistration(items[i]);
        if !ok { return; }
      }
      assert items[..|items|] == items;
      ok := true;
    }

    /** The insertion as one transaction: it fills the tables, or is rolled back. */
    method InsertTransaction(p: Projection) returns (ok: bool)
      requires Tables() == EMPTY_TABLES
      modifies this
      ensures ok <==> Storable(p)
      ensures Tables() == if ok then TablesOf(p) else EMPTY_TABLES
    {
      ok := InsertProjection(p);
      if !ok { calendars, periods, registrations, sources, publications, capabilities := [], [], [], [], [], []; }
    }
  }

  lemma OneMoreItem<S, T, D>(items: seq<S>, f: S -> T, g: S -> seq<D>, i: nat)
    requires i < |items|
    ensures Map(items[..i + 1], f) == Map(items[..i], f) + [f(items[i])]
    ensures FlatMap(items[..i + 1], g) == FlatMap(items[..i], g) + g(items[i])
  {
    assert items[..i + 1][..i] == items[..i];
  }
}
