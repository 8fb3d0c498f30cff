/**
 The academic-period and registration queries over the tables, and what they answer in terms of
 the canonical records.
 */
module CatalogDiscovery {
  import opened Foundations
  import opened UtcText
  import opened Tables
  import opened AcademicPeriods
  import opened AcademicPeriodQueries
  import opened RegistryAudit
  import opened CanonicalPublications
  import opened CatalogTables
  import opened CatalogReadBack
  import opened CatalogQueries

  // ------------------------------------------------------------------------ periods

  datatype PeriodQuery = PeriodQuery(
    schoolYear: Option<string>,
    periodType: Option<string>,
    lifecycle: Option<string>,
    currentCalendarOnly: bool,
    activeOn: Option<Date>,
    limit: Option<nat>,
    offset: nat)

  datatype CatalogPeriod = CatalogPeriod(
    calendar: CalendarKey, createdAt: int, updatedAt: int, isCurrent: bool, period: AcademicPeriod)

  predicate PeriodWanted(q: PeriodQuery, key: CalendarKey, isCurrent: bool, period: AcademicPeriod) {
    && Narrows(q.schoolYear, key.schoolYear) && Narrows(q.periodType, period.periodType)
    && Narrows(q.lifecycle, period.lifecycle) && (q.currentCalendarOnly ==> isCurrent)
    && (q.activeOn.Some? ==> ContainsDate(period, q.activeOn.value))
  }

  /** `ORDER BY school_year, calendar_revision, sequence, period_id`. */
  predicate PeriodLe(a: PeriodRow, b: PeriodRow) {
    if a.calendar.schoolYear != b.calendar.schoolYear then StrLe(a.calendar.schoolYear, b.calendar.schoolYear)
    else if a.calendar.revision != b.calendar.revision then a.calendar.revision < b.calendar.revision
    else BySequence(a.period, b.period)
  }

  function JoinCalendar(rows: seq<CalendarRow>, key: CalendarKey): Option<CalendarRow> {
    if rows == [] then None else if rows[0].key == key then Some(rows[0]) else JoinCalendar(rows[1..], key)
  }

  predicate PeriodRowMatches(t: TableContents, q: PeriodQuery, row: PeriodRow) {
    var calendar := JoinCalendar(t.calendars, row.calendar);
    calendar.Some? && PeriodWanted(q, row.calendar, calendar.value.isCurrent, row.period)
  }

  function SelectedPeriods(t: TableContents, q: PeriodQuery): seq<PeriodRow> {
    Page(SortBy(Filter(t.periods, (row: PeriodRow) => PeriodRowMatches(t, q, row)), PeriodLe), q.limit, q.offset)
  }

  /** `_period_row` over the joined columns. */
  function ReadPeriod(t: TableContents, row: PeriodRow): Option<CatalogPeriod> {
    var calendar := JoinCalendar(t.calendars, row.calendar);
    if calendar.None? then None
    else
      var created, updated := ParseStamp(calendar.value.createdAtUtc), ParseStamp(calendar.value.updatedAtUtc);
      if created.None? || updated.None? then None
      else Some(CatalogPeriod(row.calendar, created.value, updated.value, calendar.value.isCurrent, row.period))
  }

  method QueryPeriods(t: TableContents, q: PeriodQuery) returns (answer: Result<seq<CatalogPeriod>, QueryError>)
    ensures answer == Failure(Overflowed) <==> !BindablePage(q.limit, q.offset)
    ensures BindablePage(q.limit, q.offset) ==>
              ReadFrom(SelectedPeriods(t, q), (row: PeriodRow) => ReadPeriod(t, row), answer.ToOption())
  {
    if !BindablePage(q.limit, q.offset) { return Failure(Overflowed); }
    var read := ReadAll(SelectedPeriods(t, q), (row: PeriodRow) => ReadPeriod(t, row));
    return if read.Some? then Success(read.value) else Failure(InvalidRow);
  }

  /** A period of a selected or superseded calendar revision. */
  type Placed = ((Calendar, bool), AcademicPeriod)

  function PlacedIn(item: (Calendar, bool)): seq<Placed> {
    seq(|item.0.periods|, i requires 0 <= i < |item.0.periods| => (item, item.0.periods[i]))
  }

  function AllPlaced(p: Projection): seq<Placed> { FlatMap(p.calendars, PlacedIn) }

  function RowOfPlaced(x: Placed): PeriodRow { PeriodRow(CalendarKeyOf(x.0), x.1) }

  function EntryOfPlaced(x: Placed): CatalogPeriod {
    CatalogPeriod(CalendarKeyOf(x.0), x.0.0.createdAt, x.0.0.updatedAt, x.0.1, x.1)
  }

  predicate PlacedWanted(q: PeriodQuery, x: Placed) { PeriodWanted(q, CalendarKeyOf(x.0), x.0.1, x.1) }

  predicate PlacedLe(a: Placed, b: Placed) { PeriodLe(RowOfPlaced(a), RowOfPlaced(b)) }

  function PeriodPage(p: Projection, q: PeriodQuery): seq<Placed> {
    Page(SortBy(Filter(AllPlaced(p), (x: Placed) => PlacedWanted(q, x)), PlacedLe), q.limit, q.offset)
  }

  lemma MapConcat<S, T>(a: seq<S>, b: seq<S>, f: S -> T)
    ensures Map(a + b, f) == Map(a, f) + Map(b, f)
  {
  }

  lemma {:induction false} PeriodTable(items: seq<(Calendar, bool)>)
    ensures FlatMap(items, PeriodRowsOf) == Map(FlatMap(items, PlacedIn), RowOfPlaced)
  {
    if items != [] {
      var n := |items| - 1;
      PeriodTable(items[..n]);
      MapConcat(FlatMap(items[..n], PlacedIn), PlacedIn(items[n]), RowOfPlaced);
      assert Map(PlacedIn(items[n]), RowOfPlaced) == PeriodRowsOf(items[n]);
    }
  }

  lemma {:induction false} JoinCalendarFinds(items: seq<(Calendar, bool)>, i: nat)
    requires i < |items|
    requires forall a, b :: 0 <= a < b < |items| ==> CalendarKeyOf(items[a]) != CalendarKeyOf(items[b])
    ensures JoinCalendar(Map(items, CalendarRowOf), CalendarKeyOf(items[i])) == Some(CalendarRowOf(items[i]))
  {
    assert Map(items, CalendarRowOf)[0].key == CalendarKeyOf(items[0]);
    if i > 0 {
      JoinCalendarFinds(items[1..], i - 1);
      MapTail(items, CalendarRowOf);
    }
  }

  lemma PlacedCalendar(p: Projection, x: Placed)
    requires ProjectionSound(p) && x in AllPlaced(p)
    ensures JoinCalendar(TablesOf(p).calendars, CalendarKeyOf(x.0)) == Some(CalendarRowOf(x.0)) && x.0 in p.calendars
  {
    CalendarKeysAgree(p);
    FlatMapMembers(p.calendars, PlacedIn);
    var i :| 0 <= i < |p.calendars| && x in PlacedIn(p.calendars[i]);
    assert x.0 == p.calendars[i];
    JoinCalendarFinds(p.calendars, i);
  }

  lemma PlacedReturns(p: Projection, x: Placed)
    requires ProjectionSound(p) && WellFormed(p) && Storable(p) && x in AllPlaced(p)
    ensures ReadPeriod(TablesOf(p), RowOfPlaced(x)) == Some(EntryOfPlaced(x))
  {
    hide ProjectionSound, AllPlaced, TablesOf;
    PlacedCalendar(p, x);
    var i :| 0 <= i < |p.calendars| && p.calendars[i] == x.0;
    assert CalendarStorable(p.calendars[i].0);
    UtcRoundTrip(x.0.0.createdAt);
    UtcRoundTrip(x.0.0.updatedAt);
  }

  lemma SelectedPeriodsAre(p: Projection, q: PeriodQuery)
    requires ProjectionSound(p)
    ensures SelectedPeriods(TablesOf(p), q) == Map(PeriodPage(p, q), RowOfPlaced)
    ensures forall x :: x in PeriodPage(p, q) ==> x in AllPlaced(p)
  {
    var t, all := TablesOf(p), AllPlaced(p);
    var keep, keepPlaced := (row: PeriodRow) => PeriodRowMatches(t, q, row), (x: Placed) => PlacedWanted(q, x);
    PeriodTable(p.calendars);
    assert t.periods == Map(all, RowOfPlaced);
    forall x | x in all ensures keep(RowOfPlaced(x)) == keepPlaced(x) { PlacedCalendar(p, x); }
    FilterMembers(all, keepPlaced);
    SortByContents(Filter(all, keepPlaced), PlacedLe);
    PageMembers(SortBy(Filter(all, keepPlaced), PlacedLe), q.limit, q.offset);
    hide ProjectionSound, AllPlaced, TablesOf, PeriodLe, PeriodWanted, JoinCalendar;
    FilterMapped(all, RowOfPlaced, keep, keepPlaced);
    SortMapped(Filter(all, keepPlaced), RowOfPlaced, PeriodLe, PlacedLe);
    PageMapped(SortBy(Filter(all, keepPlaced), PlacedLe), RowOfPlaced, q.limit, q.offset);
  }

  // What the answer is, said of the canonical calendars alone.

  /** Every condition that is given holds of the period, of its calendar, and of whether that one is current. */
  predicate PeriodAsked(q: PeriodQuery, x: Placed) {
    && (q.schoolYear.Some? ==> x.0.0.schoolYear == q.schoolYear.value)
    && (q.periodType.Some? ==> x.1.periodType == q.periodType.value)
    && (q.lifecycle.Some? ==> x.1.lifecycle == q.lifecycle.value)
    && (q.currentCalendarOnly ==> x.0.1)
    && (q.activeOn.Some? ==> !Earlier(q.activeOn.value, x.1.startDate) && !Earlier(x.1.endDate, q.activeOn.value))
  }

  /** By school year, calendar revision, sequence and id. */
  predicate PeriodPrecedes(a: Placed, b: Placed) {
    var c, d := a.0.0, b.0.0;
    if c.schoolYear != d.schoolYear then StrLe(c.schoolYear, d.schoolYear)
    else if c.revision != d.revision then c.revision < d.revision
    else if a.1.sequence != b.1.sequence then a.1.sequence < b.1.sequence
    else a.1.periodId != b.1.periodId && StrLe(a.1.periodId, b.1.periodId)
  }

  /** The whole answer: exactly the periods asked for, each once, in order. */
  ghost predicate FullPeriods(p: Projection, q: PeriodQuery, full: seq<Placed>) {
    && (forall x :: x in full <==> x.0 in p.calendars && x.1 in x.0.0.periods && PeriodAsked(q, x))
    && (forall i, j :: 0 <= i < j < |full| ==> PeriodPrecedes(full[i], full[j]))
  }

  ghost predicate DescribesPeriod(e: CatalogPeriod, x: Placed) {
    && e.calendar.schoolYear == x.0.0.schoolYear && e.calendar.revision == x.0.0.revision
    && e.createdAt == x.0.0.createdAt && e.updatedAt == x.0.0.updatedAt && e.isCurrent == x.0.1 && e.period == x.1
  }

  /** The entries answer the query: that page of the whole answer, each period described truly. */
  ghost predicate PeriodAnswers(p: Projection, q: PeriodQuery, entries: seq<CatalogPeriod>) {
    exists full ::
      && FullPeriods(p, q, full) && |entries| == PageLength(|full|, q.limit, q.offset)
      && forall k :: 0 <= k < |entries| ==> DescribesPeriod(entries[k], full[q.offset + k])
  }

  lemma {:induction false} PlacedDiffer(items: seq<(Calendar, bool)>)
    requires forall a, b :: 0 <= a < b < |items| ==> CalendarKeyOf(items[a]) != CalendarKeyOf(items[b])
    requires forall a :: 0 <= a < |items| ==> IdsUnique(items[a].0.periods)
    ensures Distinct(FlatMap(items, PlacedIn))
  {
    if items != [] {
      var n := |items| - 1;
      PlacedDiffer(items[..n]);
      FlatMapMembers(items[..n], PlacedIn);
      var last := PlacedIn(items[n]);
      forall i, j | 0 <= i < j < |last| ensures last[i] != last[j] {
        assert last[i].1 == items[n].0.periods[i] && last[j].1 == items[n].0.periods[j];
      }
      forall x | x in FlatMap(items[..n], PlacedIn) ensures x !in last {
        var a :| 0 <= a < n && x in PlacedIn(items[..n][a]);
        assert x.0 == items[a] && CalendarKeyOf(items[a]) != CalendarKeyOf(items[n]);
      }
      DistinctConcat(FlatMap(items[..n], PlacedIn), last);
    }
  }

  lemma PlacedMembers(p: Projection)
    ensures forall x :: x in AllPlaced(p) <==> x.0 in p.calendars && x.1 in x.0.0.periods
  {
    FlatMapMembers(p.calendars, PlacedIn);
    forall x: Placed ensures x in AllPlaced(p) <==> x.0 in p.calendars && x.1 in x.0.0.periods {
      if x.0 in p.calendars && x.1 in x.0.0.periods {
        var i :| 0 <= i < |p.calendars| && p.calendars[i] == x.0;
        var k :| 0 <= k < |x.0.0.periods| && x.0.0.periods[k] == x.1;
        assert PlacedIn(p.calendars[i])[k] == x;
      }
    }
  }

  lemma PlacedAre(p: Projection)
    requires ProjectionSound(p) && WellFormed(p)
    ensures Distinct(AllPlaced(p))
    ensures forall x :: x in AllPlaced(p) <==> x.0 in p.calendars && x.1 in x.0.0.periods
  {
    CalendarKeysAgree(p);
    hide ProjectionSound;
    PlacedMembers(p);
    assert forall i :: 0 <= i < |p.calendars| ==> CalendarWellFormed(p.calendars[i].0);
    PlacedDiffer(p.calendars);
  }

  /** A calendar revision holds a period id once. */
  lemma PlacedOnce(p: Projection, x: Placed, y: Placed)
    requires ProjectionSound(p) && WellFormed(p) && x in AllPlaced(p) && y in AllPlaced(p)
    requires CalendarKeyOf(x.0) == CalendarKeyOf(y.0) && x.1.periodId == y.1.periodId
    ensures x == y
  {
    hide ProjectionSound, AllPlaced, WellFormed;
    PlacedMembers(p);
    SameCalendar(p, x.0, y.0);
    assert IdsUnique(x.0.0.periods) by { WellFormedIds(p, x.0); }
  }

  lemma SameCalendar(p: Projection, x: (Calendar, bool), y: (Calendar, bool))
    requires ProjectionSound(p) && x in p.calendars && y in p.calendars && CalendarKeyOf(x) == CalendarKeyOf(y)
    ensures x == y
  {
    CalendarKeysAgree(p);
    hide ProjectionSound;
    var i :| 0 <= i < |p.calendars| && p.calendars[i] == x;
    var j :| 0 <= j < |p.calendars| && p.calendars[j] == y;
    assert i == j;
  }

  lemma WellFormedIds(p: Projection, x: (Calendar, bool))
    requires WellFormed(p) && x in p.calendars
    ensures IdsUnique(x.0.periods)
  {
    var i :| 0 <= i < |p.calendars| && p.calendars[i] == x;
    assert CalendarWellFormed(p.calendars[i].0);
  }

  lemma PlacedLeIsOrder()
    ensures Total(PlacedLe) && Transitive(PlacedLe)
  {
    hide StrLe;
    StrLeIsOrder();
    assert forall x, y :: StrLe(x, y) && StrLe(y, x) ==> x == y;
    assert forall x, y, z :: StrLe(x, y) && StrLe(y, z) ==> StrLe(x, z);
    assert forall x, y :: StrLe(x, y) || StrLe(y, x);
  }

  lemma WantedIsAsked(q: PeriodQuery, x: Placed)
    ensures PlacedWanted(q, x) <==> PeriodAsked(q, x)
  {
  }

  /** The whole answer is what filtering and sorting the placed periods give. */
  lemma FullPeriodsAre(p: Projection, q: PeriodQuery)
    requires ProjectionSound(p) && WellFormed(p)
    ensures FullPeriods(p, q, SortBy(Filter(AllPlaced(p), (x: Placed) => PlacedWanted(q, x)), PlacedLe))
  {
    hide ProjectionSound, WellFormed, AllPlaced, PlacedLe, PlacedWanted, PeriodAsked;
    var keep := (x: Placed) => PlacedWanted(q, x);
    var found := Filter(AllPlaced(p), keep);
    var full := SortBy(found, PlacedLe);
    PlacedAre(p);
    FilterMembers(AllPlaced(p), keep);
    PlacedLeIsOrder();
    SortByContents(found, PlacedLe);
    SortBySorted(found, PlacedLe);
    DistinctByContents(found, full);
    forall x ensures PlacedWanted(q, x) <==> PeriodAsked(q, x) { WantedIsAsked(q, x); }
    forall i, j | 0 <= i < j < |full| ensures PeriodPrecedes(full[i], full[j]) {
      assert full[i] in AllPlaced(p) && full[j] in AllPlaced(p) && full[i] != full[j];
      if CalendarKeyOf(full[i].0) == CalendarKeyOf(full[j].0) && full[i].1.periodId == full[j].1.periodId {
        PlacedOnce(p, full[i], full[j]);
      }
      StrictlyPlaced(full[i], full[j]);
    }
  }

  lemma StrictlyPlaced(a: Placed, b: Placed)
    requires PlacedLe(a, b) && (CalendarKeyOf(a.0) == CalendarKeyOf(b.0) ==> a.1.periodId != b.1.periodId)
    ensures PeriodPrecedes(a, b)
  {
  }

  /** There is one whole answer, so a page is a page of the answer to the same query without paging. */
  lemma PagesOfOnePeriodAnswer(p: Projection, q: PeriodQuery, entries: seq<CatalogPeriod>, all: seq<CatalogPeriod>)
    requires PeriodAnswers(p, q, entries) && PeriodAnswers(p, q.(limit := None, offset := 0), all)
    ensures PageOf(entries, all, q.limit, q.offset)
  {
    hide FullPeriods;
    var whole := q.(limit := None, offset := 0);
    var full :|
      && FullPeriods(p, q, full) && |entries| == PageLength(|full|, q.limit, q.offset)
      && forall k :: 0 <= k < |entries| ==> DescribesPeriod(entries[k], full[q.offset + k]);
    var other :|
      && FullPeriods(p, whole, other) && |all| == PageLength(|other|, None, 0)
      && forall k :: 0 <= k < |all| ==> DescribesPeriod(all[k], other[0 + k]);
    OnePeriodAnswer(p, q, full, other);
    WithinPage(|full|, q.limit, q.offset);
    forall k | 0 <= k < |entries| ensures entries[k] == all[q.offset + k] {
      assert DescribesPeriod(all[q.offset + k], other[0 + (q.offset + k)]);
    }
  }

  lemma WithinPage(n: nat, limit: Option<nat>, offset: nat)
    ensures PageLength(n, None, 0) == n
    ensures PageLength(n, limit, offset) > 0 ==> offset + PageLength(n, limit, offset) <= n
  {
  }

  lemma OnePeriodAnswer(p: Projection, q: PeriodQuery, a: seq<Placed>, b: seq<Placed>)
    requires FullPeriods(p, q, a) && FullPeriods(p, q.(limit := None, offset := 0), b)
    ensures a == b
  {
    assert forall x :: PeriodAsked(q, x) <==> PeriodAsked(q.(limit := None, offset := 0), x);
    hide PeriodAsked, PeriodPrecedes, PlacedLe;
    PeriodsOrdered(a);
    PeriodsOrdered(b);
    SameMembersSameContents(a, b);
    SortedUnique(a, b, PlacedLe);
  }

  lemma PeriodsOrdered(s: seq<Placed>)
    requires forall i, j :: 0 <= i < j < |s| ==> PeriodPrecedes(s[i], s[j])
    ensures Distinct(s) && Sorted(s, PlacedLe) && TiesAreEqual(s, PlacedLe)
  {
    hide PeriodPrecedes, PlacedLe;
    forall i, j | 0 <= i < j < |s| ensures s[i] != s[j] && PlacedLe(s[i], s[j]) && !PlacedLe(s[j], s[i]) {
      PeriodsApart(s[i], s[j]);
    }
  }

  lemma PeriodsApart(a: Placed, b: Placed)
    requires PeriodPrecedes(a, b)
    ensures a != b && PlacedLe(a, b) && !PlacedLe(b, a)
  {
    hide StrLe;
    StrLeIsOrder();
    assert forall x, y :: StrLe(x, y) && StrLe(y, x) ==> x == y;
  }

  /**
   The period query answers with that page of the periods asked for in the canonical calendars, in
   order, each described truly; it fails exactly when the catalog cannot hold the projection or
   the page cannot be asked for.
   */
  method AskPeriods(p: Projection, q: PeriodQuery) returns (answer: Result<seq<CatalogPeriod>, QueryError>)
    requires ProjectionSound(p) && WellFormed(p)
    ensures answer.Success? <==> Storable(p) && BindablePage(q.limit, q.offset)
    ensures answer.Success? ==> PeriodAnswers(p, q, answer.value)
    ensures answer.Failure? ==> answer.error == Overflowed
  {
    hide ProjectionSound, WellFormed, Storable, PeriodPage, TablesOf, ReadFrom, SelectedPeriods, PeriodAnswers;
    var db := new Database();
    var ok := db.InsertTransaction(p);
    if !ok { return Failure(Overflowed); }
    var t := db.Tables();
    answer := QueryPeriods(t, q);
    if BindablePage(q.limit, q.offset) {
      PeriodsRead(p, q, (row: PeriodRow) => ReadPeriod(t, row), answer.ToOption());
      PeriodPageAnswers(p, q);
    }
  }

  lemma PeriodPageAnswers(p: Projection, q: PeriodQuery)
    requires ProjectionSound(p) && WellFormed(p)
    ensures PeriodAnswers(p, q, Map(PeriodPage(p, q), EntryOfPlaced))
  {
    hide ProjectionSound, WellFormed, AllPlaced, PlacedLe, FullPeriods;
    var full := SortBy(Filter(AllPlaced(p), (x: Placed) => PlacedWanted(q, x)), PlacedLe);
    FullPeriodsAre(p, q);
    PageIs(full, q.limit, q.offset);
  }

  lemma PeriodsRead(p: Projection, q: PeriodQuery, read: PeriodRow -> Option<CatalogPeriod>,
                    answer: Option<seq<CatalogPeriod>>)
    requires ProjectionSound(p) && WellFormed(p) && Storable(p) && forall row ::
               read(row) == ReadPeriod(TablesOf(p), row)
    requires ReadFrom(SelectedPeriods(TablesOf(p), q), read, answer)
    ensures answer == Some(Map(PeriodPage(p, q), EntryOfPlaced))
  {
    hide ReadFrom, ProjectionSound, WellFormed, Storable, TablesOf, ReadPeriod, PeriodPage, SelectedPeriods, AllPlaced;
    SelectedPeriodsAre(p, q);
    var page := PeriodPage(p, q);
    forall i | 0 <= i < |page| ensures read(Map(page, RowOfPlaced)[i]) == Some(Map(page, EntryOfPlaced)[i]) {
      PlacedReturns(p, page[i]);
    }
    AllReturn(Map(page, RowOfPlaced), read, answer, Map(page, EntryOfPlaced));
  }

  // ------------------------------------------------------------------ registrations

  datatype RegistrationQuery = RegistrationQuery(
    schoolYear: Option<string>,
    classId: Option<string>,
    moduleId: Option<string>,
    workId: Option<string>,
    producerContractVersion: Option<string>,
    intent: Option<string>,
    lifecycle: Option<string>,
    currentOnly: bool,
    limit: Option<nat>,
    offset: nat)

  predicate RegistrationRowMatches(years: ClassYears, q: RegistrationQuery, row: RegistrationRow) {
    var work := row.key.work;
    && work.classId in years && NarrowsNullable(q.schoolYear, years[work.classId])
    && Narrows(q.classId, work.classId) && Narrows(q.moduleId, work.moduleId) && Narrows(q.workId, work.workId)
    && Narrows(q.producerContractVersion, row.producerContractVersion) && Narrows(q.intent, row.intent)
    && Narrows(q.lifecycle, row.lifecycle) && (q.currentOnly ==> row.isCurrent)
  }

  /** Classes without a school year come last. */
  predicate YearLe(a: Option<string>, b: Option<string>) {
    if a.None? then b.None? else b.None? || StrLe(a.value, b.value)
  }

  function YearOf(years: ClassYears, x: Reference): Option<string> {
    if x.work.classId in years then years[x.work.classId] else None
  }

  /** `ORDER BY school_year IS NULL, school_year, class_id, module_id, work_id, registration_revision`. */
  predicate ReferenceLe(years: ClassYears, a: Reference, b: Reference) {
    if YearOf(years, a) != YearOf(years, b) then YearLe(YearOf(years, a), YearOf(years, b))
    else if a.work != b.work then WorkLe(a.work, b.work)
    else a.revision <= b.revision
  }

  function RegistrationRowOrder(years: ClassYears): (RegistrationRow, RegistrationRow) -> bool {
    (a: RegistrationRow, b: RegistrationRow) => ReferenceLe(years, a.key, b.key)
  }

  function SelectedRegistrations(t: TableContents, years: ClassYears, q: RegistrationQuery): seq<RegistrationRow> {
    Page(SortBy(Filter(t.registrations, (row: RegistrationRow) => RegistrationRowMatches(years, q, row)),
                RegistrationRowOrder(years)), q.limit, q.offset)
  }

  method QueryRegistrations(t: TableContents, years: ClassYears, q: RegistrationQuery)
    returns (answer: Result<seq<(Registration, bool)>, QueryError>)
    ensures answer == Failure(Overflowed) <==> !BindablePage(q.limit, q.offset)
    ensures BindablePage(q.limit, q.offset) ==>
              ReadFrom(SelectedRegistrations(t, years, q), (row: RegistrationRow) => ReadRegistration(t, row),
                       answer.ToOption())
  {
    if !BindablePage(q.limit, q.offset) { return Failure(Overflowed); }
    var read := ReadAll(SelectedRegistrations(t, years, q), (row: RegistrationRow) => ReadRegistration(t, row));
    return if read.Some? then Success(read.value) else Failure(InvalidRow);
  }

  /** What the query asks, said of a canonical registration revision and whether it is selected. */
  predicate RegistrationWanted(years: ClassYears, q: RegistrationQuery, item: (Registration, bool)) {
    var m := item.0.metadata;
    && m.work.classId in years && NarrowsNullable(q.schoolYear, years[m.work.classId])
    && Narrows(q.classId, m.work.classId) && Narrows(q.moduleId, m.work.moduleId) && Narrows(q.workId, m.work.workId)
    && Narrows(q.producerContractVersion, m.producerContractVersion) && Narrows(q.intent, m.intent)
    && Narrows(q.lifecycle, m.lifecycle) && (q.currentOnly ==> item.1)
  }

  function RegistrationOrder(years: ClassYears): ((Registration, bool), (Registration, bool)) -> bool {
    (a: (Registration, bool), b: (Registration, bool)) => ReferenceLe(years, Refer(a.0), Refer(b.0))
  }

  function RegistrationPage(p: Projection, years: ClassYears, q: RegistrationQuery): seq<(Registration, bool)> {
    Page(SortBy(Filter(p.registrations, (item: (Registration, bool)) => RegistrationWanted(years, q, item)),
                RegistrationOrder(years)), q.limit, q.offset)
  }

  lemma SelectedRegistrationsAre(p: Projection, years: ClassYears, q: RegistrationQuery)
    ensures SelectedRegistrations(TablesOf(p), years, q) == Map(RegistrationPage(p, years, q), RegistrationRowOf)
    ensures forall x :: x in RegistrationPage(p, years, q) ==> x in p.registrations
  {
    var keep := (row: RegistrationRow) => RegistrationRowMatches(years, q, row);
    var keepItem := (item: (Registration, bool)) => RegistrationWanted(years, q, item);
    var found := Filter(p.registrations, keepItem);
    assert TablesOf(p).registrations == Map(p.registrations, RegistrationRowOf);
    FilterMembers(p.registrations, keepItem);
    SortByContents(found, RegistrationOrder(years));
    PageMembers(SortBy(found, RegistrationOrder(years)), q.limit, q.offset);
    hide TablesOf;
    FilterMapped(p.registrations, RegistrationRowOf, keep, keepItem);
    hide RegistrationRowMatches, RegistrationWanted, ReferenceLe;
    SortMapped(found, RegistrationRowOf, RegistrationRowOrder(years), RegistrationOrder(years));
    PageMapped(SortBy(found, RegistrationOrder(years)), RegistrationRowOf, q.limit, q.offset);
  }

  /** Every condition that is given holds of the registration, of its class's year, and of whether it is selected. */
  predicate RegistrationAsked(years: ClassYears, q: RegistrationQuery, item: (Registration, bool)) {
    var m := item.0.metadata;
    && m.work.classId in years && (q.schoolYear.Some? ==> years[m.work.classId] == q.schoolYear)
    && (q.classId.Some? ==> m.work.classId == q.classId.value)
    && (q.moduleId.Some? ==> m.work.moduleId == q.moduleId.value)
    && (q.workId.Some? ==> m.work.workId == q.workId.value)
    && (q.producerContractVersion.Some? ==> m.producerContractVersion == q.producerContractVersion.value)
    && (q.intent.Some? ==> m.intent == q.intent.value)
    && (q.lifecycle.Some? ==> m.lifecycle == q.lifecycle.value)
    && (q.currentOnly ==> item.1)
  }

  /** By the class's school year, unknown ones last, then by class, module, work and revision. */
  predicate RegistrationPrecedes(years: ClassYears, a: Registration, b: Registration) {
    var v, w := a.metadata.work, b.metadata.work;
    var y, z := if v.classId in years then years[v.classId] else None, if w.classId in years then years[w.classId]
      else None;
    if y != z then z.None? || (y.Some? && StrLe(y.value, z.value))
    else if v.classId != w.classId then StrLe(v.classId, w.classId)
    else if v.moduleId != w.moduleId then StrLe(v.moduleId, w.moduleId)
    else if v.workId != w.workId then StrLe(v.workId, w.workId)
    else a.revision < b.revision
  }

  /** The whole answer: exactly the registrations asked for, each once, in order. */
  ghost predicate FullRegistrations(p: Projection, years: ClassYears, q: RegistrationQuery,
                                    full: seq<(Registration, bool)>)
  {
    && (forall x :: x in full <==> x in p.registrations && RegistrationAsked(years, q, x))
    && (forall i, j :: 0 <= i < j < |full| ==> RegistrationPrecedes(years, full[i].0, full[j].0))
  }

  /** The entries answer the query: that page of the whole answer. */
  ghost predicate RegistrationAnswers(p: Projection, years: ClassYears, q: RegistrationQuery,
                                      entries: seq<(Registration, bool)>)
  {
    exists full :: FullRegistrations(p, years, q, full) && PageOf(entries, full, q.limit, q.offset)
  }

  lemma RegistrationWantedIsAsked(years: ClassYears, q: RegistrationQuery, x: (Registration, bool))
    ensures RegistrationWanted(years, q, x) <==> RegistrationAsked(years, q, x)
  {
  }

  lemma RegistrationOrderIsOrder(years: ClassYears)
    ensures Total(RegistrationOrder(years)) && Transitive(RegistrationOrder(years))
  {
    hide WorkLe, StrLe;
    WorkLeIsOrder();
    StrLeIsOrder();
    assert forall x, y :: StrLe(x, y) && StrLe(y, x) ==> x == y;
    assert forall x, y, z :: StrLe(x, y) && StrLe(y, z) ==> StrLe(x, z);
    assert forall x, y :: StrLe(x, y) || StrLe(y, x);
    assert forall x, y :: WorkLe(x, y) && WorkLe(y, x) ==> x == y;
    assert forall x, y, z :: WorkLe(x, y) && WorkLe(y, z) ==> WorkLe(x, z);
    assert forall x, y :: WorkLe(x, y) || WorkLe(y, x);
    hide YearOf;
  }

  lemma StrictlyRegistered(years: ClassYears, a: Registration, b: Registration)
    requires ReferenceLe(years, Refer(a), Refer(b)) && Refer(a) != Refer(b)
    ensures RegistrationPrecedes(years, a, b)
  {
  }

  lemma RegistrationsApart(years: ClassYears, a: (Registration, bool), b: (Registration, bool))
    requires RegistrationPrecedes(years, a.0, b.0)
    ensures a != b && RegistrationOrder(years)(a, b) && !RegistrationOrder(years)(b, a)
  {
    hide StrLe;
    StrLeIsOrder();
    assert forall x, y :: StrLe(x, y) && StrLe(y, x) ==> x == y;
  }

  /** The whole answer is what filtering and sorting the registrations give. */
  lemma FullRegistrationsAre(p: Projection, years: ClassYears, q: RegistrationQuery)
    requires ProjectionSound(p)
    ensures FullRegistrations(p, years, q,
              SortBy(Filter(p.registrations, (item: (Registration, bool)) => RegistrationWanted(years, q, item)),
                     RegistrationOrder(years)))
  {
    hide ProjectionSound, RegistrationWanted, RegistrationAsked, RegistrationOrder, RegistrationPrecedes, ReferenceLe;
    var keep := (item: (Registration, bool)) => RegistrationWanted(years, q, item);
    var found := Filter(p.registrations, keep);
    var full := SortBy(found, RegistrationOrder(years));
    RegistrationsDiffer(p);
    FilterMembers(p.registrations, keep);
    RegistrationOrderIsOrder(years);
    SortByContents(found, RegistrationOrder(years));
    SortBySorted(found, RegistrationOrder(years));
    DistinctByContents(found, full);
    forall x ensures RegistrationWanted(years, q, x) <==> RegistrationAsked(years, q, x) {
      RegistrationWantedIsAsked(years, q, x);
    }
    forall i, j | 0 <= i < j < |full| ensures RegistrationPrecedes(years, full[i].0, full[j].0) {
      OrderedPair(p, years, full, i, j);
    }
  }

  lemma OrderedPair(p: Projection, years: ClassYears, full: seq<(Registration, bool)>, i: nat, j: nat)
    requires ProjectionSound(p) && i < j < |full| && Distinct(full) && Sorted(full, RegistrationOrder(years))
    requires forall x :: x in full ==> x in p.registrations
    ensures RegistrationPrecedes(years, full[i].0, full[j].0)
  {
    hide ProjectionSound, RegistrationPrecedes, ReferenceLe;
    var a, b := full[i], full[j];
    assert a in full && b in full && a != b;
    if Refer(a.0) == Refer(b.0) { OneRegistrationPerKey(p, a, b); }
    assert RegistrationOrder(years)(a, b);
    StrictlyRegistered(years, a.0, b.0);
  }

  lemma RegistrationsDiffer(p: Projection)
    requires ProjectionSound(p)
    ensures Distinct(p.registrations)
  {
    RegistrationKeysAgree(p);
    hide ProjectionSound;
    forall i, j | 0 <= i < j < |p.registrations| ensures p.registrations[i] != p.registrations[j] {
      assert RegistrationKeyOf(p.registrations[i]) != RegistrationKeyOf(p.registrations[j]);
    }
  }

  /** There is one whole answer, so a page is a page of the answer to the same query without paging. */
  lemma PagesOfOneRegistrationAnswer(p: Projection, years: ClassYears, q: RegistrationQuery,
                                     entries: seq<(Registration, bool)>, all: seq<(Registration, bool)>)
    requires RegistrationAnswers(p, years, q, entries)
    requires RegistrationAnswers(p, years, q.(limit := None, offset := 0), all)
    ensures PageOf(entries, all, q.limit, q.offset)
  {
    var whole := q.(limit := None, offset := 0);
    var full :| FullRegistrations(p, years, q, full) && PageOf(entries, full, q.limit, q.offset);
    var other :| FullRegistrations(p, years, whole, other) && PageOf(all, other, None, 0);
    assert forall x :: RegistrationAsked(years, q, x) <==> RegistrationAsked(years, whole, x);
    hide RegistrationAsked;
    RegistrationsOrdered(years, full);
    RegistrationsOrdered(years, other);
    hide RegistrationOrder, RegistrationPrecedes;
    SameMembersSameContents(full, other);
    SortedUnique(full, other, RegistrationOrder(years));
    assert forall k :: 0 <= k < |other| ==> all[k] == other[0 + k];
  }

  lemma RegistrationsOrdered(years: ClassYears, s: seq<(Registration, bool)>)
    requires forall i, j :: 0 <= i < j < |s| ==> RegistrationPrecedes(years, s[i].0, s[j].0)
    ensures Distinct(s) && Sorted(s, RegistrationOrder(years)) && TiesAreEqual(s, RegistrationOrder(years))
  {
    hide RegistrationPrecedes, RegistrationOrder;
    forall i, j | 0 <= i < j < |s|
      ensures s[i] != s[j] && RegistrationOrder(years)(s[i], s[j]) && !RegistrationOrder(years)(s[j], s[i])
    {
      RegistrationsApart(years, s[i], s[j]);
    }
  }

  /**
   The registration query answers with that page of the canonical revisions asked for, in order,
   sources and all, under the same condition.
   */
  method AskRegistrations(p: Projection, years: ClassYears, q: RegistrationQuery)
    returns (answer: Result<seq<(Registration, bool)>, QueryError>)
    requires ProjectionSound(p) && WellFormed(p)
    ensures answer.Success? <==> Storable(p) && BindablePage(q.limit, q.offset)
    ensures answer.Success? ==> RegistrationAnswers(p, years, q, answer.value)
    ensures answer.Failure? ==> answer.error == Overflowed
  {
    hide ProjectionSound, WellFormed, Storable, RegistrationPage, TablesOf, ReadFrom, SelectedRegistrations,
         RegistrationAnswers;
    var db := new Database();
    var ok := db.InsertTransaction(p);
    if !ok { return Failure(Overflowed); }
    var t := db.Tables();
    answer := QueryRegistrations(t, years, q);
    if BindablePage(q.limit, q.offset) {
      RegistrationsRead(p, years, q, (row: RegistrationRow) => ReadRegistration(t, row), answer.ToOption());
      RegistrationPageAnswers(p, years, q);
    }
  }

  lemma RegistrationPageAnswers(p: Projection, years: ClassYears, q: RegistrationQuery)
    requires ProjectionSound(p)
    ensures RegistrationAnswers(p, years, q, RegistrationPage(p, years, q))
  {
    hide ProjectionSound, FullRegistrations;
    FullRegistrationsAre(p, years, q);
    PageIs(SortBy(Filter(p.registrations, (item: (Registration, bool)) => RegistrationWanted(years, q, item)),
                  RegistrationOrder(years)), q.limit, q.offset);
  }

  lemma RegistrationsRead(p: Projection, years: ClassYears, q: RegistrationQuery,
                          read: RegistrationRow -> Option<(Registration, bool)>,
                          answer: Option<seq<(Registration, bool)>>)
    requires ProjectionSound(p) && WellFormed(p) && Storable(p) && forall row ::
               read(row) == ReadRegistration(TablesOf(p), row)
    requires ReadFrom(SelectedRegistrations(TablesOf(p), years, q), read, answer)
    ensures answer == Some(RegistrationPage(p, years, q))
  {
    hide ReadFrom, ProjectionSound, WellFormed, Storable, TablesOf, ReadRegistration, RegistrationPage,
         SelectedRegistrations, RegistrationRowOf;
    SelectedRegistrationsAre(p, years, q);
    var page := RegistrationPage(p, years, q);
    forall i | 0 <= i < |page| ensures read(Map(page, RegistrationRowOf)[i]) == Some(page[i]) {
      assert page[i] in page;
      var k :| 0 <= k < |p.registrations| && p.registrations[k] == page[i];
      RegistrationReturns(p, k);
    }
    AllReturn(Map(page, RegistrationRowOf), read, answer, page);
  }
}
