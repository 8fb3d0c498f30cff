/** The catalog's schema constraints and its semantic verification, on the tables of a projection. */
module CatalogVerification {
  import opened Foundations
  import opened Tables
  import opened PublicationRecords
  import opened AcademicPeriods
  import opened CanonicalHistories
  import opened CanonicalListings
  import opened CanonicalPublications
  import opened RegistryAudit
  import opened CatalogTables
  import opened CatalogReadBack

  // ------------------------------------------------------------- schema constraints

  ghost predicate PrimaryKeys(t: TableContents) {
    && (forall i, j :: 0 <= i < j < |t.calendars| ==> t.calendars[i].key != t.calendars[j].key)
    && (forall i, j :: 0 <= i < j < |t.registrations| ==> t.registrations[i].key != t.registrations[j].key)
    && (forall i, j :: 0 <= i < j < |t.publications| ==>
        t.publications[i].publicationId != t.publications[j].publicationId)
  }

  /** Child tables: no period id, source position or capability twice under one parent. */
  ghost predicate ChildKeys(t: TableContents) {
    && (forall i, j | 0 <= i < j < |t.periods| && t.periods[i].calendar == t.periods[j].calendar ::
          t.periods[i].period.periodId != t.periods[j].period.periodId)
    && (forall i, j | 0 <= i < j < |t.sources| && t.sources[i].registration == t.sources[j].registration ::
          t.sources[i].position != t.sources[j].position)
    && Distinct(t.capabilities)
  }

  /** A publication has at most one successor; a logical revision is published once. */
  ghost predicate UniqueColumns(t: TableContents) {
    && (forall i, j | 0 <= i < j < |t.publications| && t.publications[i].supersedes.Some? ::
          t.publications[i].supersedes != t.publications[j].supersedes)
    && (forall i, j :: 0 <= i < j < |t.publications| ==>
        LogicalColumns(t.publications[i]) != LogicalColumns(t.publications[j]))
  }

  function LogicalColumns(row: PublicationRow): LogicalRevision {
    LogicalRevision(SeriesId(row.work, row.kind, row.recordSetId), row.recordSetRevision)
  }

  ghost predicate ForeignKeys(t: TableContents) {
    && (forall row :: row in t.periods ==> exists c :: c in t.calendars && c.key == row.calendar)
    && (forall row :: row in t.sources ==> exists r :: r in t.registrations && r.key == row.registration)
    && (forall row :: row in t.capabilities ==> exists x :: x in t.publications && x.publicationId == row.publicationId)
    && (forall row :: row in t.periods && row.period.parent.Some? ==>
          exists q :: q in t.periods && q.calendar == row.calendar && q.period.periodId == row.period.parent.value)
    && (forall row :: row in t.publications && row.supersedes.Some? ==>
          exists x :: x in t.publications && x.publicationId == row.supersedes.value)
    && (forall row :: row in t.publications && row.registrationRevision.Some? ==>
          exists r :: r in t.registrations && r.key == Reference(row.work, row.registrationRevision.value))
  }

  ghost predicate Checks(t: TableContents) {
    forall row :: row in t.publications ==>
      && (row.kind.AcademicResultSet? <==> row.registrationRevision.Some?)
      && (row.isWithdrawn <==> row.withdrawnAtUtc.Some?)
      && (row.isCurrentSelectable <==> row.isSeriesHead && !row.isWithdrawn)
  }

  /**
   No constraint of the schema refuses a row of an accepted projection; whether its values can
   be held is `Storable`.
   */
  lemma ConstraintsNeverFail(p: Projection)
    requires ProjectionSound(p) && WellFormed(p)
    ensures var t := TablesOf(p); PrimaryKeys(t) && ChildKeys(t) && UniqueColumns(t) && ForeignKeys(t) && Checks(t)
  {
    hide ProjectionSound, WellFormed, TablesOf, PrimaryKeys, ChildKeys, UniqueColumns, ForeignKeys, Checks;
    PrimaryKeysHold(p);
    PeriodKeysHold(p);
    SourceKeysHold(p);
    CapabilityKeysHold(p);
    ChildKeysHold(p);
    UniqueColumnsHold(p);
    ForeignKeysHold(p);
    ChecksHold(p);
  }

  lemma PrimaryKeysHold(p: Projection)
    requires ProjectionSound(p)
    ensures PrimaryKeys(TablesOf(p))
  {
    CalendarKeysAgree(p);
    RegistrationKeysAgree(p);
    var t := TablesOf(p);
    forall i, j | 0 <= i < j < |t.calendars| ensures t.calendars[i].key != t.calendars[j].key {
      assert CalendarKeyOf(p.calendars[i]) != CalendarKeyOf(p.calendars[j]);
    }
    forall i, j | 0 <= i < j < |t.registrations| ensures t.registrations[i].key != t.registrations[j].key {
      assert RegistrationKeyOf(p.registrations[i]) != RegistrationKeyOf(p.registrations[j]);
    }
    forall i, j | 0 <= i < j < |t.publications|
      ensures t.publications[i].publicationId != t.publications[j].publicationId
    {
      assert RecordId(p.publications[i]) != RecordId(p.publications[j]);
    }
  }

  ghost predicate DifferBy<T, C>(rows: seq<T>, column: T -> C) {
    forall a, b :: 0 <= a < b < |rows| ==> column(rows[a]) != column(rows[b])
  }

  ghost predicate ChildrenDiffer<T, K, C>(rows: seq<T>, rowKey: T -> K, column: T -> C) {
    forall a, b :: 0 <= a < b < |rows| && rowKey(rows[a]) == rowKey(rows[b]) ==> column(rows[a]) != column(rows[b])
  }

  /** Rows that differ within every item differ in the whole table. */
  lemma {:induction false} DifferInTable<S, T(!new), K(!new), C(!new)>(items: seq<S>, f: S -> seq<T>, itemKey: S -> K,
                                                                      rowKey: T -> K, column: T -> C)
    requires KeysAgree(items, f, itemKey, rowKey)
    requires forall i :: 0 <= i < |items| ==> DifferBy(f(items[i]), column)
    ensures ChildrenDiffer(FlatMap(items, f), rowKey, column)
  {
    if items != [] {
      var n := |items| - 1;
      var rest := items[..n];
      assert KeysAgree(rest, f, itemKey, rowKey) by {
        forall a, row | 0 <= a < n && row in f(rest[a]) ensures rowKey(row) == itemKey(rest[a]) {
          assert row in f(items[a]);
        }
      }
      forall i | 0 <= i < |rest| ensures DifferBy(f(rest[i]), column) { assert rest[i] == items[i]; }
      DifferInTable(rest, f, itemKey, rowKey, column);
      LastItemApart(items, f, itemKey, rowKey);
      hide KeysAgree;
      var before, last, rows := FlatMap(rest, f), f(items[n]), FlatMap(items, f);
      assert rows == before + last && DifferBy(last, column);
      forall a, b | 0 <= a < b < |rows| && rowKey(rows[a]) == rowKey(rows[b])
        ensures column(rows[a]) != column(rows[b])
      {
        if a >= |before| { assert rows[a] == last[a - |before|] && rows[b] == last[b - |before|]; }
      }
    }
  }

  lemma LastItemApart<S, T(!new), K(!new)>(items: seq<S>, f: S -> seq<T>, itemKey: S -> K, rowKey: T -> K)
    requires items != [] && KeysAgree(items, f, itemKey, rowKey)
    ensures var before, last := FlatMap(items[..|items| - 1], f), f(items[|items| - 1]);
            forall a, b :: 0 <= a < |before| && 0 <= b < |last| ==> rowKey(before[a]) != rowKey(last[b])
  {
    var n := |items| - 1;
    var before, last := FlatMap(items[..n], f), f(items[n]);
    FlatMapMembers(items[..n], f);
    forall a, b | 0 <= a < |before| && 0 <= b < |last| ensures rowKey(before[a]) != rowKey(last[b]) {
      assert before[a] in before && last[b] in last;
      var i :| 0 <= i < n && before[a] in f(items[..n][i]);
      assert items[..n][i] == items[i] && itemKey(items[i]) != itemKey(items[n]);
    }
  }

  function PeriodIdOf(row: PeriodRow): string { row.period.periodId }

  function PositionOf(row: SourceRow): nat { row.position }

  lemma PeriodKeysHold(p: Projection)
    requires ProjectionSound(p) && WellFormed(p)
    ensures ChildrenDiffer(TablesOf(p).periods, PeriodCalendar, PeriodIdOf)
  {
    CalendarKeysAgree(p);
    forall i | 0 <= i < |p.calendars| ensures DifferBy(PeriodRowsOf(p.calendars[i]), PeriodIdOf) {
      assert CalendarWellFormed(p.calendars[i].0);
    }
    hide ProjectionSound, WellFormed, KeysAgree, PeriodRowsOf;
    DifferInTable(p.calendars, PeriodRowsOf, CalendarKeyOf, PeriodCalendar, PeriodIdOf);
  }

  lemma SourceKeysHold(p: Projection)
    requires ProjectionSound(p)
    ensures ChildrenDiffer(TablesOf(p).sources, SourceRegistration, PositionOf)
  {
    RegistrationKeysAgree(p);
    assert forall i :: 0 <= i < |p.registrations| ==> DifferBy(SourceRowsOf(p.registrations[i]), PositionOf);
    hide ProjectionSound, KeysAgree, SourceRowsOf;
    DifferInTable(p.registrations, SourceRowsOf, RegistrationKeyOf, SourceRegistration, PositionOf);
  }

  lemma CapabilityKeysHold(p: Projection)
    requires ProjectionSound(p) && WellFormed(p)
    ensures ChildrenDiffer(TablesOf(p).capabilities, CapabilityOwner, CapabilityOf)
  {
    PublicationKeysAgree(p);
    forall i | 0 <= i < |p.publications| ensures DifferBy(CapabilityRowsOf(p.publications[i]), CapabilityOf) {
      assert PublicationWellFormed(p.publications[i]);
    }
    hide ProjectionSound, WellFormed, KeysAgree, CapabilityRowsOf;
    DifferInTable(p.publications, CapabilityRowsOf, RecordId, CapabilityOwner, CapabilityOf);
  }

  lemma ChildKeysHold(p: Projection)
    requires ProjectionSound(p) && WellFormed(p)
    ensures ChildKeys(TablesOf(p))
  {
    PeriodKeysHold(p);
    SourceKeysHold(p);
    CapabilityKeysHold(p);
    hide ProjectionSound, WellFormed, TablesOf;
    var t := TablesOf(p);
    forall a, b | 0 <= a < b < |t.capabilities| ensures t.capabilities[a] != t.capabilities[b] {
      assert CapabilityOwner(t.capabilities[a]) == CapabilityOwner(t.capabilities[b]) ==>
             CapabilityOf(t.capabilities[a]) != CapabilityOf(t.capabilities[b]);
    }
    forall i, j | 0 <= i < j < |t.periods| && t.periods[i].calendar == t.periods[j].calendar
      ensures t.periods[i].period.periodId != t.periods[j].period.periodId
    {
      assert PeriodCalendar(t.periods[i]) == PeriodCalendar(t.periods[j]);
      assert PeriodIdOf(t.periods[i]) != PeriodIdOf(t.periods[j]);
    }
    forall i, j | 0 <= i < j < |t.sources| && t.sources[i].registration == t.sources[j].registration
      ensures t.sources[i].position != t.sources[j].position
    {
      assert SourceRegistration(t.sources[i]) == SourceRegistration(t.sources[j]);
      assert PositionOf(t.sources[i]) != PositionOf(t.sources[j]);
    }
  }

  lemma RecordsDiffer(p: Projection)
    requires ProjectionSound(p)
    ensures IdsDiffer(p.publications, RecordId) && Distinct(p.publications)
  {
    DifferIsDistinct(p.publications, RecordId);
  }

  lemma UniqueColumnsHold(p: Projection)
    requires ProjectionSound(p)
    ensures UniqueColumns(TablesOf(p))
  {
    var t := TablesOf(p);
    RecordsDiffer(p);
    assert SeriesSound(p.publications);
    hide ProjectionSound, StrictlyBy, Histories, SeriesSound, IdsDiffer;
    forall i, j | 0 <= i < j < |t.publications|
      ensures t.publications[i].supersedes.Some? ==> t.publications[i].supersedes != t.publications[j].supersedes
      ensures LogicalColumns(t.publications[i]) != LogicalColumns(t.publications[j])
    {
      var x, y := p.publications[i], p.publications[j];
      assert x in p.publications && y in p.publications && x != y;
      assert LogicalColumns(t.publications[i]) == LogicalKey(x) && LogicalColumns(t.publications[j]) == LogicalKey(y);
      if LogicalKey(x) == LogicalKey(y) { SoundRevisionsDiffer(p.publications, x, y); }
      if x.supersedes.Some? && x.supersedes == y.supersedes { OneSuccessorEach(p.publications, x, y); }
    }
  }

  lemma OneSuccessorEach(records: seq<PublicationRecord>, x: PublicationRecord, y: PublicationRecord)
    requires SeriesSound(records) && IdsDiffer(records, RecordId) && x in records && y in records
    requires x.supersedes.Some? && x.supersedes == y.supersedes
    ensures x == y
  {
    var q := PredecessorRecorded(records, x);
    SupersedesInsideSeries(records, x, q);
    SupersedesInsideSeries(records, y, q);
    GroupMembers(records, SeriesKey, x.Series());
    LocallyValidIffChain(SeriesOf(records, x.Series()));
  }

  lemma PredecessorRecorded(records: seq<PublicationRecord>, x: PublicationRecord) returns (q: PublicationRecord)
    requires SeriesSound(records) && x in records && x.supersedes.Some?
    ensures q in records && x.supersedes == Some(q.publicationId)
  {
    var part := SeriesOf(records, x.Series());
    GroupMembers(records, SeriesKey, x.Series());
    LocallyValidIffChain(part);
    assert HasPredecessor(part, x);
    q :| q in part && ValidSupersession(q, x);
  }

  lemma ForeignKeysHold(p: Projection)
    requires ProjectionSound(p) && WellFormed(p)
    ensures ForeignKeys(TablesOf(p))
  {
    hide ProjectionSound, WellFormed;
    var t := TablesOf(p);
    PeriodParents(p);
    SourceParents(p);
    CapabilityParents(p);
    PublicationParents(p);
  }

  lemma PeriodHome(p: Projection, row: PeriodRow)
    requires WellFormed(p) && row in TablesOf(p).periods
    ensures var t := TablesOf(p);
            && (exists c :: c in t.calendars && c.key == row.calendar)
            && (row.period.parent.Some? ==>
                  exists q :: q in t.periods && q.calendar == row.calendar
                    && q.period.periodId == row.period.parent.value)
  {
    hide PeriodRowsOf, IdsUnique, Closed, IndexOf, Sorted;
    var t := TablesOf(p);
    FlatMapMembers(p.calendars, PeriodRowsOf);
    var i :| 0 <= i < |p.calendars| && row in PeriodRowsOf(p.calendars[i]);
    PeriodRowKey(p.calendars[i], row);
    assert t.calendars[i] in t.calendars && t.calendars[i].key == row.calendar;
    if row.period.parent.Some? { ParentRow(p.calendars[i], row); }
  }

  lemma PeriodRowKey(item: (Calendar, bool), row: PeriodRow)
    requires row in PeriodRowsOf(item)
    ensures row.calendar == CalendarKeyOf(item)
  {
  }

  lemma PeriodParents(p: Projection)
    requires WellFormed(p)
    ensures var t := TablesOf(p);
            && (forall row :: row in t.periods ==> exists c :: c in t.calendars && c.key == row.calendar)
            && (forall row :: row in t.periods && row.period.parent.Some? ==>
                  exists q :: q in t.periods && q.calendar == row.calendar
                    && q.period.periodId == row.period.parent.value)
  {
    hide TablesOf, WellFormed;
    var t := TablesOf(p);
    forall row | row in t.periods
      ensures exists c :: c in t.calendars && c.key == row.calendar
      ensures row.period.parent.Some? ==>
                exists q :: q in t.periods && q.calendar == row.calendar && q.period.periodId == row.period.parent.value
    {
      PeriodHome(p, row);
    }
  }

  lemma ParentRow(item: (Calendar, bool), row: PeriodRow)
    requires IdsUnique(item.0.periods) && Closed(IndexOf(item.0.periods))
    requires row in PeriodRowsOf(item) && row.period.parent.Some?
    ensures exists q ::
        q in PeriodRowsOf(item) && q.calendar == row.calendar && q.period.periodId == row.period.parent.value
  {
    var periods := item.0.periods;
    IndexOfIndexes(periods);
    var i :| 0 <= i < |periods| && PeriodRowsOf(item)[i] == row;
    assert periods[i] in periods;
    var parent := IndexOf(periods)[row.period.parent.value];
    var k :| 0 <= k < |periods| && periods[k] == parent;
    assert PeriodRowsOf(item)[k] in PeriodRowsOf(item);
  }

  lemma SourceParents(p: Projection)
    ensures var t := TablesOf(p);
            forall row :: row in t.sources ==> exists r :: r in t.registrations && r.key == row.registration
  {
    var t := TablesOf(p);
    FlatMapMembers(p.registrations, SourceRowsOf);
    forall row | row in t.sources ensures exists r :: r in t.registrations && r.key == row.registration {
      var i :| 0 <= i < |p.registrations| && row in SourceRowsOf(p.registrations[i]);
      assert t.registrations[i] in t.registrations;
    }
  }

  lemma PublicationRowIn(p: Projection, r: PublicationRecord)
    requires r in p.publications
    ensures RowIn(p)(r) in TablesOf(p).publications
  {
    var i :| 0 <= i < |p.publications| && p.publications[i] == r;
    assert TablesOf(p).publications[i] == RowIn(p)(r);
  }

  lemma CapabilityParents(p: Projection)
    ensures var t := TablesOf(p);
            forall row :: row in t.capabilities ==> exists x ::
                x in t.publications && x.publicationId == row.publicationId
  {
    var t := TablesOf(p);
    FlatMapMembers(p.publications, CapabilityRowsOf);
    forall row | row in t.capabilities ensures exists x :: x in t.publications && x.publicationId == row.publicationId {
      var i :| 0 <= i < |p.publications| && row in CapabilityRowsOf(p.publications[i]);
      assert t.publications[i] in t.publications;
    }
  }

  lemma PublicationParents(p: Projection)
    requires ProjectionSound(p) && WellFormed(p)
    ensures var t := TablesOf(p);
            && (forall row :: row in t.publications && row.supersedes.Some? ==>
                  exists x :: x in t.publications && x.publicationId == row.supersedes.value)
            && (forall row :: row in t.publications && row.registrationRevision.Some? ==>
                  exists r :: r in t.registrations && r.key == Reference(row.work, row.registrationRevision.value))
  {
    var t := TablesOf(p);
    forall row | row in t.publications
      ensures row.supersedes.Some? ==> exists x :: x in t.publications && x.publicationId == row.supersedes.value
      ensures row.registrationRevision.Some? ==>
                exists r :: r in t.registrations && r.key == Reference(row.work, row.registrationRevision.value)
    {
      var i :| 0 <= i < |t.publications| && t.publications[i] == row;
      var x := p.publications[i];
      assert PublicationWellFormed(x);
      hide ProjectionSound, WellFormed;
      assert row == RowIn(p)(x) && x in p.publications;
      if x.supersedes.Some? { PredecessorRow(p, x); }
      if x.registrationRevision.Some? { ReferencedRow(p, x); }
    }
  }

  lemma PredecessorRow(p: Projection, x: PublicationRecord)
    requires ProjectionSound(p) && x in p.publications && x.supersedes.Some?
    ensures exists y :: y in TablesOf(p).publications && y.publicationId == x.supersedes.value
  {
    assert SeriesSound(p.publications);
    hide ProjectionSound, SeriesSound;
    var q := PredecessorRecorded(p.publications, x);
    PublicationRowIn(p, q);
    assert RowIn(p)(q).publicationId == q.publicationId;
  }

  lemma ReferencedRow(p: Projection, x: PublicationRecord)
    requires ProjectionSound(p) && x in p.publications && x.kind.AcademicResultSet? && x.registrationRevision.Some?
    ensures exists r :: r in TablesOf(p).registrations && r.key == Reference(x.work, x.registrationRevision.value)
  {
    assert ReferenceStands(RegistrationsOf(p), x);
    var item :| item in p.registrations && Refer(item.0) == Reference(x.work, x.registrationRevision.value);
    var i :| 0 <= i < |p.registrations| && p.registrations[i] == item;
    assert TablesOf(p).registrations[i].key == Reference(x.work, x.registrationRevision.value);
  }

  lemma ChecksHold(p: Projection)
    requires WellFormed(p)
    ensures Checks(TablesOf(p))
  {
    var t := TablesOf(p);
    forall row | row in t.publications
      ensures (row.kind.AcademicResultSet? <==> row.registrationRevision.Some?)
              && (row.isWithdrawn <==> row.withdrawnAtUtc.Some?)
      ensures row.isCurrentSelectable <==> row.isSeriesHead && !row.isWithdrawn
    {
      var i :| 0 <= i < |t.publications| && t.publications[i] == row;
      assert PublicationWellFormed(p.publications[i]);
    }
  }

  // --------------------------------------------------------- semantic verification

  function RowKey<K, T>(u: HistoryRules<K, T>): ((T, bool)) -> K { (row: (T, bool)) => u.key(row.0) }

  function CountCurrent<T>(rows: seq<(T, bool)>): nat {
    if rows == [] then 0 else (if rows[0].1 then 1 else 0) + CountCurrent(rows[1..])
  }

  /** Each revision a transition of the one before; exactly one current, and that the last. */
  ghost predicate HistoryVerified<K, T>(u: HistoryRules<K, T>, rows: seq<(T, bool)>) {
    && (forall i :: 0 < i < |rows| ==> u.step(rows[i - 1].0, rows[i].0))
    && CountCurrent(rows) == 1 && rows != [] && rows[|rows| - 1].1
  }

  method VerifyHistory<K, T>(u: HistoryRules<K, T>, rows: seq<(T, bool)>) returns (ok: bool)
    requires rows != []
    ensures ok <==> HistoryVerified(u, rows)
  {
    for i := 1 to |rows|
      invariant forall k :: 0 < k < i ==> u.step(rows[k - 1].0, rows[k].0)
    {
      if !u.step(rows[i - 1].0, rows[i].0) { return false; }
    }
    ok := CountCurrent(rows) == 1 && rows[|rows| - 1].1;
  }

  ghost predicate AllVerified<K(!new), T>(u: HistoryRules<K, T>, rows: seq<(T, bool)>) {
    forall k :: Group(rows, RowKey(u), k) == [] || HistoryVerified(u, Group(rows, RowKey(u), k))
  }

  method VerifyHistories<K(==,!new), T(!new)>(u: HistoryRules<K, T>, rows: seq<(T, bool)>) returns (ok: bool)
    ensures ok <==> AllVerified(u, rows)
  {
    var order, groups := GroupBy(rows, RowKey(u));
    hide HistoryVerified, Group;
    for i := 0 to |order|
      invariant forall k :: 0 <= k < i ==> order[k] in groups && HistoryVerified(u, groups[order[k]])
    {
      assert order[i] in order;
      var verified := VerifyHistory(u, groups[order[i]]);
      if !verified {
        assert Group(rows, RowKey(u), order[i]) == groups[order[i]];
        return false;
      }
    }
    forall k ensures Group(rows, RowKey(u), k) == [] || HistoryVerified(u, Group(rows, RowKey(u), k)) {
      if k in groups {
        var i :| 0 <= i < |order| && order[i] == k;
      }
    }
    ok := true;
  }

  /** The rows of one key in loaded histories follow one another. */
  lemma {:induction false} GroupOfHistories<K(!new), T(!new)>(u: HistoryRules<K, T>, keyLe: (K, K) -> bool,
                                                              rows: seq<(T, bool)>, k: K)
    requires Histories(u, keyLe, rows) && Antisymmetric(keyLe)
    ensures var g := Group(rows, RowKey(u), k);
            && (forall i :: 0 < i < |g| ==> u.step(g[i - 1].0, g[i].0))
            && (forall i :: 0 <= i < |g| ==> (g[i].1 <==> i == |g| - 1))
            && (g != [] && rows != [] && u.key(rows[0].0) == k ==> g[0] == rows[0])
  {
    if rows != [] {
      var tail := rows[1..];
      TailHistories(u, keyLe, rows);
      GroupOfHistories(u, keyLe, tail, k);
      var g, h := Group(rows, RowKey(u), k), Group(tail, RowKey(u), k);
      assert g == (if u.key(rows[0].0) == k then [rows[0]] else []) + h;
      if u.key(rows[0].0) == k {
        assert rows[0].1 == LastOfKey(u, rows, 0);
        if tail != [] && u.key(tail[0].0) == k {
          HeadIsGrouped(u, tail, k);
          assert rows[1] == tail[0] && u.step(rows[0].0, rows[1].0);
        } else {
          NoLaterRows(u, keyLe, rows, k);
        }
      }
    }
  }

  lemma HeadIsGrouped<K, T>(u: HistoryRules<K, T>, rows: seq<(T, bool)>, k: K)
    requires rows != [] && u.key(rows[0].0) == k
    ensures Group(rows, RowKey(u), k) != []
  {
  }

  lemma TailHistories<K, T(!new)>(u: HistoryRules<K, T>, keyLe: (K, K) -> bool, rows: seq<(T, bool)>)
    requires Histories(u, keyLe, rows) && rows != []
    ensures Histories(u, keyLe, rows[1..])
  {
    var tail := rows[1..];
    forall i, j | 0 <= i < j < |tail| ensures Before(u, keyLe, tail[i].0, tail[j].0) {
      assert Before(u, keyLe, rows[i + 1].0, rows[j + 1].0);
    }
    forall i | 0 < i < |tail| && u.key(tail[i - 1].0) == u.key(tail[i].0) ensures u.step(tail[i - 1].0, tail[i].0) {
      assert tail[i] == rows[i + 1] && tail[i - 1] == rows[i + 1 - 1];
    }
    forall i | 0 <= i < |tail| ensures tail[i].1 == LastOfKey(u, tail, i) {
      assert rows[i + 1].1 == LastOfKey(u, rows, i + 1);
    }
  }

  /** Once another key has begun, the first key does not come back. */
  lemma NoLaterRows<K(!new), T(!new)>(u: HistoryRules<K, T>, keyLe: (K, K) -> bool, rows: seq<(T, bool)>, k: K)
    requires Histories(u, keyLe, rows) && Antisymmetric(keyLe) && rows != [] && u.key(rows[0].0) == k
    requires |rows| > 1 ==> u.key(rows[1].0) != k
    ensures Group(rows[1..], RowKey(u), k) == []
  {
    var tail := rows[1..];
    forall row | row in tail ensures RowKey(u)(row) != k {
      var i :| 0 <= i < |tail| && tail[i] == row;
      assert Before(u, keyLe, rows[0].0, rows[1].0);
      assert i > 0 ==> Before(u, keyLe, rows[1].0, rows[i + 1].0);
    }
    GroupNone(tail, RowKey(u), k);
  }

  lemma {:induction false} OneCurrent<T>(g: seq<(T, bool)>)
    requires g != [] && forall i :: 0 <= i < |g| ==> (g[i].1 <==> i == |g| - 1)
    ensures CountCurrent(g) == 1
  {
    if |g| > 1 {
      OneCurrent(g[1..]);
    } else {
      assert g[1..] == [];
    }
  }

  lemma HistoriesVerify<K(!new), T(!new)>(u: HistoryRules<K, T>, keyLe: (K, K) -> bool, rows: seq<(T, bool)>)
    requires Histories(u, keyLe, rows) && Antisymmetric(keyLe)
    ensures AllVerified(u, rows)
  {
    forall k | Group(rows, RowKey(u), k) != [] ensures HistoryVerified(u, Group(rows, RowKey(u), k)) {
      GroupOfHistories(u, keyLe, rows, k);
      OneCurrent(Group(rows, RowKey(u), k));
    }
  }

  // ------------------------------------------------------------ publication series

  function RecordsOf(items: seq<CatalogPublication>): seq<PublicationRecord> {
    seq(|items|, i requires 0 <= i < |items| => items[i].record)
  }

  function SeriesKeyOf(x: CatalogPublication): SeriesId { x.record.Series() }

  /** One chain, and the stored head flags name exactly its head. */
  ghost predicate SeriesVerified(items: seq<CatalogPublication>) {
    && FormsChain(RecordsOf(items))
    && (forall id :: FlaggedAs(items, id) <==> HeadOf(RecordsOf(items), id))
  }

  /** The row with this id is flagged as the head of its series. */
  ghost predicate FlaggedAs(items: seq<CatalogPublication>, id: string) {
    exists x :: x in items && x.isSeriesHead && x.record.publicationId == id
  }

  method VerifySeries(items: seq<CatalogPublication>) returns (ok: bool)
    requires items != []
    ensures ok <==> SeriesVerified(items)
  {
    var records := RecordsOf(items);
    var valid := IsOneSeries(records);
    if !valid { return false; }
    var heads := HeadIds(records);
    var stored := set x | x in items && x.isSeriesHead :: x.record.publicationId;
    hide HeadOf, FormsChain;
    ok := stored == heads;
    if ok {
      forall id
        ensures (exists x :: x in items && x.isSeriesHead && x.record.publicationId == id) <==> HeadOf(records, id)
      {
        assert id in stored <==> id in heads;
      }
    } else {
      ghost var id :| (id in stored) != (id in heads);
    }
  }

  ghost predicate AllSeriesVerified(items: seq<CatalogPublication>) {
    forall s :: Group(items, SeriesKeyOf, s) == [] || SeriesVerified(Group(items, SeriesKeyOf, s))
  }

  method VerifyAllSeries(items: seq<CatalogPublication>) returns (ok: bool)
    ensures ok <==> AllSeriesVerified(items)
  {
    var order, groups := GroupBy(items, SeriesKeyOf);
    hide SeriesVerified, Group;
    for i := 0 to |order|
      invariant forall k :: 0 <= k < i ==> order[k] in groups && SeriesVerified(groups[order[k]])
    {
      assert order[i] in order;
      var verified := VerifySeries(groups[order[i]]);
      if !verified {
        assert Group(items, SeriesKeyOf, order[i]) == groups[order[i]];
        return false;
      }
    }
    forall s ensures Group(items, SeriesKeyOf, s) == [] || SeriesVerified(Group(items, SeriesKeyOf, s)) {
      if s in groups {
        var i :| 0 <= i < |order| && order[i] == s;
      }
    }
    ok := true;
  }

  lemma {:induction false} GroupedRecords(items: seq<CatalogPublication>, s: SeriesId)
    ensures RecordsOf(Group(items, SeriesKeyOf, s)) == SeriesOf(RecordsOf(items), s)
  {
    if items == [] {
      assert RecordsOf(items) == [];
    } else {
      GroupedRecords(items[1..], s);
      var records, rest := RecordsOf(items), Group(items[1..], SeriesKeyOf, s);
      assert records[1..] == RecordsOf(items[1..]) && records[0] == items[0].record;
      assert Group(items, SeriesKeyOf, s) == (if SeriesKeyOf(items[0]) == s then [items[0]] else []) + rest;
      assert SeriesOf(records, s)
             == (if SeriesKey(records[0]) == s then [records[0]] else []) + SeriesOf(records[1..], s);
      assert RecordsOf([items[0]] + rest) == [records[0]] + RecordsOf(rest);
      assert [] + rest == rest;
    }
  }

  function AllFlags(p: Projection): seq<CatalogPublication> { Everything(p).publications.value }

  lemma SeriesVerify(p: Projection)
    requires ProjectionSound(p)
    ensures AllSeriesVerified(AllFlags(p))
  {
    var items := AllFlags(p);
    assert RecordsOf(items) == p.publications;
    RecordsDiffer(p);
    assert SeriesSound(p.publications);
    assert forall id :: id in p.heads <==> HeadOf(p.publications, id);
    hide *;
    forall s | Group(items, SeriesKeyOf, s) != [] ensures SeriesVerified(Group(items, SeriesKeyOf, s)) {
      OneSeriesVerifies(p, s);
    }
  }

  lemma SeriesFormsChain(records: seq<PublicationRecord>, s: SeriesId)
    requires SeriesSound(records) && SeriesOf(records, s) != []
    ensures FormsChain(SeriesOf(records, s))
  {
  }

  lemma FlagIsHead(p: Projection, s: SeriesId, id: string)
    requires SeriesSound(p.publications) && IdsDiffer(p.publications, RecordId)
    requires forall id :: id in p.heads <==> HeadOf(p.publications, id)
    requires FlaggedAs(Group(AllFlags(p), SeriesKeyOf, s), id)
    ensures HeadOf(SeriesOf(p.publications, s), id)
  {
    hide SeriesSound, FormsChain, Heads, Group, SeriesOf, AllFlags, IdsDiffer;
    var part := Group(AllFlags(p), SeriesKeyOf, s);
    GroupMembers(AllFlags(p), SeriesKeyOf, s);
    var x :| x in part && x.isSeriesHead && x.record.publicationId == id;
    StoredHeadIsHead(p, x);
    HeadsBySeries(p.publications);
    assert x.record in Heads(SeriesOf(p.publications, s));
  }

  lemma HeadIsFlag(p: Projection, s: SeriesId, id: string)
    requires SeriesSound(p.publications) && IdsDiffer(p.publications, RecordId)
    requires forall id :: id in p.heads <==> HeadOf(p.publications, id)
    requires HeadOf(SeriesOf(p.publications, s), id)
    ensures FlaggedAs(Group(AllFlags(p), SeriesKeyOf, s), id)
  {
    hide SeriesSound, FormsChain, Heads, Group, SeriesOf, AllFlags, IdsDiffer;
    GroupMembers(AllFlags(p), SeriesKeyOf, s);
    HeadsBySeries(p.publications);
    var r :| r in Heads(SeriesOf(p.publications, s)) && r.publicationId == id;
    HeadIsStored(p, r);
    assert Flags(p, r) in Group(AllFlags(p), SeriesKeyOf, s);
  }

  lemma OneSeriesVerifies(p: Projection, s: SeriesId)
    requires SeriesSound(p.publications) && IdsDiffer(p.publications, RecordId)
    requires forall id :: id in p.heads <==> HeadOf(p.publications, id)
    requires RecordsOf(AllFlags(p)) == p.publications && Group(AllFlags(p), SeriesKeyOf, s) != []
    ensures SeriesVerified(Group(AllFlags(p), SeriesKeyOf, s))
  {
    hide FormsChain, Heads, Group, SeriesOf, AllFlags, HeadOf, FlaggedAs;
    var items := AllFlags(p);
    var part := Group(items, SeriesKeyOf, s);
    GroupedRecords(items, s);
    SeriesFormsChain(p.publications, s);
    forall id ensures FlaggedAs(part, id) <==> HeadOf(RecordsOf(part), id) {
      if FlaggedAs(part, id) { FlagIsHead(p, s, id); }
      if HeadOf(SeriesOf(p.publications, s), id) { HeadIsFlag(p, s, id); }
    }
  }

  lemma StoredHeadIsHead(p: Projection, x: CatalogPublication)
    requires IdsDiffer(p.publications, RecordId) && forall id :: id in p.heads <==> HeadOf(p.publications, id)
    requires x in AllFlags(p) && x.isSeriesHead
    ensures x.record in Heads(p.publications)
  {
    var i :| 0 <= i < |p.publications| && AllFlags(p)[i] == x;
    var r :| r in Heads(p.publications) && r.publicationId == x.record.publicationId;
    HeadIsListed(p.publications, r);
    assert x.record == p.publications[i] && x.record in p.publications;
    SameIdSameRecord(p.publications, r, x.record);
  }

  lemma HeadIsStored(p: Projection, r: PublicationRecord)
    requires r in Heads(p.publications) && forall id :: id in p.heads <==> HeadOf(p.publications, id)
    ensures r in p.publications && Flags(p, r) in AllFlags(p) && Flags(p, r).isSeriesHead
  {
    HeadIsListed(p.publications, r);
    var i :| 0 <= i < |p.publications| && p.publications[i] == r;
    assert AllFlags(p)[i] == Flags(p, r);
    assert HeadOf(p.publications, r.publicationId);
  }

  // ------------------------------------------------------------------- the verifier

  /** What the rows read must satisfy, with nothing but the rows to go by. */
  ghost predicate Consistent(r: ReadResult) {
    && r.calendars.Some? && r.registrations.Some? && r.publications.Some?
    && AllVerified(CalendarHistories(), r.calendars.value)
    && AllVerified(RegistrationHistories(), r.registrations.value)
    && AllSeriesVerified(r.publications.value)
  }

  lemma EverythingIsConsistent(p: Projection)
    requires ProjectionSound(p)
    ensures Consistent(Everything(p))
  {
    StrLeIsOrder();
    WorkLeIsOrder();
    SeriesVerify(p);
    HistoriesVerify(CalendarHistories(), StrLe, p.calendars);
    HistoriesVerify(RegistrationHistories(), WorkLe, p.registrations);
  }

  /** `_verify_semantic_histories`: accepts exactly the tables whose rows are consistent. */
  method VerifySemanticHistories(t: TableContents) returns (ok: bool, read: ReadResult)
    ensures ok <==> Consistent(read)
    ensures forall p :: FilledBy(t, p) ==> read == Everything(p)
  {
    read := ReadTables(t);
    if read.calendars.None? || read.registrations.None? || read.publications.None? {
      return false, read;
    }
    var calendars := VerifyHistories(CalendarHistories(), read.calendars.value);
    var registrations := VerifyHistories(RegistrationHistories(), read.registrations.value);
    var series := VerifyAllSeries(read.publications.value);
    ok := calendars && registrations && series;
  }

  /** A rebuild's own check: whatever can be inserted passes the verification that guards every query. */
  method InsertThenVerify(p: Projection) returns (ok: bool)
    requires ProjectionSound(p) && WellFormed(p)
    ensures ok <==> Storable(p)
  {
    var db := new Database();
    ok := db.InsertTransaction(p);
    if !ok { return; }
    assert FilledBy(db.Tables(), p);
    hide *;
    var verified, read := VerifySemanticHistories(db.Tables());
    EverythingIsConsistent(p);
    ok := verified;
  }
}
