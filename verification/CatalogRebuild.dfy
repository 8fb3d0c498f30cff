/** When a catalog can be rebuilt from canonical files, and two accepted registries it cannot hold. */
module CatalogRebuild {
  import opened Foundations
  import opened UtcText
  import opened PublicationRecords
  import opened AcademicPeriods
  import opened CanonicalListings
  import opened CanonicalPublications
  import opened RegistryAudit
  import opened CatalogTables
  import opened CatalogReadBack
  import opened CatalogVerification
  import RegistrationServices

  function Calendars(c: Canonical): seq<Calendar> { AllRecords(CalendarHistories(), Namespaces(c.years)) }

  /** What record constructors establish of the records in the files. */
  ghost predicate FilesWellFormed(c: Canonical) {
    && (forall x :: x in Calendars(c) ==> CalendarWellFormed(x))
    && (forall r :: r in Contents(c.publications, RecordId) ==> PublicationWellFormed(r))
  }

  /** Every integer in the files has 64 bits, and every time in them can be written in UTC. */
  ghost predicate FilesStorable(c: Canonical) {
    && (forall x :: x in Calendars(c) ==> CalendarStorable(x))
    && (forall r :: r in Registered(c) ==> RegistrationStorable(r))
    && (forall r :: r in Contents(c.publications, RecordId) ==> PublicationStorable(r, None))
    && (forall d :: d in Contents(c.withdrawals, WithdrawalId) ==> Representable(d.withdrawnAt))
  }

  lemma ProjectedWellFormed(c: Canonical, p: Projection)
    requires Projects(p, c) && FilesWellFormed(c)
    ensures WellFormed(p)
  {
    hide Calendars, Contents, CalendarWellFormed, PublicationWellFormed;
    SameContents(p.publications, Contents(c.publications, RecordId));
    forall i | 0 <= i < |p.calendars| ensures CalendarWellFormed(p.calendars[i].0) { ProjectedCalendar(c, p, i); }
    forall i | 0 <= i < |p.publications| ensures PublicationWellFormed(p.publications[i]) {
      assert p.publications[i] in p.publications;
    }
  }

  lemma ProjectedCalendar(c: Canonical, p: Projection, i: nat)
    requires Projects(p, c) && i < |p.calendars|
    ensures p.calendars[i].0 in Calendars(c)
  {
    assert p.calendars[i] in p.calendars;
  }

  lemma ProjectedRegistration(c: Canonical, p: Projection, i: nat)
    requires Projects(p, c) && i < |p.registrations|
    ensures p.registrations[i].0 in Registered(c)
  {
    assert p.registrations[i] in p.registrations;
  }

  /** Every withdrawal of a sound projection reaches the row of its record. */
  lemma WithdrawalReachesRow(p: Projection, d: PublicationWithdrawal)
    requires ProjectionSound(p) && d in p.withdrawals
    ensures exists i ::
        0 <= i < |p.publications| && WithdrawalOf(p.withdrawals, p.publications[i].publicationId) == Some(d)
  {
    assert Withdraws(p.publications, d);
    var r :| r in p.publications && ValidWithdrawal(r, d);
    var i :| 0 <= i < |p.publications| && p.publications[i] == r;
    WithdrawalFound(p.withdrawals, r.publicationId);
    var found := WithdrawalOf(p.withdrawals, r.publicationId).value;
    var a :| 0 <= a < |p.withdrawals| && p.withdrawals[a] == found;
    var b :| 0 <= b < |p.withdrawals| && p.withdrawals[b] == d;
    assert StrictlyBy(p.withdrawals, WithdrawalId);
    assert WithdrawalId(found) == WithdrawalId(d);
  }

  /** An instant from the first of year 1 to the last of year 9999. */
  predicate TimeHeld(t: int) { 86400000000 <= t < 3652060 * 86400000000 }

  predicate IntegerHeld(n: int) { -0x8000_0000_0000_0000 <= n <= 0x7fff_ffff_ffff_ffff }

  /** What a catalog can hold, field by field and in numbers. */
  lemma StorableExactly(p: Projection)
    requires ProjectionSound(p)
    ensures Storable(p) <==>
      && (forall x :: x in p.calendars ==>
            && TimeHeld(x.0.createdAt) && TimeHeld(x.0.updatedAt) && IntegerHeld(x.0.revision)
            && forall y :: y in x.0.periods ==> IntegerHeld(y.sequence))
      && (forall x :: x in p.registrations ==>
            && TimeHeld(x.0.createdAt) && TimeHeld(x.0.updatedAt) && IntegerHeld(x.0.revision)
            && |x.0.metadata.sourceRecords| <= 0x8000_0000_0000_0000)
      && (forall r :: r in p.publications ==>
            && TimeHeld(r.publishedAt) && IntegerHeld(r.recordSetRevision)
            && (r.registrationRevision.Some? ==> IntegerHeld(r.registrationRevision.value)))
      && (forall d :: d in p.withdrawals ==> TimeHeld(d.withdrawnAt))
  {
    forall t: int ensures Representable(t) <==> TimeHeld(t) { RepresentableExactly(t); }
    forall d | d in p.withdrawals
      ensures exists i :: 0 <= i < |p.publications|
                          && WithdrawalOf(p.withdrawals, p.publications[i].publicationId) == Some(d)
    {
      WithdrawalReachesRow(p, d);
    }
    forall i | 0 <= i < |p.publications|
      ensures var d := WithdrawalOf(p.withdrawals, p.publications[i].publicationId);
              d.Some? ==> d.value in p.withdrawals
    {
      WithdrawalFound(p.withdrawals, p.publications[i].publicationId);
    }
    hide ProjectionSound, Representable, WithdrawalOf;
    CalendarsHeld(p.calendars);
    RegistrationsHeld(p.registrations);
    PublicationsHeld(p.publications, p.withdrawals);
  }

  lemma CalendarsHeld(items: seq<(Calendar, bool)>)
    requires forall t :: Representable(t) <==> TimeHeld(t)
    ensures (forall i :: 0 <= i < |items| ==> CalendarStorable(items[i].0)) <==>
            forall x :: x in items ==>
              && TimeHeld(x.0.createdAt) && TimeHeld(x.0.updatedAt) && IntegerHeld(x.0.revision)
              && forall y :: y in x.0.periods ==> IntegerHeld(y.sequence)
  {
    hide Representable;
    assert forall i :: 0 <= i < |items| ==> items[i] in items;
  }

  lemma RegistrationsHeld(items: seq<(RegistrationServices.Registration, bool)>)
    requires forall t :: Representable(t) <==> TimeHeld(t)
    ensures (forall i :: 0 <= i < |items| ==> RegistrationStorable(items[i].0)) <==>
            forall x :: x in items ==>
              && TimeHeld(x.0.createdAt) && TimeHeld(x.0.updatedAt) && IntegerHeld(x.0.revision)
              && |x.0.metadata.sourceRecords| <= 0x8000_0000_0000_0000
  {
    hide Representable;
    assert forall i :: 0 <= i < |items| ==> items[i] in items;
  }

  lemma PublicationsHeld(records: seq<PublicationRecord>, withdrawals: seq<PublicationWithdrawal>)
    requires forall t :: Representable(t) <==> TimeHeld(t)
    requires forall d :: d in withdrawals ==>
        exists i :: 0 <= i < |records| && WithdrawalOf(withdrawals, records[i].publicationId) == Some(d)
    requires forall i :: 0 <= i < |records| ==>
        var d := WithdrawalOf(withdrawals, records[i].publicationId); d.Some? ==> d.value in withdrawals
    ensures (forall i :: 0 <= i < |records| ==>
              PublicationStorable(records[i], WithdrawalOf(withdrawals, records[i].publicationId))) <==>
            && (forall r :: r in records ==>
                  && TimeHeld(r.publishedAt) && IntegerHeld(r.recordSetRevision)
                  && (r.registrationRevision.Some? ==> IntegerHeld(r.registrationRevision.value)))
            && (forall d :: d in withdrawals ==> TimeHeld(d.withdrawnAt))
  {
    hide Representable, WithdrawalOf;
    assert forall i :: 0 <= i < |records| ==> records[i] in records;
  }

  lemma StorableInParts(r: PublicationRecord, withdrawal: Option<PublicationWithdrawal>)
    ensures PublicationStorable(r, withdrawal) <==>
              PublicationStorable(r, None) && (withdrawal.Some? ==> Representable(withdrawal.value.withdrawnAt))
  {
  }

  lemma ProjectedStorable(c: Canonical, p: Projection)
    requires ProjectionSound(p) && Projects(p, c) && FilesStorable(c)
    ensures Storable(p)
  {
    hide ProjectionSound, Calendars, Registered, Contents, CalendarStorable, RegistrationStorable, PublicationStorable,
         Representable;
    SameContents(p.publications, Contents(c.publications, RecordId));
    SameContents(p.withdrawals, Contents(c.withdrawals, WithdrawalId));
    forall i | 0 <= i < |p.calendars| ensures CalendarStorable(p.calendars[i].0) { ProjectedCalendar(c, p, i); }
    forall i | 0 <= i < |p.registrations| ensures RegistrationStorable(p.registrations[i].0) {
      ProjectedRegistration(c, p, i);
    }
    forall i | 0 <= i < |p.publications|
      ensures PublicationStorable(p.publications[i], WithdrawalOf(p.withdrawals, p.publications[i].publicationId))
    {
      var r := p.publications[i];
      assert r in p.publications;
      WithdrawalFound(p.withdrawals, r.publicationId);
      StorableInParts(r, WithdrawalOf(p.withdrawals, r.publicationId));
    }
  }

  lemma StorableProjected(c: Canonical, p: Projection)
    requires ProjectionSound(p) && Projects(p, c) && Storable(p)
    ensures FilesStorable(c)
  {
    hide ProjectionSound, Registered, Contents, CalendarStorable, RegistrationStorable, PublicationStorable,
         Representable;
    SameContents(p.publications, Contents(c.publications, RecordId));
    SameContents(p.withdrawals, Contents(c.withdrawals, WithdrawalId));
    forall x | x in Calendars(c) ensures CalendarStorable(x) {
      var row :| row in p.calendars && row.0 == x;
      var i :| 0 <= i < |p.calendars| && p.calendars[i] == row;
    }
    forall x | x in Registered(c) ensures RegistrationStorable(x) {
      var row :| row in p.registrations && row.0 == x;
      var i :| 0 <= i < |p.registrations| && p.registrations[i] == row;
    }
    forall r | r in p.publications ensures PublicationStorable(r, None) {
      var i :| 0 <= i < |p.publications| && p.publications[i] == r;
      StorableInParts(r, WithdrawalOf(p.withdrawals, r.publicationId));
    }
    forall d | d in p.withdrawals ensures Representable(d.withdrawnAt) {
      WithdrawalReachesRow(p, d);
      var i :| 0 <= i < |p.publications| && WithdrawalOf(p.withdrawals, p.publications[i].publicationId) == Some(d);
      StorableInParts(p.publications[i], Some(d));
    }
  }

  /**
   Audit and rebuild over the same files. The rebuild projects them, inserts the projection and
   verifies the tables; it succeeds exactly when the projection accepts the files and everything
   in them can be held. So after a clean audit it can only fail for a value too large.
   */
  method AuditThenRebuild(c: Canonical) returns (canonicalValid: bool, rebuilt: bool)
    requires WellNamed(c) && FilesWellFormed(c)
    ensures rebuilt <==> Acceptable(c) && FilesStorable(c)
    ensures canonicalValid ==> (rebuilt <==> FilesStorable(c))
  {
    hide Acceptable, FilesStorable, FilesWellFormed, WellNamed, ProducersPresent;
    var _, valid := Audit(c);
    canonicalValid := valid;
    var projected := LoadProjection(c);
    if projected.Failure? { return canonicalValid, false; }
    var p := projected.value;
    hide ProjectionSound, Projects, Storable, WellFormed;
    ProjectedWellFormed(c, p);
    if FilesStorable(c) { ProjectedStorable(c, p); }
    if Storable(p) { StorableProjected(c, p); }
    rebuilt := InsertThenVerify(p);
  }

  // ---------------------------------------------------------------- two witnesses

  /** A registry of one publication, the first of an intervention series. */
  function Single(r: PublicationRecord): Projection { Projection([], [], [r], [], {r.publicationId}) }

  ghost predicate FirstIntervention(r: PublicationRecord) {
    r.kind.InterventionRecordSet? && r.supersedes.None? && PublicationWellFormed(r)
  }

  lemma SingleIsSound(r: PublicationRecord)
    requires FirstIntervention(r)
    ensures ProjectionSound(Single(r)) && WellFormed(Single(r))
    ensures Storable(Single(r)) <==> Representable(r.publishedAt) && Fits64(r.recordSetRevision)
  {
    hide Representable, SeriesSound, HeadOf;
    SingleSeries(r);
    SingleHead(r);
    SingleStorable(r);
    hide Storable;
  }

  lemma SingleStorable(r: PublicationRecord)
    requires r.registrationRevision.None?
    ensures Storable(Single(r)) <==> Representable(r.publishedAt) && Fits64(r.recordSetRevision)
  {
    hide Representable;
    var p := Single(r);
    assert p.publications[0] == r && WithdrawalOf(p.withdrawals, r.publicationId) == None;
    assert PublicationStorable(r, None) <==> Representable(r.publishedAt) && Fits64(r.recordSetRevision);
    assert forall i :: 0 <= i < |p.publications| ==> p.publications[i] == r;
  }

  lemma SingleSeries(r: PublicationRecord)
    requires r.supersedes.None?
    ensures SeriesSound([r])
  {
    hide Group;
    forall s | SeriesOf([r], s) != [] ensures FormsChain(SeriesOf([r], s)) {
      GroupMembers([r], SeriesKey, s);
      assert SeriesOf([r], s)[0] in SeriesOf([r], s);
      OnlyMember(SeriesOf([r], s), r);
      assert IsChain([r]);
    }
  }

  lemma SingleHead(r: PublicationRecord)
    requires r.supersedes.None?
    ensures forall id :: id in Single(r).heads <==> HeadOf([r], id)
  {
    hide Heads;
    assert IsChain([r]);
    HeadOfChain([r], [r]);
    forall id ensures id in Single(r).heads <==> HeadOf([r], id) {
      if id == r.publicationId { assert r in Heads([r]); }
    }
  }

  /**
   The validators put no upper bound on a revision: whatever else the record says, 2^63 is too
   large for the catalog.
   */
  lemma LargeRevisionIsNotStorable(r: PublicationRecord)
    requires FirstIntervention(r) && Representable(r.publishedAt)
    ensures var p := Single(r.(recordSetRevision := LIMIT64)); ProjectionSound(p) && WellFormed(p) && !Storable(p)
    ensures Storable(Single(r.(recordSetRevision := LIMIT64 - 1)))
  {
    hide PublicationWellFormed, Representable, ProjectionSound, WellFormed, Storable;
    SameLists(r, r.(recordSetRevision := LIMIT64));
    SameLists(r, r.(recordSetRevision := LIMIT64 - 1));
    SingleIsSound(r.(recordSetRevision := LIMIT64));
    SingleIsSound(r.(recordSetRevision := LIMIT64 - 1));
  }

  /**
   Nor do they bound times: an instant before the first of UTC, midnight of the first day east
   of it, is too early.
   */
  lemma EarlyTimeIsNotStorable(r: PublicationRecord)
    requires FirstIntervention(r) && Fits64(r.recordSetRevision)
    ensures var p := Single(r.(publishedAt := DAY - 1)); ProjectionSound(p) && WellFormed(p) && !Storable(p)
    ensures Storable(Single(r.(publishedAt := DAY)))
  {
    assert Representable(DAY) && !Representable(DAY - 1);
    hide PublicationWellFormed, Representable, ProjectionSound, WellFormed, Storable;
    SameLists(r, r.(publishedAt := DAY - 1));
    SameLists(r, r.(publishedAt := DAY));
    SingleIsSound(r.(publishedAt := DAY - 1));
    SingleIsSound(r.(publishedAt := DAY));
  }

  lemma SameLists(r: PublicationRecord, x: PublicationRecord)
    requires FirstIntervention(r)
    requires x == r.(recordSetRevision := x.recordSetRevision, publishedAt := x.publishedAt)
    ensures FirstIntervention(x)
  {
  }
}
