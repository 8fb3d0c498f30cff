/**
 Runs from the empty registry, with every publication id kept to one series, in which a
 service answers an error although nothing it relies on has been lost. They exist for any
 records that are the first of their series and whose manifests verify.
 */
module PublicationRaces {
  import opened Foundations
  import opened PublicationRecords
  import opened PublicationProtocol
  import opened PublicationHistory
  import opened PublicationServices
  import opened PublicationOutcomes
  import opened PublicationRuns
  import UtcText

  const NO_PROCS: map<nat, Proc> := map[]
  const NO_LOCKS: map<SeriesId, nat> := map[]

  /** Ids keep to their series; operations may fail unless the stage is clean. */
  function FromEmpty(manifests: map<string, string>, clean: bool, home: map<string, SeriesId>): Stage {
    Stage(Empty(manifests), true, clean, {}, home, manifests)
  }

  function HomeOf(r: PublicationRecord): map<string, SeriesId> { map[r.publicationId := r.Series()] }

  // -------------------------------------------------------------- one publisher alone

  lemma PublisherStarts(manifests: map<string, string>, clean: bool, r: PublicationRecord)
    ensures var g := FromEmpty(manifests, clean, HomeOf(r));
            Reaches(g, At(g, NO_LOCKS, NO_PROCS[1 := Publisher(r, Waiting)], NOTHING))
  {
    var g := FromEmpty(manifests, clean, map[]);
    Here(g);
    PublisherJoins(g, NO_LOCKS, NO_PROCS, NOTHING, 1, r);
  }

  lemma PublishesAlone(manifests: map<string, string>, clean: bool, r: PublicationRecord)
    requires IsRoot(r) && Verifies(manifests, r)
    ensures var g := FromEmpty(manifests, clean, HomeOf(r));
            Reaches(g, At(g, NO_LOCKS, NO_PROCS[1 := Publisher(r, Finished(Written))], With(NOTHING, r)))
  {
    hide Reaches, IsRoot, Verifies;
    var g := FromEmpty(manifests, clean, HomeOf(r));
    PublisherStarts(manifests, clean, r);
    PublisherWrites(g, NO_LOCKS, NO_PROCS, 1, r);
    PublisherFinishes(g, NO_LOCKS, NO_PROCS, With(NOTHING, r), 1, r);
  }

  // ------------------------------------------------------------ a replay that fails

  ghost predicate TwoRoots(manifests: map<string, string>, mine: PublicationRecord, other: PublicationRecord) {
    && IsRoot(mine) && IsRoot(other) && Verifies(manifests, mine) && Verifies(manifests, other)
    && mine.publicationId != other.publicationId && mine.Series() != other.Series()
  }

  function Both(manifests: map<string, string>, mine: PublicationRecord, other: PublicationRecord): Stage {
    FromEmpty(manifests, true, HomeOf(mine)[other.publicationId := other.Series()])
  }

  function HalfWritten(mine: PublicationRecord, other: PublicationRecord): Files {
    With(NOTHING, mine).(records := With(NOTHING, mine).records[other.publicationId := Partial])
  }

  lemma OtherIsReady(manifests: map<string, string>, mine: PublicationRecord, other: PublicationRecord)
    requires TwoRoots(manifests, mine, other)
    ensures var g := Both(manifests, mine, other);
            Reaches(g, At(g, NO_LOCKS[other.Series() := 2],
                          NO_PROCS[2 := Publisher(other, Ready)][1 := Publisher(mine, Waiting)], NOTHING))
  {
    hide Reaches, IsRoot, Verifies;
    var g := Both(manifests, mine, other);
    var one := NO_PROCS[1 := Publisher(mine, Waiting)];
    PublisherStarts(manifests, true, mine);
    PublisherJoins(FromEmpty(manifests, true, HomeOf(mine)), NO_LOCKS, one, NOTHING, 2, other);
    PublisherLists(g, NO_LOCKS, one, 2, other);
    assert one[2 := Publisher(other, Ready)] == NO_PROCS[2 := Publisher(other, Ready)][1 := Publisher(mine, Waiting)];
  }

  /** Process 1 publishes and succeeds, while process 2 goes from its listing to an empty file. */
  lemma PublishesBesideAnother(manifests: map<string, string>, mine: PublicationRecord, other: PublicationRecord)
    requires TwoRoots(manifests, mine, other)
    ensures var g := Both(manifests, mine, other);
            Reaches(g, At(g, NO_LOCKS[other.Series() := 2],
                          NO_PROCS[2 := Publisher(other, Filling)][1 := Publisher(mine, Finished(Written))],
                          HalfWritten(mine, other)))
  {
    hide Reaches, IsRoot, Verifies;
    var g := Both(manifests, mine, other);
    var held := NO_LOCKS[other.Series() := 2];
    var ready := NO_PROCS[2 := Publisher(other, Ready)];
    OtherIsReady(manifests, mine, other);
    PublisherWrites(g, held, ready, 1, mine);
    PublisherFinishes(g, held, ready, With(NOTHING, mine), 1, mine);
    var done := NO_PROCS[1 := Publisher(mine, Finished(Written))];
    assert ready[1 := Publisher(mine, Finished(Written))] == done[2 := Publisher(other, Ready)];
    PublisherCreates(g, held, done, With(NOTHING, mine), 2, other);
    assert done[2 := Publisher(other, Filling)]
           == NO_PROCS[2 := Publisher(other, Filling)][1 := Publisher(mine, Finished(Written))];
  }

  function Reader(s: SeriesId, phase: Phase): Proc { Proc(List, s, phase) }

  lemma ReaderEnumerates(g: Stage, locks: map<SeriesId, nat>, procs: map<nat, Proc>, f: Files, pid: nat, s: SeriesId,
                         names: seq<string>)
    requires Reaches(g, At(g, locks, procs, f)) && pid !in procs && Names(names, f.records)
    ensures Reaches(g, At(g, locks, procs[pid := Reader(s, Checking(names, 0))], f))
  {
    hide Reaches, Names;
    Joins(g, locks, procs, f, pid, List, s);
    Moves(g, locks, procs, f, pid, Reader(s, Waiting), GOOD_IO, Scanning);
    Moves(g, locks, procs, f, pid, Reader(s, Scanning), Choice(true, Removed, names), Checking(names, 0));
  }

  /** A reader loads the first of two names and meets an unfilled file under the second. */
  lemma ReaderMeetsAnUnfilledFile(g: Stage, locks: map<SeriesId, nat>, procs: map<nat, Proc>, f: Files, pid: nat,
                                  s: SeriesId, names: seq<string>)
    requires g.undisturbed == {} && |names| == 2
    requires Loads(f.records, names[0]) && names[1] in f.records && f.records[names[1]] == Partial
    requires Reaches(g, At(g, locks, procs[pid := Reader(s, Checking(names, 0))], f))
    ensures Reaches(g, At(g, locks, procs[pid := Reader(s, Finished(IntegrityError))], f))
  {
    hide Reaches;
    Moves(g, locks, procs, f, pid, Reader(s, Checking(names, 0)), GOOD_IO, Checking(names, 1));
    Moves(g, locks, procs, f, pid, Reader(s, Checking(names, 1)), GOOD_IO, Finished(IntegrityError));
  }

  lemma TwoNames(mine: PublicationRecord, other: PublicationRecord)
    requires mine.publicationId != other.publicationId
    ensures Names([mine.publicationId, other.publicationId], HalfWritten(mine, other).records)
  {
    var names := [mine.publicationId, other.publicationId];
    assert names[0] == mine.publicationId && names[1] == other.publicationId;
  }

  lemma CleanRun(g: Stage, v: World) returns (trace: seq<World>, events: seq<Event>)
    requires Reaches(g, v) && g.clean
    ensures Run(trace, events, g.strict) && trace[0] == g.start && trace[|trace| - 1] == v
    ensures forall e :: e in events ==> Faultless(e)
  {
    trace, events :| RunOf(g, trace, events, v);
    forall e | e in events ensures Faultless(e) {
      var i :| 0 <= i < |events| && events[i] == e;
      assert Allowed(g, trace[i], events[i]);
    }
  }

  /** What the replay has met: its record is published, somebody else is publishing, and its listing failed. */
  ghost predicate FailedReplay(v: World, mine: PublicationRecord) {
    && 1 in v.procs && v.procs[1] == Publisher(mine, Finished(Written)) && Settled(v, mine)
    && 2 in v.procs && Live(v.procs[2])
    && 3 in v.procs && v.procs[3] == Reader(mine.Series(), Finished(IntegrityError))
  }

  /**
   Process 1 has published; process 2 is publishing to another series. A listing begun by
   process 3 to repeat the first call fails, although no operation failed and nothing
   crashed: the repeat is answered with an integrity failure, whatever it asks for.
   */
  lemma ReplayFailsWithoutAnyFault(manifests: map<string, string>, mine: PublicationRecord, other: PublicationRecord)
    requires TwoRoots(manifests, mine, other)
    ensures exists trace: seq<World>, events: seq<Event> ::
      && Run(trace, events, true) && Initial(trace[0]) && (forall e :: e in events ==> Faultless(e))
      && FailedReplay(trace[|trace| - 1], mine)
    ensures forall q, digest, predecessor ::
              AfterListing(IntegrityError, q, digest, predecessor) == Return(Failed(IntegrityFailure))
  {
    hide Reaches, TwoRoots, FailedReplay;
    var v := ReplayHasFailed(manifests, mine, other);
    var trace, events := CleanRun(Both(manifests, mine, other), v);
    assert FailedReplay(trace[|trace| - 1], mine);
  }

  lemma ReplayHasFailed(manifests: map<string, string>, mine: PublicationRecord, other: PublicationRecord)
    returns (v: World)
    requires TwoRoots(manifests, mine, other)
    ensures Reaches(Both(manifests, mine, other), v) && FailedReplay(v, mine)
  {
    hide Reaches, Names, TwoRoots;
    var g := Both(manifests, mine, other);
    var held := NO_LOCKS[other.Series() := 2];
    var procs := NO_PROCS[2 := Publisher(other, Filling)][1 := Publisher(mine, Finished(Written))];
    var f, s := HalfWritten(mine, other), mine.Series();
    var names := [mine.publicationId, other.publicationId];
    assert mine.publicationId != other.publicationId by { RootsDiffer(manifests, mine, other); }
    PublishesBesideAnother(manifests, mine, other);
    TwoNames(mine, other);
    ReaderEnumerates(g, held, procs, f, 3, s, names);
    ReaderMeetsAnUnfilledFile(g, held, procs, f, 3, s, names);
    v := At(g, held, procs[3 := Reader(s, Finished(IntegrityError))], f);
  }

  lemma RootsDiffer(manifests: map<string, string>, mine: PublicationRecord, other: PublicationRecord)
    requires TwoRoots(manifests, mine, other)
    ensures mine.publicationId != other.publicationId
  {
  }

  // --------------------------------------- a publication answered with an integrity failure

  /** The record is stored for good; its service, reading back with no fault, answers a failure. */
  ghost predicate AnsweredWithFailure(v: World, r: PublicationRecord) {
    var id := r.publicationId;
    && 1 in v.procs && v.procs[1] == Publisher(r, Finished(Written)) && Settled(v, r)
    && AfterWritten(r, ReadRecord(v.files, id, true), ReadWithdrawal(v.files, true, v.files, true, id))
      == Failed(IntegrityFailure)
  }

  /**
   Process 1 has published and released its lock; process 2 at once withdraws the record and
   has just created its file. Process 1's service, reading back with no fault at all, answers
   an integrity failure for a record that is stored for good.
   */
  lemma PublishedButAnsweredWithFailure(manifests: map<string, string>, r: PublicationRecord, d: PublicationWithdrawal)
    requires IsRoot(r) && Verifies(manifests, r) && ValidWithdrawal(r, d)
    ensures exists trace: seq<World>, events: seq<Event> ::
      && Run(trace, events, true) && Initial(trace[0]) && (forall e :: e in events ==> Faultless(e))
      && AnsweredWithFailure(trace[|trace| - 1], r)
  {
    hide Reaches, RunOf, IsRoot, Verifies;
    var g := FromEmpty(manifests, true, HomeOf(r));
    var one, f, s := NO_PROCS[1 := Publisher(r, Finished(Written))], With(NOTHING, r), r.Series();
    PublishesAlone(manifests, true, r);
    WithdrawerLocates(g, NO_LOCKS, one, f, 2, d, s);
    WithdrawerLocks(g, NO_LOCKS, one, f, 2, d, s);
    WithdrawerCreates(g, NO_LOCKS[s := 2], one, f, 2, d, s);
    var half := f.(withdrawals := f.withdrawals[d.publicationId := Partial]);
    var v := At(g, NO_LOCKS[s := 2], one[2 := Withdrawer(d, s, Filling)], half);
    assert AnsweredWithFailure(v, r);
    var trace, events := CleanRun(g, v);
    assert AnsweredWithFailure(trace[|trace| - 1], r);
  }

  // ------------------------------------------------- a withdrawal refused for its time

  /** The record has been created and filled; its publisher has yet to verify it. */
  function Unverified(manifests: map<string, string>, r: PublicationRecord): World {
    At(FromEmpty(manifests, false, HomeOf(r)), NO_LOCKS[r.Series() := 1], NO_PROCS[1 := Publisher(r, Verifying)],
       With(NOTHING, r))
  }

  lemma ReadBeforeVerified(manifests: map<string, string>, r: PublicationRecord)
    requires IsRoot(r) && Verifies(manifests, r)
    ensures Reaches(FromEmpty(manifests, false, HomeOf(r)), Unverified(manifests, r))
  {
    hide Reaches, IsRoot, Verifies;
    PublisherStarts(manifests, false, r);
    PublisherWrites(FromEmpty(manifests, false, HomeOf(r)), NO_LOCKS, NO_PROCS, 1, r);
  }

  /** What may happen after a service has read `r` there. */
  function Afterwards(manifests: map<string, string>, r: PublicationRecord): Stage {
    FromEmpty(manifests, false, HomeOf(r)).(start := Unverified(manifests, r))
  }

  lemma LocatedThenUndone(manifests: map<string, string>, r: PublicationRecord, d: PublicationWithdrawal)
    requires ValidWithdrawal(r, d)
    ensures var g := Afterwards(manifests, r);
            Reaches(g, At(g, NO_LOCKS,
                          NO_PROCS[2 := Withdrawer(d, r.Series(), Prepared)][1 := Publisher(r, Finished(WriteError))],
                          NOTHING))
  {
    hide Reaches;
    var g, s := Afterwards(manifests, r), r.Series();
    var held := NO_LOCKS[s := 1];
    Here(g);
    WithdrawerLocates(g, held, NO_PROCS[1 := Publisher(r, Verifying)], With(NOTHING, r), 2, d, s);
    var two := NO_PROCS[2 := Withdrawer(d, s, Prepared)];
    assert NO_PROCS[1 := Publisher(r, Verifying)][2 := Withdrawer(d, s, Prepared)] == two[1 := Publisher(r, Verifying)];
    PublisherUndoes(g, held, two, NOTHING, 1, r);
    PublisherGivesUp(g, held, two, NOTHING, 1, r);
    assert held - {s} == NO_LOCKS;
  }

  function Refused(r: PublicationRecord, later: PublicationRecord): map<nat, Proc> {
    NO_PROCS[1 := Publisher(r, Finished(WriteError))][3 := Publisher(later, Finished(Written))]
  }

  /** The record is rolled back, and another is published under the same id, with a later time. */
  lemma RecreatedLater(manifests: map<string, string>, r: PublicationRecord, later: PublicationRecord,
                       d: PublicationWithdrawal)
    requires IsRoot(later) && Verifies(manifests, later) && ValidWithdrawal(r, d)
    requires later.publicationId == r.publicationId && later.Series() == r.Series()
    ensures var g := Afterwards(manifests, r);
            Reaches(g, At(g, NO_LOCKS, Refused(r, later)[2 := Withdrawer(d, r.Series(), Prepared)],
                          With(NOTHING, later)))
  {
    hide Reaches, IsRoot, Verifies;
    var g, s := Afterwards(manifests, r), r.Series();
    var gone := NO_PROCS[2 := Withdrawer(d, s, Prepared)][1 := Publisher(r, Finished(WriteError))];
    LocatedThenUndone(manifests, r, d);
    PublisherJoins(g, NO_LOCKS, gone, NOTHING, 3, later);
    PublisherWrites(g, NO_LOCKS, gone, 3, later);
    PublisherFinishes(g, NO_LOCKS, gone, With(NOTHING, later), 3, later);
    assert gone[3 := Publisher(later, Finished(Written))] == Refused(r, later)[2 := Withdrawer(d, s, Prepared)];
  }

  ghost predicate RefusedForItsTime(v: World, d: PublicationWithdrawal, later: PublicationRecord) {
    Settled(v, later) && 2 in v.procs && v.procs[2] == Withdrawer(d, later.Series(), Releasing(WriteError))
  }

  /**
   A service reads a record its publisher has yet to verify, and builds a withdrawal of it.
   The publisher rolls the record back, another publishes under the same id and series at a
   later time, and the withdrawer is refused under its lock for a time the service chose.
   */
  lemma UnsettledRecordBlocksItsWithdrawal(manifests: map<string, string>, r: PublicationRecord,
                                           later: PublicationRecord, now: int, reason: string)
    requires IsRoot(r) && IsRoot(later) && Verifies(manifests, r) && Verifies(manifests, later)
    requires later.publicationId == r.publicationId && later.Series() == r.Series()
    requires RequestedWithdrawal(r, now, reason).Some? && later.publishedAt > now && later.publishedAt > r.publishedAt
    ensures var read := Unverified(manifests, r);
            && Initial(Empty(manifests)) && Reaches(FromEmpty(manifests, false, HomeOf(r)), read)
            && StoredRecord(read.files, r) && !Settled(read, r)
    ensures exists v :: Reaches(Afterwards(manifests, r), v)
                        && RefusedForItsTime(v, RequestedWithdrawal(r, now, reason).value, later)
  {
    hide Reaches, IsRoot, Verifies, UtcText.Representable;
    ReadBeforeVerified(manifests, r);
    assert UndoableRecord(Unverified(manifests, r).procs[1], r.publicationId);
    var g, s := Afterwards(manifests, r), r.Series();
    var d := RequestedWithdrawal(r, now, reason).value;
    RecreatedLater(manifests, r, later, d);
    var others, held, f := Refused(r, later), NO_LOCKS[s := 2], With(NOTHING, later);
    WithdrawerLocks(g, NO_LOCKS, others, f, 2, d, s);
    Moves(g, held, others, f, 2, Withdrawer(d, s, Locked), GOOD_IO, Releasing(WriteError));
    var v := At(g, held, others[2 := Withdrawer(d, s, Releasing(WriteError))], f);
    assert RefusedForItsTime(v, d, later);
  }

  // -------------------------------------------------------- a record outside the UTC calendar

  /**
   A record may be published whose own time cannot be written in UTC: no step of its publisher
   asks for that. From then on it can be neither withdrawn nor superseded, whatever the clock
   says: both services overflow before they write anything.
   */
  lemma EarlyPublicationIsStuck(manifests: map<string, string>, r: PublicationRecord)
    requires IsRoot(r) && Verifies(manifests, r) && !UtcText.Representable(r.publishedAt)
    ensures exists v ::
      && Reaches(FromEmpty(manifests, true, HomeOf(r)), v)
      && Settled(v, r) && ReadRecord(v.files, r.publicationId, true) == Found(r)
    ensures forall now, reason ::
        PrepareWithdrawal(Found(r), Success(None), now, reason) == Failure(WithdrawalOverflowed)
    ensures forall now :: UtcText.ServiceTime(now, Some(r.publishedAt)).None?
  {
    hide Reaches, IsRoot, Verifies, UtcText.Representable;
    PublishesAlone(manifests, true, r);
    var g := FromEmpty(manifests, true, HomeOf(r));
    var v := At(g, NO_LOCKS, NO_PROCS[1 := Publisher(r, Finished(Written))], With(NOTHING, r));
    assert Settled(v, r);
  }
}
