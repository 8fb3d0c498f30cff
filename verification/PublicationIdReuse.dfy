/**
 Two results need publication ids to be used once. Locks are per series but files are per id:
 if another series may reuse an id, a run exists that leaves a withdrawal without its
 publication. And if one series may give an id to a second publisher, a run exists in which an
 unlocked listing fails although every file it opens loads.
 */
module PublicationIdReuse {
  import opened Foundations
  import opened PublicationRecords
  import opened PublicationProtocol
  import opened PublicationHistory
  import opened PublicationListings
  import opened PublicationRuns
  import opened PublicationRaces

  // -------------------------------------------------------------- across two series

  /** Ids may be reused, and operations may fail. */
  function Loose(manifests: map<string, string>, home: map<string, SeriesId>): Stage {
    Stage(Empty(manifests), false, false, {}, home, manifests)
  }

  ghost predicate SharedId(manifests: map<string, string>, first: PublicationRecord, other: PublicationRecord) {
    && IsRoot(first) && IsRoot(other) && Verifies(manifests, first) && Verifies(manifests, other)
    && first.publicationId == other.publicationId && first.Series() != other.Series()
  }

  /** A withdrawer locates the first publisher's record, which is then rolled back. */
  lemma FirstUndone(manifests: map<string, string>, first: PublicationRecord, d: PublicationWithdrawal)
    requires IsRoot(first) && Verifies(manifests, first) && ValidWithdrawal(first, d)
    ensures var g := Loose(manifests, HomeOf(first));
            Reaches(g, At(g, NO_LOCKS,
                          NO_PROCS[2 := Withdrawer(d, first.Series(), Prepared)]
                                  [1 := Publisher(first, Finished(WriteError))],
                          NOTHING))
  {
    hide Reaches, IsRoot, Verifies;
    var g, s := Loose(manifests, HomeOf(first)), first.Series();
    var held := NO_LOCKS[s := 1];
    Here(Loose(manifests, map[]));
    PublisherJoins(Loose(manifests, map[]), NO_LOCKS, NO_PROCS, NOTHING, 1, first);
    PublisherWrites(g, NO_LOCKS, NO_PROCS, 1, first);
    var two := NO_PROCS[2 := Withdrawer(d, s, Prepared)];
    WithdrawerLocates(g, held, NO_PROCS[1 := Publisher(first, Verifying)], With(NOTHING, first), 2, d, s);
    assert NO_PROCS[1 := Publisher(first, Verifying)][2 := Withdrawer(d, s, Prepared)]
           == two[1 := Publisher(first, Verifying)];
    PublisherUndoes(g, held, two, NOTHING, 1, first);
    PublisherGivesUp(g, held, two, NOTHING, 1, first);
    assert held - {s} == NO_LOCKS;
  }

  function Gone(first: PublicationRecord): map<nat, Proc> { NO_PROCS[1 := Publisher(first, Finished(WriteError))] }

  /** Another series reuses the id, while the withdrawer takes the old series' lock. */
  lemma ReusedUnderOtherLock(manifests: map<string, string>, first: PublicationRecord, other: PublicationRecord,
                             d: PublicationWithdrawal)
    requires SharedId(manifests, first, other) && ValidWithdrawal(first, d)
    ensures var g := Loose(manifests, HomeOf(first));
            Reaches(g, At(g, NO_LOCKS[other.Series() := 3][first.Series() := 2],
                          Gone(first)[3 := Publisher(other, Verifying)][2 := Withdrawer(d, first.Series(), Locked)],
                          With(NOTHING, other)))
  {
    hide Reaches, IsRoot, Verifies;
    var g, s := Loose(manifests, HomeOf(first)), first.Series();
    FirstUndone(manifests, first, d);
    var prepared := Gone(first)[2 := Withdrawer(d, s, Prepared)];
    assert prepared == NO_PROCS[2 := Withdrawer(d, s, Prepared)][1 := Publisher(first, Finished(WriteError))];
    PublisherJoins(g, NO_LOCKS, prepared, NOTHING, 3, other);
    PublisherWrites(g, NO_LOCKS, prepared, 3, other);
    var procs := Gone(first)[3 := Publisher(other, Verifying)];
    assert prepared[3 := Publisher(other, Verifying)] == procs[2 := Withdrawer(d, s, Prepared)];
    WithdrawerLocks(g, NO_LOCKS[other.Series() := 3], procs, With(NOTHING, other), 2, d, s);
  }

  /**
   From the empty registry, reusing one id across two series reaches an orphan withdrawal: for
   any two records that share an id, and any withdrawal that fits both.
   */
  lemma ReuseOrphansAWithdrawal(manifests: map<string, string>, first: PublicationRecord, other: PublicationRecord,
                                d: PublicationWithdrawal)
    requires SharedId(manifests, first, other) && ValidWithdrawal(first, d) && ValidWithdrawal(other, d)
    ensures exists trace: seq<World>, events: seq<Event> ::
      Run(trace, events, false) && Initial(trace[0]) && !NoOrphanWithdrawal(trace[|trace| - 1].files)
  {
    hide Reaches, IsRoot, Verifies;
    var g, s, id := Loose(manifests, HomeOf(first)), first.Series(), d.publicationId;
    var held := NO_LOCKS[other.Series() := 3][s := 2];
    var procs := Gone(first)[3 := Publisher(other, Verifying)];
    ReusedUnderOtherLock(manifests, first, other, d);
    WithdrawerCreates(g, held, procs, With(NOTHING, other), 2, d, s);
    WithdrawerFills(g, held, procs, With(NOTHING, other), 2, d, s);
    var others := Gone(first)[2 := Withdrawer(d, s, Verifying)];
    assert procs[2 := Withdrawer(d, s, Verifying)] == others[3 := Publisher(other, Verifying)];
    var orphan := NOTHING.(withdrawals := NOTHING.withdrawals[id := Complete(d)]);
    assert With(orphan, other) == With(NOTHING, other).(withdrawals := orphan.withdrawals);
    PublisherUndoes(g, held, others, orphan, 3, other);
    EndsOrphaned(g, At(g, held, others[3 := Publisher(other, Releasing(WriteError))], orphan), id);
  }

  lemma EndsOrphaned(g: Stage, v: World, id: string)
    requires Reaches(g, v) && !g.strict && Initial(g.start)
    requires id in v.files.withdrawals && id !in v.files.records
    ensures exists trace: seq<World>, events: seq<Event> ::
      Run(trace, events, false) && Initial(trace[0]) && !NoOrphanWithdrawal(trace[|trace| - 1].files)
  {
    var trace, events :| RunOf(g, trace, events, v);
    assert trace[|trace| - 1] == v;
  }

  // ------------------------------------------------------------- inside one series

  /** Process 2 is the reader: it may be given no fault, and no file that does not load. */
  function Watched(manifests: map<string, string>, home: map<string, SeriesId>): Stage {
    Stage(Empty(manifests), true, false, {2}, home, manifests)
  }

  ghost predicate ReusedInside(manifests: map<string, string>, b: PublicationRecord, root: PublicationRecord,
                               again: PublicationRecord)
  {
    && IsRoot(b) && IsRoot(root) && again.kind.InterventionRecordSet? && ValidSupersession(root, again)
    && Verifies(manifests, b) && Verifies(manifests, root) && Verifies(manifests, again)
    && b.Series() == root.Series() == again.Series()
    && again.publicationId == b.publicationId != root.publicationId
  }

  /** The reader has enumerated the one file there is, which its publisher has yet to verify. */
  function Enumerated(manifests: map<string, string>, b: PublicationRecord): World {
    var g := Watched(manifests, HomeOf(b));
    At(g, NO_LOCKS[b.Series() := 1],
       NO_PROCS[1 := Publisher(b, Verifying)][2 := Reader(b.Series(), Checking([b.publicationId], 0))],
       With(NOTHING, b))
  }

  lemma EnumeratesUnverified(manifests: map<string, string>, b: PublicationRecord)
    requires IsRoot(b) && Verifies(manifests, b)
    ensures Reaches(Watched(manifests, HomeOf(b)), Enumerated(manifests, b))
  {
    hide Reaches, IsRoot, Verifies;
    var g := Watched(manifests, HomeOf(b));
    Here(Watched(manifests, map[]));
    PublisherJoins(Watched(manifests, map[]), NO_LOCKS, NO_PROCS, NOTHING, 1, b);
    PublisherWrites(g, NO_LOCKS, NO_PROCS, 1, b);
    OneName(b);
    ReaderEnumerates(g, NO_LOCKS[b.Series() := 1], NO_PROCS[1 := Publisher(b, Verifying)], With(NOTHING, b), 2,
                     b.Series(), [b.publicationId]);
  }

  lemma OneName(b: PublicationRecord)
    ensures Names([b.publicationId], With(NOTHING, b).records)
  {
  }

  function Since(manifests: map<string, string>, b: PublicationRecord, root: PublicationRecord): Stage {
    Watched(manifests, HomeOf(b)[root.publicationId := root.Series()]).(start := Enumerated(manifests, b))
  }

  function Resting(b: PublicationRecord): map<nat, Proc> {
    NO_PROCS[2 := Reader(b.Series(), Checking([b.publicationId], 0))][1 := Publisher(b, Finished(WriteError))]
  }

  /** The file is rolled back, and another record is published first in the series. */
  lemma RootPublished(manifests: map<string, string>, b: PublicationRecord, root: PublicationRecord)
    requires IsRoot(root) && Verifies(manifests, root) && b.Series() == root.Series()
             && b.publicationId != root.publicationId
    ensures var g := Since(manifests, b, root);
            Reaches(g, At(g, NO_LOCKS, Resting(b)[3 := Publisher(root, Finished(Written))], With(NOTHING, root)))
  {
    hide Reaches, IsRoot, Verifies;
    var g, s := Since(manifests, b, root), b.Series();
    var before := g.(home := HomeOf(b));
    var held := NO_LOCKS[s := 1];
    var two := NO_PROCS[2 := Reader(s, Checking([b.publicationId], 0))];
    Here(before);
    assert two[1 := Publisher(b, Verifying)]
           == NO_PROCS[1 := Publisher(b, Verifying)][2 := Reader(s, Checking([b.publicationId], 0))];
    PublisherUndoes(before, held, two, NOTHING, 1, b);
    PublisherGivesUp(before, held, two, NOTHING, 1, b);
    assert held - {s} == NO_LOCKS;
    PublisherJoins(before, NO_LOCKS, Resting(b), NOTHING, 3, root);
    PublisherWrites(g, NO_LOCKS, Resting(b), 3, root);
    PublisherFinishes(g, NO_LOCKS, Resting(b), With(NOTHING, root), 3, root);
  }

  function Finals(b: PublicationRecord, root: PublicationRecord, again: PublicationRecord): map<nat, Proc> {
    NO_PROCS[1 := Publisher(b, Finished(WriteError))][3 := Publisher(root, Finished(Written))]
            [4 := Publisher(again, Finished(Written))]
  }

  /** A fourth process publishes the record that supersedes the only one there is, under an id its series has used. */
  lemma SupersedesTheOne(g: Stage, procs: map<nat, Proc>, root: PublicationRecord, again: PublicationRecord)
    requires IsRoot(root) && again.kind.InterventionRecordSet? && ValidSupersession(root, again)
    requires Verifies(g.manifests, again) && again.publicationId != root.publicationId
    requires again.publicationId in g.home && g.home[again.publicationId] == again.Series()
    requires 4 !in procs && 4 !in g.undisturbed && Reaches(g, At(g, NO_LOCKS, procs, With(NOTHING, root)))
    ensures Reaches(g, At(g, NO_LOCKS, procs[4 := Publisher(again, Finished(Written))],
                          With(With(NOTHING, root), again)))
  {
    hide Reaches, IsRoot, Verifies, ValidSupersession;
    var f, s := With(NOTHING, root), again.Series();
    assert g.(home := g.home) == g;
    PublisherJoins(g, NO_LOCKS, procs, f, 4, again);
    PublisherListsOne(g, NO_LOCKS, procs, f, 4, root, again);
    PublisherFills(g, NO_LOCKS[s := 4], procs, f, 4, again);
    PublisherFinishes(g, NO_LOCKS, procs, With(f, again), 4, again);
  }

  /** The old id is then given to the record that supersedes it. */
  lemma IdGivenAgain(manifests: map<string, string>, b: PublicationRecord, root: PublicationRecord,
                     again: PublicationRecord)
    requires ReusedInside(manifests, b, root, again)
    ensures var g := Since(manifests, b, root);
            Reaches(g, At(g, NO_LOCKS, Finals(b, root, again)[2 := Reader(b.Series(), Checking([b.publicationId], 0))],
                          With(With(NOTHING, root), again)))
  {
    hide Reaches, IsRoot, Verifies, ValidSupersession, At, With, Enumerated;
    RootPublished(manifests, b, root);
    SupersedesTheOne(Since(manifests, b, root), Resting(b)[3 := Publisher(root, Finished(Written))], root, again);
    assert Resting(b)[3 := Publisher(root, Finished(Written))][4 := Publisher(again, Finished(Written))]
           == Finals(b, root, again)[2 := Reader(b.Series(), Checking([b.publicationId], 0))];
  }

  /** The reader goes on and collects that record without the one it supersedes. */
  lemma ReaderCollectsHalf(g: Stage, procs: map<nat, Proc>, f: Files, again: PublicationRecord)
    requires again.publicationId in f.records && f.records[again.publicationId] == Complete(again)
    requires again.supersedes.Some?
    requires Reaches(g, At(g, NO_LOCKS, procs[2 := Reader(again.Series(), Checking([again.publicationId], 0))], f))
    ensures Reaches(g, At(g, NO_LOCKS, procs[2 := Reader(again.Series(), Finished(IntegrityError))], f))
  {
    hide Reaches;
    var names, s := [again.publicationId], again.Series();
    Moves(g, NO_LOCKS, procs, f, 2, Reader(s, Checking(names, 0)), GOOD_IO, Checking(names, 1));
    Moves(g, NO_LOCKS, procs, f, 2, Reader(s, Checking(names, 1)), GOOD_IO, Collecting(names, 0, []));
    assert [] + [again] == [again];
    Moves(g, NO_LOCKS, procs, f, 2, Reader(s, Collecting(names, 0, [])), GOOD_IO, Collecting(names, 1, [again]));
    assert !SeriesAccepted([again]) by { NotARoot(again); }
    Moves(g, NO_LOCKS, procs, f, 2, Reader(s, Collecting(names, 1, [again])), GOOD_IO, Finished(IntegrityError));
  }

  lemma NotARoot(again: PublicationRecord)
    requires again.supersedes.Some?
    ensures !SeriesAccepted([again])
  {
    forall order | multiset(order) == multiset([again]) ensures !IsChain(order) {
      SameContents(order, [again]);
      assert |order| == |multiset(order)| == 1 && order[0] in order;
    }
  }

  /**
   Without the condition that ids are given once, the exactness of listings fails: a reader
   enumerates a record, which is rolled back; another record becomes the first of the series;
   the old id is given to a record that supersedes it. Every file the reader opens loads, its
   operations all succeed, and its listing fails - for any such records.
   */
  lemma ReuseInsideASeriesFailsAListing(manifests: map<string, string>, b: PublicationRecord, root: PublicationRecord,
                                        again: PublicationRecord)
    requires ReusedInside(manifests, b, root, again)
    ensures Initial(Empty(manifests)) && Reaches(Watched(manifests, HomeOf(b)), Enumerated(manifests, b))
    ensures Names([b.publicationId], Enumerated(manifests, b).files.records)
    ensures exists trace: seq<World>, events: seq<Event> ::
      && Run(trace, events, true) && trace[0] == Enumerated(manifests, b)
      && ReadsCleanly(events, 2, 0, |events|) && !HasMet(trace, events, 2, 0, |events|)
      && 2 in trace[|events|].procs && trace[|events|].procs[2] == Reader(b.Series(), Finished(IntegrityError))
  {
    EnumeratesUnverified(manifests, b);
    OneName(b);
    IdGivenAgain(manifests, b, root, again);
    var g := Since(manifests, b, root);
    var f := With(With(NOTHING, root), again);
    ReaderCollectsHalf(g, Finals(b, root, again), f, again);
    var v := At(g, NO_LOCKS, Finals(b, root, again)[2 := Reader(b.Series(), Finished(IntegrityError))], f);
    WatchedMeetsNothing(g, v, 2);
  }

  lemma WatchedMeetsNothing(g: Stage, v: World, reader: nat)
    requires Reaches(g, v) && g.strict && reader in g.undisturbed
    ensures exists trace: seq<World>, events: seq<Event> ::
      && Run(trace, events, true) && trace[0] == g.start && trace[|events|] == v
      && ReadsCleanly(events, reader, 0, |events|) && !HasMet(trace, events, reader, 0, |events|)
  {
    hide MeetsUnreadable, Apply, Enabled;
    var trace, events :| RunOf(g, trace, events, v);
    forall k | 0 <= k < |events| ensures !Meets(trace, events, reader, k) {
      assert Allowed(g, trace[k], events[k]);
    }
  }
}
