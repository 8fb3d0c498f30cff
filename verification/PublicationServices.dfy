/**
 The producer-facing services over the publication store: exact replay, first
 publication, supersession and withdrawal, with id allocation and clock clamping.
 */
module PublicationServices {
  import opened Foundations
  import opened PublicationRecords
  import opened PublicationAdmission
  import opened PublicationProtocol
  import opened PublicationHistory
  import opened PublicationStore
  import UtcText

  datatype ManifestRequest = ManifestRequest(
    work: ModuleWorkRef,
    sourceRecord: Option<ModuleRecordRef>,
    kind: PublicationKind,
    capabilities: seq<string>,
    recordSetId: string,
    recordSetRevision: int,
    manifestContractVersion: string,
    manifestPath: string,
    registrationRevision: Option<int>)
  {
    function Series(): SeriesId { SeriesId(work, kind, recordSetId) }
  }

  function FromRequest(q: ManifestRequest, id: string, digest: string, publishedAt: int, predecessor: Option<string>)
    : PublicationRecord
  {
    PublicationRecord(id, q.work, q.sourceRecord, q.kind, q.capabilities, q.recordSetId, q.recordSetRevision,
                      q.manifestContractVersion, q.manifestPath, digest, publishedAt, q.registrationRevision,
                      predecessor)
  }

  /** Same record up to its opaque id and its publication time. */
  predicate Replays(r: PublicationRecord, q: ManifestRequest, digest: string, predecessor: Option<string>) {
    r.(publicationId := "", publishedAt := 0) == FromRequest(q, "", digest, 0, predecessor)
  }

  /** Field by field, a record is what the request asks for, on the manifest bytes with this digest. */
  ghost predicate AsRequested(r: PublicationRecord, q: ManifestRequest, digest: string, predecessor: Option<string>) {
    && r.work == q.work && r.kind == q.kind && r.recordSetId == q.recordSetId
      && r.recordSetRevision == q.recordSetRevision
    && r.sourceRecord == q.sourceRecord && r.capabilities == q.capabilities
    && r.manifestContractVersion == q.manifestContractVersion && r.manifestPath == q.manifestPath
    && r.manifestDigest == digest && r.registrationRevision == q.registrationRevision && r.supersedes == predecessor
  }

  lemma RequestedExactly(r: PublicationRecord, q: ManifestRequest, digest: string, predecessor: Option<string>)
    ensures Replays(r, q, digest, predecessor) <==> AsRequested(r, q, digest, predecessor)
    ensures AsRequested(r, q, digest, predecessor) <==>
              r == FromRequest(q, r.publicationId, digest, r.publishedAt, predecessor)
  {
    var x := FromRequest(q, "", digest, 0, predecessor);
    assert r == r.(publicationId := "", publishedAt := 0).(publicationId := r.publicationId,
                                                           publishedAt := r.publishedAt);
    assert FromRequest(q, r.publicationId, digest, r.publishedAt, predecessor)
        == x.(publicationId := r.publicationId, publishedAt := r.publishedAt);
  }

  // -------------------------------------------------------------- reconciliation

  datatype Reconciliation = NoMatch | Contradiction | Replay(record: PublicationRecord)

  predicate SameLogicalKey(r: PublicationRecord, q: ManifestRequest) {
    r.Series() == q.Series() && r.recordSetRevision == q.recordSetRevision
  }

  function Reconcile(series: seq<PublicationRecord>, q: ManifestRequest, digest: string, predecessor: Option<string>)
    : Reconciliation
  {
    var matches := Filter(series, (r: PublicationRecord) => SameLogicalKey(r, q));
    if matches == [] then NoMatch
    else if |matches| != 1 then Contradiction
    else if !Replays(matches[0], q, digest, predecessor) then Contradiction
    else Replay(matches[0])
  }

  /** On a validated series, a record the request would recreate is what reconciliation finds. */
  lemma ReplayIsFound(series: seq<PublicationRecord>, r: PublicationRecord, q: ManifestRequest, digest: string,
                      predecessor: Option<string>)
    requires SeriesAccepted(series) && r in series && Replays(r, q, digest, predecessor)
    ensures Reconcile(series, q, digest, predecessor) == Replay(r)
  {
    LocallyValidIffChain(series);
    var keep := (x: PublicationRecord) => SameLogicalKey(x, q);
    FilterMembers(series, keep);
    assert keep(r);
    OnlyMember(Filter(series, keep), r);
  }

  /** Whatever reconciliation returns was listed and is the request's own record. */
  lemma ReplayIsReal(series: seq<PublicationRecord>, q: ManifestRequest, digest: string, predecessor: Option<string>)
    ensures var c := Reconcile(series, q, digest, predecessor);
            && (c.Replay? ==> c.record in series && Replays(c.record, q, digest, predecessor))
            && (c.NoMatch? <==> forall r :: r in series ==> !SameLogicalKey(r, q))
  {
    var keep := (x: PublicationRecord) => SameLogicalKey(x, q);
    FilterMembers(series, keep);
    var matches := Filter(series, keep);
    if matches != [] { assert matches[0] in matches; }
  }

  // ------------------------------------------------- unlocked reading of a series

  /** What a reader that started after `r` was settled knows about `r`. */
  ghost predicate WillSee(p: Proc, r: PublicationRecord) {
    match p.phase
    case Checking(names, next) => r.publicationId in names && next <= |names|
    case Collecting(names, next, got) =>
      r.publicationId in names && next <= |names| && (r.publicationId in names[..next] ==> r in got)
    case Finished(Listed(got)) => r in got && SeriesAccepted(got)
    case _ => true
  }

  lemma ReaderKeepsSight(w: World, p: Proc, c: Choice, r: PublicationRecord)
    requires p.job.List? && Live(p) && p.series == r.Series() && Settled(w, r) && WillSee(p, r)
    ensures ListMove(w, p, c).proc.job.List? && ListMove(w, p, c).proc.series == p.series
    ensures WillSee(ListMove(w, p, c).proc, r)
  {
    if p.phase.Collecting? {
      var names, next := p.phase.names, p.phase.next;
      if next >= |names| {
        assert names[..next] == names;
      } else {
        assert names[..next + 1] == names[..next] + [names[next]];
      }
    }
  }

  lemma OthersKeepSight(w: World, e: Event, pid: nat, r: PublicationRecord)
    requires Enabled(w, e, true) && Enabled(w, e, false) && pid in w.procs && Settled(w, r)
    requires w.procs[pid].job.List? && w.procs[pid].series == r.Series() && WillSee(w.procs[pid], r)
    ensures pid in Apply(w, e).procs && Apply(w, e).procs[pid].job.List?
    ensures Apply(w, e).procs[pid].series == r.Series() && WillSee(Apply(w, e).procs[pid], r)
  {
    if e.Act? && e.pid == pid {
      ReaderKeepsSight(w, w.procs[pid], e.choice, r);
    }
  }

  /**
   An unlocked listing is made file by file while writers keep working, yet every record
   settled before it began is in any result it returns.
   */
  lemma {:induction false} ListingSeesSettled(trace: seq<World>, events: seq<Event>, i: nat, j: nat, pid: nat,
                                              r: PublicationRecord)
    requires Run(trace, events, true) && i <= j < |trace| && Settled(trace[i], r)
    requires pid in trace[i].procs && trace[i].procs[pid].job.List? && trace[i].procs[pid].series == r.Series()
    requires trace[i].procs[pid].phase.Waiting? || trace[i].procs[pid].phase.Scanning?
    ensures pid in trace[j].procs && trace[j].procs[pid].job.List? && trace[j].procs[pid].series == r.Series()
    ensures WillSee(trace[j].procs[pid], r)
    decreases j
  {
    if i < j {
      ListingSeesSettled(trace, events, i, j - 1, pid, r);
      WeakenRun(trace, events);
      SettledForever(trace, events, i, j - 1, r);
      OthersKeepSight(trace[j - 1], events[j - 1], pid, r);
    }
  }

  // ------------------------------------------------------------------- services

  datatype ServiceResult =
    | Created(record: PublicationRecord, withdrawal: Option<PublicationWithdrawal>)
    | Existing(record: PublicationRecord, withdrawal: Option<PublicationWithdrawal>)
    | PartialSuccess(record: PublicationRecord)
    | Failed(error: ServiceError)
    | Overflowed                       // a time that cannot be converted to UTC; the service does not catch it

  /** One load of a record by its id: an I/O fault is not an invalid file. */
  datatype RecordReading = Found(record: PublicationRecord) | Missing | Invalid | Faulted

  function ReadRecord(f: Files, id: string, ok: bool): RecordReading {
    if !ok then Faulted
    else if id !in f.records then Missing
    else if !Loads(f.records, id) then Invalid
    else Found(f.records[id].value)
  }

  /** `get_canonical_publication_withdrawal`: the record, in `f`, and then its withdrawal, in `g`. */
  function ReadWithdrawal(f: Files, okF: bool, g: Files, okG: bool, id: string)
    : Result<Option<PublicationWithdrawal>, ServiceError>
  {
    match ReadRecord(f, id, okF)
    case Faulted => Failure(WriteFailure)
    case Missing => Failure(NotFoundError)
    case Invalid => Failure(IntegrityFailure)
    case Found(r) =>
      if !okG then Failure(WriteFailure)
      else if id !in g.withdrawals then Success(None)
      else if g.withdrawals[id].Partial? || !ValidWithdrawal(r, g.withdrawals[id].value) then Failure(IntegrityFailure)
      else Success(Some(g.withdrawals[id].value))
  }

  /** What a service does once it has read the series. */
  datatype Next =
    | Return(result: ServiceResult)
    | ReadWithdrawalOf(record: PublicationRecord)
    | Create(floor: Option<int>)

  /** A file that cannot be opened is a write failure of the service, an invalid one an integrity failure. */
  function ListingError(listing: Outcome): ServiceError {
    if listing.ReadError? then WriteFailure else IntegrityFailure
  }

  /** First publication. */
  function AfterListingForPublish(listing: Outcome, q: ManifestRequest, digest: string): Next {
    if !listing.Listed? then Return(Failed(ListingError(listing)))
    else
      match Reconcile(listing.records, q, digest, None)
      case Replay(r) => ReadWithdrawalOf(r)
      case Contradiction => Return(Failed(IntegrityFailure))
      case NoMatch => if listing.records != [] then Return(Failed(ConflictFailure)) else Create(None)
  }

  /** Supersession of an expected current publication. */
  function AfterListingForSupersede(listing: Outcome, q: ManifestRequest, digest: string, expected: string): Next {
    if !listing.Listed? then Return(Failed(ListingError(listing)))
    else
      match Reconcile(listing.records, q, digest, Some(expected))
      case Replay(r) => ReadWithdrawalOf(r)
      case Contradiction => Return(Failed(IntegrityFailure))
      case NoMatch =>
        if listing.records == [] then Return(Failed(NotFoundError))
        else if |Heads(listing.records)| != 1 then Return(Failed(IntegrityFailure))
        else
          var head := Heads(listing.records)[0];
          if head.publicationId != expected then Return(Failed(ConflictFailure))
          else if q.recordSetRevision <= head.recordSetRevision then Return(Failed(ConflictFailure))
          else Create(Some(head.publishedAt))
  }

  function AfterListing(listing: Outcome, q: ManifestRequest, digest: string, predecessor: Option<string>): Next {
    match predecessor
    case None => AfterListingForPublish(listing, q, digest)
    case Some(expected) => AfterListingForSupersede(listing, q, digest, expected)
  }

  ghost predicate OwnSeries(chain: seq<PublicationRecord>, q: ManifestRequest) {
    forall r :: r in chain ==> r.work == q.work && r.kind == q.kind && r.recordSetId == q.recordSetId
  }

  ghost predicate RevisionTakenIn(chain: seq<PublicationRecord>, q: ManifestRequest) {
    exists x :: x in chain && x.recordSetRevision == q.recordSetRevision
  }

  /** Nothing is published and nothing is to be superseded, or the last record is, by a higher revision. */
  ghost predicate MayExtend(chain: seq<PublicationRecord>, q: ManifestRequest, predecessor: Option<string>) {
    if chain == [] then predecessor.None?
    else
      predecessor == Some(chain[|chain| - 1].publicationId)
        && q.recordSetRevision > chain[|chain| - 1].recordSetRevision
  }

  /**
   What a service decides once it has listed its series, said of the series' chain and of the
   request's own fields. A revision that is there is a replay if it is the very record asked
   for, and a contradiction otherwise. Any other request is created exactly when it may extend
   the chain, no earlier than the record it supersedes.
   */
  lemma DecisionExactly(series: seq<PublicationRecord>, chain: seq<PublicationRecord>, q: ManifestRequest,
                        digest: string, predecessor: Option<string>)
    requires IsChain(chain) && multiset(series) == multiset(chain) && OwnSeries(chain, q)
    ensures var next := AfterListing(Listed(series), q, digest, predecessor);
            && (forall x :: x in chain && x.recordSetRevision == q.recordSetRevision ==>
                  next == if AsRequested(x, q, digest, predecessor) then ReadWithdrawalOf(x)
                          else Return(Failed(IntegrityFailure)))
            && (!RevisionTakenIn(chain, q) ==>
                  next == if MayExtend(chain, q, predecessor) then
                            Create(if chain == [] then None else Some(chain[|chain| - 1].publishedAt))
                          else Return(Failed(if chain == [] then NotFoundError else ConflictFailure)))
  {
    hide Replays, AsRequested, Reconcile;
    SameContents(series, chain);
    ReconcileExactly(series, chain, q, digest, predecessor);
    if chain != [] { HeadOfChain(series, chain); }
    hide Heads, IsChain;
  }

  lemma ReconcileExactly(series: seq<PublicationRecord>, chain: seq<PublicationRecord>, q: ManifestRequest,
                         digest: string, predecessor: Option<string>)
    requires IsChain(chain) && multiset(series) == multiset(chain) && OwnSeries(chain, q)
    ensures var c := Reconcile(series, q, digest, predecessor);
            && (forall x :: x in chain && x.recordSetRevision == q.recordSetRevision ==>
                  c == if AsRequested(x, q, digest, predecessor) then Replay(x) else Contradiction)
            && (c == NoMatch <==> !RevisionTakenIn(chain, q))
  {
    hide Replays, AsRequested;
    SameContents(series, chain);
    RevisionsDifferInChain(chain);
    var keep := (r: PublicationRecord) => SameLogicalKey(r, q);
    FilterMembers(series, keep);
    ChainIsDistinct(chain, series);
    var matches := Filter(series, keep);
    assert forall x :: x in matches <==> x in chain && x.recordSetRevision == q.recordSetRevision;
    forall x | x in chain && x.recordSetRevision == q.recordSetRevision
      ensures Reconcile(series, q, digest, predecessor)
           == if AsRequested(x, q, digest, predecessor) then Replay(x) else Contradiction
    {
      OnlyMember(matches, x);
      RequestedExactly(x, q, digest, predecessor);
    }
    if matches != [] { assert matches[0] in matches; }
  }

  lemma ChainIsDistinct(chain: seq<PublicationRecord>, series: seq<PublicationRecord>)
    requires IsChain(chain) && multiset(series) == multiset(chain)
    ensures Distinct(series)
  {
    forall i, j | 0 <= i < j < |chain| ensures chain[i] != chain[j] {
      assert chain[i].publicationId != chain[j].publicationId;
    }
    DistinctByContents(chain, series);
  }

  /** The withdrawal attached to a replayed record. */
  function AttachWithdrawal(reading: Result<Option<PublicationWithdrawal>, ServiceError>,
                            r: PublicationRecord): ServiceResult {
    match reading
    case Success(withdrawal) => Existing(r, withdrawal)
    case Failure(error) => Failed(if error.NotFoundError? then IntegrityFailure else error)
  }

  /** A settled record is found by every load without fault, whatever happens in between. */
  lemma SettledIsFound(trace: seq<World>, events: seq<Event>, i: nat, j: nat, r: PublicationRecord)
    requires Run(trace, events, false) && i <= j < |trace| && Settled(trace[i], r)
    ensures ReadRecord(trace[j].files, r.publicationId, true) == Found(r)
  {
    SettledForever(trace, events, i, j, r);
  }

  /**
   Replay stability over whole runs. A publish or supersede whose writer finished
   `Written` at time `i` is repeated with unchanged manifest bytes at any later time `j`,
   under any interleaving: the repeat never goes on to create anything, and if its
   listing succeeds it returns the same record, with any withdrawal settled by then.
   */
  lemma ReplayNeverCreates(trace: seq<World>, events: seq<Event>, writer: nat, i: nat, reader: nat, j: nat, k: nat,
                           l: nat, m: nat, q: ManifestRequest, digest: string, predecessor: Option<string>)
    requires Run(trace, events, true) && Initial(trace[0]) && i <= j <= k <= l <= m < |trace|
    requires writer in trace[i].procs && trace[i].procs[writer].job.Publish?
    requires trace[i].procs[writer].phase == Finished(Written)
    requires Replays(trace[i].procs[writer].job.candidate, q, digest, predecessor)
    requires reader in trace[j].procs && trace[j].procs[reader].phase.Waiting?
    requires trace[j].procs[reader].job.List? && trace[j].procs[reader].series == q.Series()
    requires reader in trace[k].procs && trace[k].procs[reader].phase.Finished?
    ensures var r := trace[i].procs[writer].job.candidate;
            var listing := trace[k].procs[reader].phase.outcome;
            var next := AfterListing(listing, q, digest, predecessor);
            && next == (if listing.Listed? then ReadWithdrawalOf(r) else Return(Failed(ListingError(listing))))
            && Settled(trace[m], r)
            && (forall d :: WithdrawalSettled(trace[i], r.publicationId, Complete(d)) ==>
                  AttachWithdrawal(ReadWithdrawal(trace[l].files, true, trace[m].files, true, r.publicationId), r)
                  == Existing(r, Some(d)))
  {
    hide Inv, Apply, Enabled, Replays;
    var r := trace[i].procs[writer].job.candidate;
    var listing := trace[k].procs[reader].phase.outcome;
    WrittenIsForever(trace, events, i, j, writer);
    WrittenIsForever(trace, events, i, l, writer);
    WrittenIsForever(trace, events, i, m, writer);
    ReplaySeries(r, q, digest, predecessor);
    ListingSeesSettled(trace, events, j, k, reader, r);
    if listing.Listed? {
      ReplayIsFound(listing.records, r, q, digest, predecessor);
    }
    WeakenRun(trace, events);
    forall d | WithdrawalSettled(trace[i], r.publicationId, Complete(d))
      ensures AttachWithdrawal(ReadWithdrawal(trace[l].files, true, trace[m].files, true, r.publicationId), r)
              == Existing(r, Some(d))
    {
      WithdrawalSettledForever(trace, events, i, m, r.publicationId, Complete(d));
      WithdrawalFits(trace, events, m, r, d);
    }
  }

  lemma ReplaySeries(r: PublicationRecord, q: ManifestRequest, digest: string, predecessor: Option<string>)
    requires Replays(r, q, digest, predecessor)
    ensures r.Series() == q.Series()
  {
  }

  /** In a reachable state a stored withdrawal fits the record stored under its id. */
  lemma WithdrawalFits(trace: seq<World>, events: seq<Event>, m: nat, r: PublicationRecord, d: PublicationWithdrawal)
    requires Run(trace, events, true) && Initial(trace[0]) && m < |trace|
    requires Settled(trace[m], r) && WithdrawalSettled(trace[m], r.publicationId, Complete(d))
    ensures ValidWithdrawal(r, d)
  {
    InitialIsSound(trace[0]);
    InvariantOverRuns(trace, events, m);
  }

  /**
   Fault-free I/O alone does not make the replay succeed: one unreadable file in another
   series fails the listing. It succeeds exactly when every file in the collection loads.
   */
  method ReplayInQuietWorkspace(ws: Workspace, pid: nat, q: ManifestRequest, digest: string,
                                predecessor: Option<string>,
                                io: nat -> Choice, r: PublicationRecord, chain: seq<PublicationRecord>)
    returns (result: ServiceResult)
    requires forall k :: io(k).ok && Names(io(k).names, ws.records)
    requires ChainOf(ws.records, q.Series(), chain) && r in chain && Replays(r, q, digest, predecessor)
    ensures result.Existing? <==>
              && ws.Readable()
              && (r.publicationId in ws.withdrawals ==>
                    && ws.withdrawals[r.publicationId].Complete?
                    && ValidWithdrawal(r, ws.withdrawals[r.publicationId].value))
    ensures result.Existing? ==>
              result == Existing(r, if r.publicationId in ws.withdrawals
                                 then Some(ws.withdrawals[r.publicationId].value) else None)
    ensures !result.Existing? ==> result == Failed(IntegrityFailure)
  {
    var p := Proc(List, q.Series(), Scanning);
    var listed, _ := ws.ListRecordSet(pid, p, io, 0, ws.Seen(pid, p));
    var f := Files(ws.records, ws.withdrawals);
    if listed.Failure? { return Failed(ListingError(listed.error)); }
    ListedSeriesIsTheChain(f, q.Series(), listed.value, chain);
    assert SeriesAccepted(listed.value);
    SameContents(listed.value, chain);
    ReplayIsFound(listed.value, r, q, digest, predecessor);
    assert AfterListing(Listed(listed.value), q, digest, predecessor) == ReadWithdrawalOf(r);
    result := AttachWithdrawal(ReadWithdrawal(f, true, f, true, r.publicationId), r);
  }

  // ---------------------------------------------------------------------- clock

  /**
   Whatever the clock says - including a clock that has gone backwards - the service gives its
   record a time exactly when the clock's and the head's can be written in UTC. What it then
   decides to create passes every check its writer repeats under the lock, as long as the
   series still ends where the service saw it end.
   */
  lemma ClockNeverBlocksCreation(series: seq<PublicationRecord>, later: seq<PublicationRecord>, q: ManifestRequest,
                                 digest: string, predecessor: Option<string>, id: string, now: int)
    requires SeriesAccepted(series) && FormsChain(later)
    requires forall r :: r in series ==> r.Series() == q.Series()
    requires AfterListing(Listed(series), q, digest, predecessor).Create?
    requires series == [] ==> later == []
    requires series != [] ==> Heads(later) == Heads(series)
    ensures var at := UtcText.ServiceTime(now, AfterListing(Listed(series), q, digest, predecessor).floor);
            && (at.Some? <==> && UtcText.Representable(now)
                              && (series != [] ==>
                                  |Heads(series)| == 1 && UtcText.Representable(Heads(series)[0].publishedAt)))
            && (at.Some? ==> Admission(later, FromRequest(q, id, digest, at.value, predecessor)).None?)
  {
    hide IsChain, Admission, Continues, UtcText.Representable;
    FloorIsHead(series, q, digest, predecessor);
    var at := UtcText.ServiceTime(now, AfterListing(Listed(series), q, digest, predecessor).floor);
    if at.Some? {
      var candidate := FromRequest(q, id, digest, at.value, predecessor);
      var order :| multiset(order) == multiset(later) && IsChain(order);
      SameContents(order, later);
      if series == [] {
        assert order == [];
        RootContinues(candidate);
      } else {
        SupersedesItsHead(series, q, digest, predecessor, id, at.value);
        SuccessorContinues(later, order, Heads(series)[0], candidate);
      }
      hide AfterListing, FromRequest;
      AdmittedIffContinues(later, order, candidate);
    }
  }

  /** A service creates a first publication without a floor, and a superseding one no earlier than the head. */
  lemma FloorIsHead(series: seq<PublicationRecord>, q: ManifestRequest, digest: string, predecessor: Option<string>)
    requires AfterListing(Listed(series), q, digest, predecessor).Create?
    ensures series == [] ==> predecessor.None?
    ensures series != [] ==> |Heads(series)| == 1
    ensures AfterListing(Listed(series), q, digest, predecessor).floor
            == if series == [] then None else Some(Heads(series)[0].publishedAt)
  {
    hide Reconcile;
  }

  lemma RootContinues(candidate: PublicationRecord)
    requires candidate.supersedes.None?
    ensures Continues([], candidate)
  {
  }

  lemma SuccessorContinues(later: seq<PublicationRecord>, order: seq<PublicationRecord>, head: PublicationRecord,
                           candidate: PublicationRecord)
    requires IsChain(order) && multiset(order) == multiset(later) && Heads(later) != [] && Heads(later)[0] == head
    requires ValidSupersession(head, candidate)
    ensures Continues(order, candidate)
  {
    SameContents(order, later);
    assert later != [];
    HeadOfChain(later, order);
  }

  /** What the service would write supersedes the head it saw. */
  lemma SupersedesItsHead(series: seq<PublicationRecord>, q: ManifestRequest, digest: string,
                          predecessor: Option<string>, id: string, at: int)
    requires series != [] && forall r :: r in series ==> r.Series() == q.Series()
    requires AfterListing(Listed(series), q, digest, predecessor).Create?
    requires AfterListing(Listed(series), q, digest, predecessor).floor.Some?
    requires at >= AfterListing(Listed(series), q, digest, predecessor).floor.value
    ensures Heads(series) != [] && ValidSupersession(Heads(series)[0], FromRequest(q, id, digest, at, predecessor))
  {
    FilterMembers(series, (x: PublicationRecord) => x.publicationId !in SupersededIds(series));
    assert Heads(series)[0] in Heads(series);
  }

  // ----------------------------------------------------------- id allocation

  const PUBLICATION_ID_ATTEMPTS := 8

  /** The index of the first generated id that is still unused. */
  ghost predicate FirstUnused(records: map<string, File<PublicationRecord>>, ids: seq<string>, k: nat) {
    k < PUBLICATION_ID_ATTEMPTS <= |ids| && ids[k] !in records && forall i :: 0 <= i < k ==> ids[i] in records
  }

  /**
   `_reconcile_after_publication_error`: the manifest is read again, in `now`, and must still
   have the digest; then the series is listed again, and a replay's withdrawal looked up.
   */
  function Reconciled(now: Option<string>, listing: Outcome, q: ManifestRequest, digest: string,
                      predecessor: Option<string>, f: Files, okF: bool, g: Files, okG: bool): Option<ServiceResult>
  {
    if now != Some(digest) then Some(Failed(IntegrityFailure))
    else if !listing.Listed? then Some(Failed(ListingError(listing)))
    else
      match Reconcile(listing.records, q, digest, predecessor)
      case Replay(r) => Some(AttachWithdrawal(ReadWithdrawal(f, okF, g, okG, r.publicationId), r))
      case Contradiction => Some(Failed(IntegrityFailure))
      case NoMatch => None
  }

  /** What a failed write is answered with; `None` means try another id. */
  function AfterWriterError(outcome: Outcome, reconciled: Option<ServiceResult>,
                            idAgain: RecordReading): Option<ServiceResult> {
    if reconciled.Some? then
      // Errors met while reconciling these outcomes all count as integrity failures.
      if reconciled.value.Failed? && (outcome.ManifestError? || outcome.ReadError?) then Some(Failed(IntegrityFailure))
      else reconciled
    else
      match outcome
      case Conflict =>
        (match idAgain
         case Missing => Some(Failed(ConflictFailure))
         case Faulted => Some(Failed(WriteFailure))
         case Invalid => Some(Failed(IntegrityFailure))
         case Found(_) => None)
      case WriteError => Some(Failed(WriteFailure))
      case _ => Some(Failed(IntegrityFailure))
  }

  /** What a completed write is answered with, once the record and its withdrawal have been read back. */
  function AfterWritten(candidate: PublicationRecord, again: RecordReading,
                        withdrawal: Result<Option<PublicationWithdrawal>, ServiceError>): ServiceResult
  {
    if !again.Found? then PartialSuccess(candidate)
    else if again.record != candidate then Failed(IntegrityFailure)
    else
      match withdrawal
      case Success(d) => Created(candidate, d)
      case Failure(error) => if error.WriteFailure? then PartialSuccess(candidate) else Failed(IntegrityFailure)
  }

  /** Which of a call's own reads, outside the writer and the listings, meet no fault. */
  datatype Rereads = Rereads(inspected: bool, manifest: bool, record: bool, withdrawalRecord: bool, withdrawal: bool)

  const CLEAN := Rereads(true, true, true, true, true)

  function ManifestAgain(w: map<string, string>, q: ManifestRequest, ok: bool): Option<string> {
    if ok && q.manifestPath in w then Some(w[q.manifestPath]) else None
  }

  /** `_reconcile_after_publication_error` and what its caller makes of it, with nobody else at work. */
  method ReconcileAfterError(ws: Workspace, outcome: Outcome, id: string, q: ManifestRequest, digest: string,
                             predecessor: Option<string>, io: nat -> Choice, own: Rereads, pid: nat)
    returns (result: Option<ServiceResult>)
    ensures result.Some? ==> result.value.Existing? || result.value.Failed?
    ensures result.Some? && result.value.Existing? ==>
              var r := result.value.record;
              Replays(r, q, digest, predecessor) && Loads(ws.records, r.publicationId)
                && ws.records[r.publicationId].value == r
    ensures result.None? ==> outcome.Conflict? && Loads(ws.records, id)
    ensures result.Some? && result.value.Failed? && ManifestAgain(ws.manifests, q, own.manifest) != Some(digest) ==>
              result.value == Failed(IntegrityFailure)
    ensures forall chain, r ::
              && ChainOf(ws.records, q.Series(), chain) && r in chain && Replays(r, q, digest, predecessor)
              && ManifestAgain(ws.manifests, q, own.manifest) == Some(digest)
              && ws.Readable() && (forall k :: io(k).ok) && own == CLEAN && r.publicationId !in ws.withdrawals
              ==> result == Some(Existing(r, None))
    ensures forall chain ::
              && ChainOf(ws.records, q.Series(), chain) && !RevisionTakenIn(chain, q)
              && ManifestAgain(ws.manifests, q, own.manifest) == Some(digest)
              && ws.Readable() && (forall k :: io(k).ok) && own == CLEAN
              ==> result == if outcome.Conflict? && id in ws.records then None
                            else Some(Failed(if outcome.Conflict? then ConflictFailure
                                             else if outcome.WriteError? then WriteFailure else IntegrityFailure))
  {
    hide ChainOf, Replays, ListsSeries, SeriesAccepted, Reconciled, RevisionTakenIn;
    var f := Files(ws.records, ws.withdrawals);
    var now := ManifestAgain(ws.manifests, q, own.manifest);
    var listing := IntegrityError;
    if now == Some(digest) {
      listing := ListAgain(ws, q.Series(), io, pid);
      ReconciledAlone(f, listing, q, digest, predecessor, own);
    }
    var reconciled := Reconciled(now, listing, q, digest, predecessor, f, own.withdrawalRecord, f, own.withdrawal);
    ReconciledChanged(now, listing, q, digest, predecessor, f, own);
    assert ws.Readable() ==> (id in ws.records <==> Loads(ws.records, id));
    hide Loads;
    result := AfterWriterError(outcome, reconciled, ReadRecord(f, id, own.record));
  }

  lemma ReconciledChanged(now: Option<string>, listing: Outcome, q: ManifestRequest, digest: string,
                          predecessor: Option<string>, f: Files, own: Rereads)
    ensures now != Some(digest) ==>
              Reconciled(now, listing, q, digest, predecessor, f, own.withdrawalRecord, f, own.withdrawal)
              == Some(Failed(IntegrityFailure))
  {
  }

  /** The series listed again, with nobody else at work. */
  method ListAgain(ws: Workspace, s: SeriesId, io: nat -> Choice, pid: nat) returns (listing: Outcome)
    ensures listing.Listed? ==>
              ListsSeries(Files(ws.records, ws.withdrawals), s, listing.records) && SeriesAccepted(listing.records)
    ensures ws.Readable() && (forall k :: io(k).ok) && (exists chain :: ChainOf(ws.records, s, chain)) ==>
              listing.Listed?
  {
    hide ChainOf, ListsSeries, SeriesAccepted;
    var p := Proc(List, s, Scanning);
    var names := ws.Enumerate();
    var listed, _ := ws.ListRecordSet(pid, p, (k: nat) => io(k).(names := names), 0, ws.Seen(pid, p));
    listing := ValidateListing(listed);
    if listed.Success? {
      forall chain | ChainOf(ws.records, s, chain) ensures SeriesAccepted(listed.value) {
        ListingOfChain(Files(ws.records, ws.withdrawals), s, listed.value, chain);
      }
    }
  }

  lemma ListingOfChain(f: Files, s: SeriesId, got: seq<PublicationRecord>, chain: seq<PublicationRecord>)
    requires ListsSeries(f, s, got) && ChainOf(f.records, s, chain)
    ensures SeriesAccepted(got)
    ensures forall r :: r in chain ==>
        r in got && r.publicationId in f.records && f.records[r.publicationId] == Complete(r)
  {
    ListedSeriesIsTheChain(f, s, got, chain);
    SameContents(got, chain);
  }

  /** What reconciliation finds in one state of the files. */
  lemma ReconciledAlone(f: Files, listing: Outcome, q: ManifestRequest, digest: string, predecessor: Option<string>,
                        own: Rereads)
    requires listing.Listed? ==> ListsSeries(f, q.Series(), listing.records) && SeriesAccepted(listing.records)
    ensures var result := Reconciled(Some(digest), listing, q, digest, predecessor, f, own.withdrawalRecord, f,
                                     own.withdrawal);
            && (result.Some? ==> result.value.Existing? || result.value.Failed?)
            && (result.Some? && result.value.Existing? ==>
                  var r := result.value.record;
                  Replays(r, q, digest, predecessor) && Loads(f.records, r.publicationId)
                    && f.records[r.publicationId].value == r)
            && (listing.Listed? && own.withdrawalRecord && own.withdrawal ==>
                  forall chain, r ::
                    && ChainOf(f.records, q.Series(), chain) && r in chain && Replays(r, q, digest, predecessor)
                    && r.publicationId !in f.withdrawals
                    ==> result == Some(Existing(r, None)))
            && (listing.Listed? ==>
                  forall chain :: ChainOf(f.records, q.Series(), chain) && !RevisionTakenIn(chain, q) ==>
                    result == None)
  {
    hide Replays, Reconcile, ReadWithdrawal, ChainOf, SeriesAccepted, RevisionTakenIn;
    if listing.Listed? {
      forall chain | ChainOf(f.records, q.Series(), chain) && !RevisionTakenIn(chain, q)
        ensures Reconcile(listing.records, q, digest, predecessor) == NoMatch
      {
        NothingMatches(f, listing.records, chain, q, digest, predecessor);
      }
      ReplayIsReal(listing.records, q, digest, predecessor);
      forall chain, r | ChainOf(f.records, q.Series(), chain) && r in chain && Replays(r, q, digest, predecessor)
        ensures Reconcile(listing.records, q, digest, predecessor) == Replay(r)
        ensures own.withdrawalRecord && own.withdrawal && r.publicationId !in f.withdrawals ==>
                  ReadWithdrawal(f, own.withdrawalRecord, f, own.withdrawal, r.publicationId) == Success(None)
      {
        ListingOfChain(f, q.Series(), listing.records, chain);
        ReplayIsFound(listing.records, r, q, digest, predecessor);
        if r.publicationId !in f.withdrawals { StoredUnwithdrawn(f, r); }
      }
    }
  }

  lemma NothingMatches(f: Files, got: seq<PublicationRecord>, chain: seq<PublicationRecord>, q: ManifestRequest,
                       digest: string, predecessor: Option<string>)
    requires ListsSeries(f, q.Series(), got) && ChainOf(f.records, q.Series(), chain) && !RevisionTakenIn(chain, q)
    ensures Reconcile(got, q, digest, predecessor) == NoMatch
  {
    hide Reconcile;
    ListedSeriesIsTheChain(f, q.Series(), got, chain);
    ChainIsOwn(f, chain, q);
    hide ListsSeries, ChainOf;
    ReconcileExactly(got, chain, q, digest, predecessor);
  }

  lemma ChainIsOwn(f: Files, chain: seq<PublicationRecord>, q: ManifestRequest)
    requires ChainOf(f.records, q.Series(), chain)
    ensures IsChain(chain) && OwnSeries(chain, q)
  {
    forall r | r in chain ensures r.work == q.work && r.kind == q.kind && r.recordSetId == q.recordSetId {
      assert r.Series() == q.Series();
    }
  }

  lemma StoredUnwithdrawn(f: Files, r: PublicationRecord)
    requires r.publicationId in f.records && f.records[r.publicationId] == Complete(r)
             && r.publicationId !in f.withdrawals
    ensures ReadWithdrawal(f, true, f, true, r.publicationId) == Success(None)
  {
  }

  /** The listed records as the reader's machine reports them, once validated as a series. */
  method ValidateListing(listed: Result<seq<PublicationRecord>, Outcome>) returns (listing: Outcome)
    ensures listed.Failure? ==> listing == listed.error
    ensures listed.Success? ==> listing == if SeriesAccepted(listed.value) then Listed(listed.value) else IntegrityError
  {
    if listed.Failure? { return listed.error; }
    var validated := ValidatePublicationRecordSeries(listed.value);
    return if validated.Success? then Listed(listed.value) else IntegrityError;
  }

  /** Nothing fails in a call: not its writer's and listings' operations, nor its own reads. */
  ghost predicate Faultfree(io: nat -> Choice, own: Rereads) {
    (forall n :: io(n).ok && io(n).residue.Removed?) && own == CLEAN
  }

  /** The answer to a fault-free attempt, by the outcome the stored files call for. */
  function AttemptAnswer(outcome: Outcome, candidate: PublicationRecord): ServiceResult {
    if outcome.Written? then Created(candidate, None)
    else Failed(if outcome.Conflict? then ConflictFailure else IntegrityFailure)
  }

  /**
   One turn of the loop for an unused id. Another turn would follow a lost race for the id;
   alone there is none, so the turn always ends the call. Partial success is answered only
   for a record that is stored, and then exactly because one of the call's own reads failed.
   Without faults the answer is the one the stored files call for.
   */
  method AttemptCreation(ws: Workspace, candidate: PublicationRecord, q: ManifestRequest, digest: string,
                         predecessor: Option<string>, io: nat -> Choice, own: Rereads, pid: nat)
    returns (result: ServiceResult)
    requires candidate.publicationId !in ws.records
    modifies ws`records, ws`locks
    ensures !result.Overflowed?
    ensures result.Created? || result.PartialSuccess? ==>
              && result.record == candidate
              && ws.records == old(ws.records)[candidate.publicationId := Complete(candidate)]
              && (result.PartialSuccess? <==> !(own.record && own.withdrawalRecord && own.withdrawal))
    ensures result.Existing? ==>
              && AsRequested(result.record, q, digest, predecessor)
              && Loads(ws.records, result.record.publicationId)
              && ws.records[result.record.publicationId].value == result.record
    ensures forall chain ::
              && Faultfree(io, own) && old(ws.Readable()) && candidate.publicationId !in ws.withdrawals
              && AsRequested(candidate, q, digest, predecessor)
              && q.manifestPath in ws.manifests && ws.manifests[q.manifestPath] == digest
              && ChainOf(old(ws.records), q.Series(), chain) && !RevisionTakenIn(chain, q)
              ==>
              var outcome := WriteAnswer(ws.manifests, ws.registrations, old(ws.records), q.Series() in old(ws.locks),
                                         chain, candidate);
              && result == AttemptAnswer(outcome, candidate)
              && ws.locks == old(ws.locks) && (!outcome.Written? ==> ws.records == old(ws.records))
  {
    hide ChainOf, Follows, Replays, WriteAnswer, RevisionTakenIn, AsRequested;
    var names := ws.Enumerate();
    var outcome, _ := ws.WritePublicationRecord(candidate, pid, (n: nat) => io(n).(names := names));
    var id := candidate.publicationId;
    if AsRequested(candidate, q, digest, predecessor) { RequestedSeries(candidate, q, digest, predecessor); }
    if outcome.Written? {
      var f := Files(ws.records, ws.withdrawals);
      return AfterWritten(candidate, ReadRecord(f, id, own.record),
                          ReadWithdrawal(f, own.withdrawalRecord, f, own.withdrawal, id));
    }
    AnswersInTable(ws.manifests, ws.registrations, old(ws.records), q.Series() in old(ws.locks), candidate);
    var reconciled := ReconcileAfterError(ws, outcome, id, q, digest, predecessor, io, own, pid);
    if reconciled.value.Existing? { RequestedExactly(reconciled.value.record, q, digest, predecessor); }
    return reconciled.value;
  }

  lemma RequestedSeries(r: PublicationRecord, q: ManifestRequest, digest: string, predecessor: Option<string>)
    requires AsRequested(r, q, digest, predecessor)
    ensures r.Series() == q.Series()
  {
  }

  /** A fault-free writer ends in success, a conflict, or an error of the manifest or of the stored series. */
  lemma AnswersInTable(manifests: map<string, string>, g: Registrations, records: map<string, File<PublicationRecord>>,
                       locked: bool, r: PublicationRecord)
    ensures forall chain ::
              var o := WriteAnswer(manifests, g, records, locked, chain, r);
              o.Written? || o.Conflict? || o.IntegrityError? || o.ManifestError?
  {
  }

  /** The later of the clock and the floor. */
  ghost predicate StampedAt(at: int, now: int, floor: Option<int>) {
    at == if floor.Some? && floor.value > now then floor.value else now
  }

  ghost predicate TimesFit(now: int, floor: Option<int>) {
    UtcText.Representable(now) && (floor.Some? ==> UtcText.Representable(floor.value))
  }

  /**
   `_create_publication`: up to eight generated ids, skipping ids already in use. What it
   creates carries the request's own fields, the digest of the manifest, the predecessor and
   the later of the clock and the floor. Alone and without faults it makes one attempt, for
   the first unused id, and answers as the stored files call for; it gives up with a conflict
   when all eight ids are taken. It overflows, before anything is written, exactly when one of
   its times cannot be written in UTC.
   */
  method CreatePublication(ws: Workspace, q: ManifestRequest, digest: string, predecessor: Option<string>,
                           floor: Option<int>, now: int, ids: seq<string>, io: nat -> nat -> Choice,
                           own: nat -> Rereads, pid: nat)
    returns (result: ServiceResult)
    requires |ids| >= PUBLICATION_ID_ATTEMPTS
    modifies ws`records, ws`locks
    ensures result.Created? || result.PartialSuccess? ==>
              var r := result.record;
              && r.publicationId in ids && r.publicationId !in old(ws.records)
              && AsRequested(r, q, digest, predecessor) && StampedAt(r.publishedAt, now, floor)
              && ws.records == old(ws.records)[r.publicationId := Complete(r)]
    ensures result.PartialSuccess? ==> exists k :: own(k) != CLEAN
    ensures result.Existing? ==>
              && AsRequested(result.record, q, digest, predecessor)
              && Loads(ws.records, result.record.publicationId)
              && ws.records[result.record.publicationId].value == result.record
    ensures result == Overflowed <==> !TimesFit(now, floor)
    ensures result == Overflowed ==> ws.records == old(ws.records)
    ensures TimesFit(now, floor)
            && (forall k :: 0 <= k < PUBLICATION_ID_ATTEMPTS ==> Loads(old(ws.records), ids[k]) && own(k).inspected) ==>
              result == Failed(ConflictFailure) && ws.records == old(ws.records)
    ensures forall k: nat, chain ::
              && TimesFit(now, floor) && FirstUnused(old(ws.records), ids, k) && old(ws.Readable())
              && (forall a :: Faultfree(io(a), own(a))) && ids[k] !in ws.withdrawals
              && q.manifestPath in ws.manifests && ws.manifests[q.manifestPath] == digest
              && ChainOf(old(ws.records), q.Series(), chain) && !RevisionTakenIn(chain, q)
              ==>
              exists r: PublicationRecord ::
                && r.publicationId == ids[k] && AsRequested(r, q, digest, predecessor)
                && StampedAt(r.publishedAt, now, floor)
                && (var outcome := WriteAnswer(ws.manifests, ws.registrations, old(ws.records),
                                               q.Series() in old(ws.locks), chain, r);
                    && result == AttemptAnswer(outcome, r)
                    && ws.locks == old(ws.locks) && (!outcome.Written? ==> ws.records == old(ws.records)))
  {
    hide ChainOf, Follows, Replays, UtcText.ServiceTime, UtcText.Representable, WriteAnswer, RevisionTakenIn,
         AsRequested,
         Faultfree, AttemptAnswer;
    var at := UtcText.ServiceTime(now, floor);
    if at.None? { return Overflowed; }
    for k := 0 to PUBLICATION_ID_ATTEMPTS
      invariant ws.records == old(ws.records) && ws.withdrawals == old(ws.withdrawals)
      invariant ws.locks == old(ws.locks)
      invariant forall i :: 0 <= i < k ==> ids[i] in ws.records
    {
      var id := ids[k];
      FaultfreeInspects(io(k), own(k));
      if !own(k).inspected { return Failed(WriteFailure); }
      if id in ws.records {
        if !Loads(ws.records, id) { return Failed(IntegrityFailure); }
        continue;
      }
      var candidate := FromRequest(q, id, digest, at.value, predecessor);
      BuiltAsRequested(q, id, digest, at.value, predecessor);
      result := AttemptCreation(ws, candidate, q, digest, predecessor, io(k), own(k), pid);
      return;
    }
    return Failed(ConflictFailure);
  }

  lemma FaultfreeInspects(io: nat -> Choice, own: Rereads)
    ensures Faultfree(io, own) ==> own.inspected
  {
  }

  lemma BuiltAsRequested(q: ManifestRequest, id: string, digest: string, at: int, predecessor: Option<string>)
    ensures var r := FromRequest(q, id, digest, at, predecessor);
            r.publicationId == id && r.publishedAt == at && AsRequested(r, q, digest, predecessor)
  {
  }
}
