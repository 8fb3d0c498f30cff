/**
 What the publish, supersede and withdraw services answer once their writer has ended, while
 other processes keep writing and any of the service's own reads may fail.
 */
module PublicationOutcomes {
  import opened Foundations
  import opened PublicationRecords
  import opened PublicationProtocol
  import opened PublicationHistory
  import opened PublicationServices
  import UtcText

  predicate StoredRecord(f: Files, r: PublicationRecord) {
    r.publicationId in f.records && f.records[r.publicationId] == Complete(r)
  }

  /** A withdrawal file exists and has no content yet. */
  predicate HalfWithdrawn(f: Files, id: string) { id in f.withdrawals && f.withdrawals[id].Partial? }

  function WithdrawalIn(f: Files, id: string): Option<PublicationWithdrawal> {
    if id in f.withdrawals && f.withdrawals[id].Complete? then Some(f.withdrawals[id].value) else None
  }

  /** What one lookup of a settled record's withdrawal finds. */
  lemma LookupExactly(trace: seq<World>, events: seq<Event>, i: nat, b: nat, c: nat, r: PublicationRecord, okB: bool,
                      okC: bool)
    requires Run(trace, events, true) && Initial(trace[0]) && i <= b <= c < |trace| && Settled(trace[i], r)
    ensures Settled(trace[c], r)
    ensures ReadWithdrawal(trace[b].files, okB, trace[c].files, okC, r.publicationId)
            == if !okB || !okC then Failure(WriteFailure)
               else if HalfWithdrawn(trace[c].files, r.publicationId) then Failure(IntegrityFailure)
               else Success(WithdrawalIn(trace[c].files, r.publicationId))
  {
    hide Run, EverySeriesIsAChain, LocksHeld, ProcsSound;
    WeakenRun(trace, events);
    SettledForever(trace, events, i, b, r);
    SettledForever(trace, events, i, c, r);
    InitialIsSound(trace[0]);
    InvariantOverRuns(trace, events, c);
  }

  // ---------------------------------------------------------- a completed publication

  /**
   Once the writer has finished `Written` the record is stored for good, whatever is
   answered. The answer is partial success exactly when one of the service's reads failed;
   with clean reads it is the record with its withdrawal, or - exactly when somebody is just
   then writing a withdrawal of it - a plain integrity failure.
   */
  lemma PublishOutcomeExactly(trace: seq<World>, events: seq<Event>, pid: nat, i: nat, a: nat, b: nat, c: nat,
                              okA: bool, okB: bool, okC: bool)
    requires Run(trace, events, true) && Initial(trace[0]) && i <= a <= b <= c < |trace|
    requires pid in trace[i].procs && trace[i].procs[pid].job.Publish? && trace[i].procs[pid].phase == Finished(Written)
    ensures var r := trace[i].procs[pid].job.candidate;
            var clean := okA && okB && okC;
            var half := HalfWithdrawn(trace[c].files, r.publicationId);
            var result := AfterWritten(r, ReadRecord(trace[a].files, r.publicationId, okA),
                                       ReadWithdrawal(trace[b].files, okB, trace[c].files, okC, r.publicationId));
            && Settled(trace[c], r)
            && result == (if !clean then PartialSuccess(r)
                          else if half then Failed(IntegrityFailure)
                          else Created(r, WithdrawalIn(trace[c].files, r.publicationId)))
  {
    hide Run, Settled;
    var r := trace[i].procs[pid].job.candidate;
    WeakenRun(trace, events);
    WrittenIsForever(trace, events, i, i, pid);
    LookupExactly(trace, events, i, b, c, r, okB, okC);
    SettledIsFound(trace, events, i, a, r);
  }

  // ------------------------------------------------------------- a failed publication

  /** Stored at some time between `j` and `n`. */
  ghost predicate SeenBetween(trace: seq<World>, j: nat, n: nat, r: PublicationRecord) {
    exists m :: j <= m <= n && m < |trace| && StoredRecord(trace[m].files, r)
  }

  ghost predicate AllSeen(trace: seq<World>, j: nat, n: nat, got: seq<PublicationRecord>) {
    forall x :: x in got ==> SeenBetween(trace, j, n, x)
  }

  function Collected(p: Proc): seq<PublicationRecord> {
    match p.phase
    case Collecting(_, _, got) => got
    case Finished(Listed(got)) => got
    case _ => []
  }

  lemma CollectsWhatIsThere(w: World, p: Proc, c: Choice)
    requires p.job.List? && Live(p)
    ensures var p' := ListMove(w, p, c).proc;
            p'.job.List? && forall x :: x in Collected(p') ==> x in Collected(p) || StoredRecord(w.files, x)
  {
  }

  /** Whatever a listing returns was stored at some time while it ran. */
  lemma {:induction false} ListedWereThere(trace: seq<World>, events: seq<Event>, j: nat, n: nat, reader: nat)
    requires Run(trace, events, true) && j <= n < |trace|
    requires reader in trace[j].procs && trace[j].procs[reader].job.List? && trace[j].procs[reader].phase.Waiting?
    ensures reader in trace[n].procs && trace[n].procs[reader].job.List?
    ensures AllSeen(trace, j, n, Collected(trace[n].procs[reader]))
    decreases n
  {
    hide ListMove;
    if j < n {
      ListedWereThere(trace, events, j, n - 1, reader);
      var w, e := trace[n - 1], events[n - 1];
      if e.Act? && e.pid == reader { CollectsWhatIsThere(w, w.procs[reader], e.choice); }
      forall x | x in Collected(trace[n].procs[reader]) ensures SeenBetween(trace, j, n, x) {
        if x in Collected(w.procs[reader]) {
          var m :| j <= m <= n - 1 && m < |trace| && StoredRecord(trace[m].files, x);
          assert StoredRecord(trace[m].files, x);
        } else {
          assert StoredRecord(trace[n - 1].files, x);
        }
      }
    }
  }

  /** The times of the service's reads after a failed write, and which of them meet no fault. */
  datatype Times = Times(manifest: nat, listed: nat, done: nat, record: nat, withdrawal: nat, again: nat)

  ghost predicate InOrder(i: nat, t: Times, n: nat) {
    i <= t.manifest <= t.listed <= t.done <= t.record <= t.withdrawal <= t.again < n
  }

  /** What the service makes of a writer error; `None` means it tries another id. */
  function AnswerToError(trace: seq<World>, outcome: Outcome, id: string, q: ManifestRequest, digest: string,
                         predecessor: Option<string>, listing: Outcome, t: Times, own: Rereads): Option<ServiceResult>
    requires InOrder(0, t, |trace|)
  {
    AfterWriterError(outcome,
      Reconciled(ManifestAgain(trace[t.manifest].manifests, q, own.manifest), listing, q, digest, predecessor,
                 trace[t.record].files, own.withdrawalRecord, trace[t.withdrawal].files, own.withdrawal),
      ReadRecord(trace[t.again].files, id, own.record))
  }

  /** Everything the service reads while reconciling is readable, and the manifest is unchanged. */
  ghost predicate Reconcilable(trace: seq<World>, id: string, q: ManifestRequest, digest: string, listing: Outcome,
                               t: Times, own: Rereads)
    requires InOrder(0, t, |trace|)
  {
    && ManifestAgain(trace[t.manifest].manifests, q, own.manifest) == Some(digest) && listing.Listed?
    && own.withdrawalRecord && own.withdrawal && !HalfWithdrawn(trace[t.withdrawal].files, id)
  }

  /**
   A failed write, reconciled while others write. The answer is never a creation or a
   partial success; a record answered as existing was stored while the service listed, is
   the request's own, and comes with the withdrawal stored at the end. If the candidate was
   settled when the listing began - its writer failed only after storing it - the answer is
   that record exactly when everything could be read, and is otherwise an integrity or write
   failure: no conflict is reported, and no second record is attempted under another id.
   */
  lemma FailedPublishIsReconciled(trace: seq<World>, events: seq<Event>, writer: nat, i: nat, reader: nat,
                                  q: ManifestRequest, digest: string, predecessor: Option<string>, t: Times,
                                  own: Rereads)
    requires Run(trace, events, true) && Initial(trace[0]) && InOrder(i, t, |trace|)
    requires writer in trace[i].procs && trace[i].procs[writer].job.Publish? && trace[i].procs[writer].phase.Finished?
    requires !trace[i].procs[writer].phase.outcome.Written?
    requires Replays(trace[i].procs[writer].job.candidate, q, digest, predecessor)
    requires reader in trace[t.listed].procs && trace[t.listed].procs[reader].phase.Waiting?
    requires trace[t.listed].procs[reader].job.List? && trace[t.listed].procs[reader].series == q.Series()
    requires reader in trace[t.done].procs && trace[t.done].procs[reader].phase.Finished?
    ensures var r := trace[i].procs[writer].job.candidate;
            var listing := trace[t.done].procs[reader].phase.outcome;
            var answer := AnswerToError(trace, trace[i].procs[writer].phase.outcome, r.publicationId, q, digest,
                                        predecessor, listing, t, own);
            && (answer.Some? ==> answer.value.Existing? || answer.value.Failed?)
            && (answer.Some? && answer.value.Existing? ==>
                  var x := answer.value.record;
                  && Replays(x, q, digest, predecessor) && SeenBetween(trace, t.listed, t.done, x)
                  && answer.value.withdrawal == WithdrawalIn(trace[t.withdrawal].files, x.publicationId))
            && (Settled(trace[t.listed], r) ==>
                  if Reconcilable(trace, r.publicationId, q, digest, listing, t, own) then
                    answer == Some(Existing(r, WithdrawalIn(trace[t.withdrawal].files, r.publicationId)))
                  else answer == Some(Failed(IntegrityFailure)) || answer == Some(Failed(WriteFailure)))
  {
    hide Run, Settled, Replays, SeriesAccepted, AllSeen, ReadWithdrawal, Reconcile, SeenBetween, Reconcilable;
    var r := trace[i].procs[writer].job.candidate;
    var outcome := trace[i].procs[writer].phase.outcome;
    var listing := trace[t.done].procs[reader].phase.outcome;
    ListedWereThere(trace, events, t.listed, t.done, reader);
    AnswerIsReal(trace, outcome, r.publicationId, q, digest, predecessor, listing, t, own);
    if Settled(trace[t.listed], r) {
      ReplaySeries(r, q, digest, predecessor);
      ListingSeesSettled(trace, events, t.listed, t.done, reader, r);
      LookupExactly(trace, events, t.listed, t.record, t.withdrawal, r, own.withdrawalRecord, own.withdrawal);
      SettledIsAnswered(trace, outcome, r, q, digest, predecessor, listing, t, own);
    }
  }

  lemma SettledIsAnswered(trace: seq<World>, outcome: Outcome, r: PublicationRecord, q: ManifestRequest, digest: string,
                          predecessor: Option<string>, listing: Outcome, t: Times, own: Rereads)
    requires InOrder(0, t, |trace|) && Replays(r, q, digest, predecessor)
    requires listing.Listed? ==> r in listing.records && SeriesAccepted(listing.records)
    requires ReadWithdrawal(trace[t.record].files, own.withdrawalRecord, trace[t.withdrawal].files, own.withdrawal,
                            r.publicationId)
             == if !own.withdrawalRecord || !own.withdrawal then Failure(WriteFailure)
                else if HalfWithdrawn(trace[t.withdrawal].files, r.publicationId) then Failure(IntegrityFailure)
                else Success(WithdrawalIn(trace[t.withdrawal].files, r.publicationId))
    ensures var answer := AnswerToError(trace, outcome, r.publicationId, q, digest, predecessor, listing, t, own);
            if Reconcilable(trace, r.publicationId, q, digest, listing, t, own) then
              answer == Some(Existing(r, WithdrawalIn(trace[t.withdrawal].files, r.publicationId)))
            else answer == Some(Failed(IntegrityFailure)) || answer == Some(Failed(WriteFailure))
  {
    hide Replays, SeriesAccepted, ReadWithdrawal, Reconcile;
    if listing.Listed? { ReplayIsFound(listing.records, r, q, digest, predecessor); }
  }

  lemma AnswerIsReal(trace: seq<World>, outcome: Outcome, id: string, q: ManifestRequest, digest: string,
                     predecessor: Option<string>, listing: Outcome, t: Times, own: Rereads)
    requires InOrder(0, t, |trace|)
    requires listing.Listed? ==> AllSeen(trace, t.listed, t.done, listing.records)
    ensures var answer := AnswerToError(trace, outcome, id, q, digest, predecessor, listing, t, own);
            && (answer.Some? ==> answer.value.Existing? || answer.value.Failed?)
            && (answer.Some? && answer.value.Existing? ==>
                  var x := answer.value.record;
                  && Replays(x, q, digest, predecessor) && SeenBetween(trace, t.listed, t.done, x)
                  && answer.value.withdrawal == WithdrawalIn(trace[t.withdrawal].files, x.publicationId))
  {
    hide Replays, Reconcile, SeenBetween;
    if listing.Listed? { ReplayIsReal(listing.records, q, digest, predecessor); }
  }

  /** The failure a service answers with when its writer ended in `outcome` and nothing it asked for is stored. */
  function PlainFailure(outcome: Outcome): ServiceError {
    match outcome
    case Conflict => ConflictFailure
    case WriteError => WriteFailure
    case IntegrityError => IntegrityFailure
    case ManifestError => IntegrityFailure
    case ReadError => IntegrityFailure
    case _ => IntegrityFailure
  }

  /**
   What is answered when there is nothing to reconcile with. With the manifest unchanged and the
   series listed without the request's revision, it is the writer's own failure - except that a
   conflict whose id has meanwhile been taken leads to another id. A changed manifest, an
   invalid series and a contradictory record are integrity failures, whatever the writer met; a
   listing that could not be made is a write failure, unless the writer had failed on the
   manifest or on a read.
   */
  lemma UnreconciledExactly(trace: seq<World>, outcome: Outcome, id: string, q: ManifestRequest, digest: string,
                            predecessor: Option<string>, listing: Outcome, t: Times, own: Rereads)
    requires InOrder(0, t, |trace|) && !outcome.Written? && !outcome.Listed?
    requires listing.Listed? ==> SeriesAccepted(listing.records) && OwnSeries(listing.records, q)
    requires listing.Listed? || listing.ReadError? || listing.IntegrityError?
    ensures var manifests, f := trace[t.manifest].manifests, trace[t.again].files;
            var answer := AnswerToError(trace, outcome, id, q, digest, predecessor, listing, t, own);
            if !own.manifest || q.manifestPath !in manifests || manifests[q.manifestPath] != digest
              || listing.IntegrityError? then
              answer == Some(Failed(IntegrityFailure))
            else if listing.ReadError? then
              answer == Some(Failed(if outcome.ManifestError? || outcome.ReadError? then IntegrityFailure
                                    else WriteFailure))
            else if RevisionTakenIn(listing.records, q) then
              Contradicted(listing.records, q, digest, predecessor) ==> answer == Some(Failed(IntegrityFailure))
            else if outcome.Conflict? && (!own.record || id in f.records) then
              answer == if !own.record then Some(Failed(WriteFailure))
                        else if f.records[id].Complete? && f.records[id].value.publicationId == id then None
                        else Some(Failed(IntegrityFailure))
            else answer == Some(Failed(PlainFailure(outcome)))
  {
    hide AsRequested, Reconcile, Reconciled, SeriesAccepted, OwnSeries, RevisionTakenIn, Contradicted;
    ReconciledCases(ManifestAgain(trace[t.manifest].manifests, q, own.manifest), listing, q, digest, predecessor,
                    trace[t.record].files, own.withdrawalRecord, trace[t.withdrawal].files, own.withdrawal);
  }

  /** The revision is there, in a record that is not the one asked for. */
  ghost predicate Contradicted(got: seq<PublicationRecord>, q: ManifestRequest, digest: string,
                               predecessor: Option<string>) {
    exists x :: x in got && x.recordSetRevision == q.recordSetRevision && !AsRequested(x, q, digest, predecessor)
  }

  lemma ReconciledCases(now: Option<string>, listing: Outcome, q: ManifestRequest, digest: string,
                        predecessor: Option<string>, f: Files, okF: bool, g: Files, okG: bool)
    requires listing.Listed? ==> SeriesAccepted(listing.records) && OwnSeries(listing.records, q)
    ensures var result := Reconciled(now, listing, q, digest, predecessor, f, okF, g, okG);
            && (now != Some(digest) ==> result == Some(Failed(IntegrityFailure)))
            && (now == Some(digest) && !listing.Listed? ==>
                  result == Some(Failed(if listing.ReadError? then WriteFailure else IntegrityFailure)))
            && (now == Some(digest) && listing.Listed? ==>
                  && (RevisionTakenIn(listing.records, q) <==> result.Some?)
                  && (Contradicted(listing.records, q, digest, predecessor) ==>
                      result == Some(Failed(IntegrityFailure))))
  {
    hide AsRequested, Reconcile, ReadWithdrawal;
    if listing.Listed? {
      ChainOfAccepted(listing.records);
      var chain :| multiset(chain) == multiset(listing.records) && IsChain(chain);
      SameContents(chain, listing.records);
      ReconcileExactly(listing.records, chain, q, digest, predecessor);
    }
    hide SeriesAccepted, OwnSeries, IsChain;
  }

  lemma ChainOfAccepted(got: seq<PublicationRecord>)
    requires SeriesAccepted(got)
    ensures exists chain :: multiset(chain) == multiset(got) && IsChain(chain)
  {
    if got == [] { assert IsChain(got); }
  }

  // ------------------------------------------------------------------ withdrawing

  datatype WithdrawResult =
    | Withdrawn(publication: PublicationRecord, withdrawal: PublicationWithdrawal)
    | AlreadyWithdrawn(publication: PublicationRecord, withdrawal: PublicationWithdrawal)
    | WithdrawalUnconfirmed(withdrawal: PublicationWithdrawal)         // partial success
    | NotWithdrawn(error: ServiceError)
    | WithdrawalOverflowed                                             // not caught by the service

  /** An error met by a lookup after the record itself has been read: a lost record is an integrity failure. */
  function LookupError(error: ServiceError): ServiceError { if error.NotFoundError? then IntegrityFailure else error }

  /** The withdrawal a service builds, unless its time overflows. */
  function RequestedWithdrawal(publication: PublicationRecord, now: int,
                               reason: string): Option<PublicationWithdrawal> {
    match UtcText.ServiceTime(now, Some(publication.publishedAt))
    case None => None
    case Some(t) => Some(PublicationWithdrawal(publication.publicationId, t, reason))
  }

  /** `withdraw_publication` up to its writer: the withdrawal to write, or an answer. */
  function PrepareWithdrawal(record: RecordReading, existing: Result<Option<PublicationWithdrawal>, ServiceError>,
                             now: int, reason: string): Result<PublicationWithdrawal, WithdrawResult>
  {
    match record
    case Missing => Failure(NotWithdrawn(NotFoundError))
    case Faulted => Failure(NotWithdrawn(WriteFailure))
    case Invalid => Failure(NotWithdrawn(IntegrityFailure))
    case Found(publication) =>
      match existing
      case Failure(error) => Failure(NotWithdrawn(LookupError(error)))
      case Success(None) =>
        (match RequestedWithdrawal(publication, now, reason)
         case None => Failure(WithdrawalOverflowed)
         case Some(d) => Success(d))
      case Success(Some(d)) =>
        if d.reason == reason then Failure(AlreadyWithdrawn(publication, d)) else Failure(NotWithdrawn(ConflictFailure))
  }

  /** What a completed withdrawal is answered with once it has been read back. */
  function AfterWithdrawn(publication: PublicationRecord, d: PublicationWithdrawal,
                          reading: Result<Option<PublicationWithdrawal>, ServiceError>): WithdrawResult
  {
    match reading
    case Failure(_) => WithdrawalUnconfirmed(d)
    case Success(None) => WithdrawalUnconfirmed(d)
    case Success(Some(x)) => if x != d then NotWithdrawn(IntegrityFailure) else Withdrawn(publication, x)
  }

  /** `_reconcile_withdrawal`, and what the service falls back to when it finds no withdrawal. */
  function AfterWithdrawError(outcome: Outcome, publication: PublicationRecord, reason: string, again: RecordReading,
                              reading: Result<Option<PublicationWithdrawal>, ServiceError>): WithdrawResult
  {
    if outcome.IntegrityError? then NotWithdrawn(IntegrityFailure)
    else
      match again
      case Faulted => NotWithdrawn(WriteFailure)
      case Missing => NotWithdrawn(IntegrityFailure)
      case Invalid => NotWithdrawn(IntegrityFailure)
      case Found(x) =>
        if x != publication then NotWithdrawn(IntegrityFailure)
        else
          match reading
          case Failure(error) => NotWithdrawn(LookupError(error))
          case Success(Some(d)) =>
            if d.reason != reason then NotWithdrawn(ConflictFailure) else AlreadyWithdrawn(publication, d)
          case Success(None) =>
            NotWithdrawn(if outcome.Conflict? then ConflictFailure
                         else if outcome.ReadError? then IntegrityFailure else WriteFailure)
  }

  /** A stored withdrawal keeps its record in place: nobody is left who could undo it. */
  lemma WithdrawnRecordIsSettled(trace: seq<World>, events: seq<Event>, a: nat, d: PublicationWithdrawal)
    requires Run(trace, events, true) && Initial(trace[0]) && a < |trace|
    requires WithdrawalSettled(trace[a], d.publicationId, Complete(d))
    ensures Loads(trace[a].files.records, d.publicationId)
    ensures var r := trace[a].files.records[d.publicationId].value; Settled(trace[a], r) && ValidWithdrawal(r, d)
  {
    hide Run, EverySeriesIsAChain, LocksHeld;
    InitialIsSound(trace[0]);
    InvariantOverRuns(trace, events, a);
    var w := trace[a];
    forall pid | pid in w.procs ensures !UndoableRecord(w.procs[pid], d.publicationId) {
      assert Facts(w.files, w.procs[pid]);
    }
  }

  lemma SettledWithdrawalIsFound(trace: seq<World>, events: seq<Event>, i: nat, a: nat, b: nat,
                                 d: PublicationWithdrawal, okA: bool, okB: bool)
    requires Run(trace, events, true) && Initial(trace[0]) && i <= a <= b < |trace|
    requires WithdrawalSettled(trace[i], d.publicationId, Complete(d))
    ensures WithdrawalSettled(trace[b], d.publicationId, Complete(d))
    ensures ReadWithdrawal(trace[a].files, okA, trace[b].files, okB, d.publicationId)
            == if okA && okB then Success(Some(d)) else Failure(WriteFailure)
  {
    hide Run, Settled;
    WeakenRun(trace, events);
    WithdrawnRecordIsSettled(trace, events, i, d);
    var r := trace[i].files.records[d.publicationId].value;
    assert r.publicationId == d.publicationId;
    WithdrawalSettledForever(trace, events, i, b, d.publicationId, Complete(d));
    LookupExactly(trace, events, i, a, b, r, okA, okB);
  }

  /**
   Once the withdrawer has finished `Written` the withdrawal is stored for good, and the
   answer is `Withdrawn` with clean reads and partial success without: never a failure.
   */
  lemma WithdrawOutcomeExactly(trace: seq<World>, events: seq<Event>, pid: nat, i: nat, a: nat, b: nat,
                               publication: PublicationRecord, okA: bool, okB: bool)
    requires Run(trace, events, true) && Initial(trace[0]) && i <= a <= b < |trace|
    requires pid in trace[i].procs && trace[i].procs[pid].job.Withdraw?
             && trace[i].procs[pid].phase == Finished(Written)
    ensures var d := trace[i].procs[pid].job.withdrawal;
            && WithdrawalSettled(trace[b], d.publicationId, Complete(d))
            && AfterWithdrawn(publication, d, ReadWithdrawal(trace[a].files, okA, trace[b].files, okB, d.publicationId))
               == if okA && okB then Withdrawn(publication, d) else WithdrawalUnconfirmed(d)
  {
    hide Run, WithdrawalSettled;
    WithdrawnIsForever(trace, events, i, i, pid);
    SettledWithdrawalIsFound(trace, events, i, a, b, trace[i].procs[pid].job.withdrawal, okA, okB);
  }

  /**
   A failed withdrawal, reconciled by reads at `a <= b <= c`. A withdrawal answered as
   existing is stored at `c`, with the request's reason, and the publication was stored at
   `a`. If the withdrawer's own file was settled by then, it is the answer exactly when the
   reads meet no fault, and otherwise the answer is a write failure.
   */
  lemma FailedWithdrawalIsReconciled(trace: seq<World>, events: seq<Event>, pid: nat, i: nat, a: nat, b: nat, c: nat,
                                     publication: PublicationRecord, okA: bool, okB: bool, okC: bool)
    requires Run(trace, events, true) && Initial(trace[0]) && i <= a <= b <= c < |trace|
    requires pid in trace[i].procs && trace[i].procs[pid].job.Withdraw? && trace[i].procs[pid].phase.Finished?
    requires trace[i].procs[pid].job.withdrawal.publicationId == publication.publicationId
    ensures var d := trace[i].procs[pid].job.withdrawal;
            var outcome := trace[i].procs[pid].phase.outcome;
            var id := publication.publicationId;
            var answer := AfterWithdrawError(outcome, publication, d.reason, ReadRecord(trace[a].files, id, okA),
                                             ReadWithdrawal(trace[b].files, okB, trace[c].files, okC, id));
            && (answer.AlreadyWithdrawn? ==>
                  && answer.publication == publication && StoredRecord(trace[a].files, publication)
                  && answer.withdrawal.reason == d.reason
                  && WithdrawalIn(trace[c].files, id) == Some(answer.withdrawal))
            && (!outcome.IntegrityError? && WithdrawalSettled(trace[a], id, Complete(d))
                && StoredRecord(trace[a].files, publication) ==>
                  answer == if okA && okB && okC then AlreadyWithdrawn(publication, d) else NotWithdrawn(WriteFailure))
  {
    hide Run, WithdrawalSettled;
    var d := trace[i].procs[pid].job.withdrawal;
    if WithdrawalSettled(trace[a], publication.publicationId, Complete(d)) {
      SettledWithdrawalIsFound(trace, events, a, b, c, d, okB, okC);
    }
  }

  /**
   With clean reads, a publication settled when it is read again, and nothing half written: no
   withdrawal there means the writer's own failure, one for another reason a conflict, and one
   for the same reason is the answer. Only an integrity error of the writer is answered at once.
   */
  lemma UnreconciledWithdrawalExactly(trace: seq<World>, events: seq<Event>, a: nat, b: nat, c: nat, outcome: Outcome,
                                      r: PublicationRecord, reason: string)
    requires Run(trace, events, true) && Initial(trace[0]) && a <= b <= c < |trace| && Settled(trace[a], r)
    requires outcome.Conflict? || outcome.WriteError? || outcome.ReadError? || outcome.IntegrityError?
    requires !HalfWithdrawn(trace[c].files, r.publicationId)
    ensures var id := r.publicationId;
            var answer := AfterWithdrawError(outcome, r, reason, ReadRecord(trace[a].files, id, true),
                                             ReadWithdrawal(trace[b].files, true, trace[c].files, true, id));
            if outcome.IntegrityError? || id !in trace[c].files.withdrawals then
              answer == NotWithdrawn(PlainFailure(outcome))
            else
              var d := trace[c].files.withdrawals[id].value;
              answer == if d.reason == reason then AlreadyWithdrawn(r, d) else NotWithdrawn(ConflictFailure)
  {
    hide Run, Settled;
    WeakenRun(trace, events);
    SettledIsFound(trace, events, a, a, r);
    LookupExactly(trace, events, a, b, c, r, true, true);
  }

  /** The answer to the same request repeated, with clean reads, after the withdrawal has been stored for good. */
  lemma WithdrawReplays(trace: seq<World>, events: seq<Event>, i: nat, a: nat, b: nat, c: nat, d: PublicationWithdrawal,
                        now: int, reason: string)
    requires Run(trace, events, true) && Initial(trace[0]) && i <= a <= b <= c < |trace|
    requires WithdrawalSettled(trace[i], d.publicationId, Complete(d))
    ensures Loads(trace[a].files.records, d.publicationId)
    ensures PrepareWithdrawal(ReadRecord(trace[a].files, d.publicationId, true),
                              ReadWithdrawal(trace[b].files, true, trace[c].files, true, d.publicationId), now, reason)
            == Failure(if reason == d.reason then AlreadyWithdrawn(trace[a].files.records[d.publicationId].value, d)
                       else NotWithdrawn(ConflictFailure))
  {
    hide Run, WithdrawalSettled;
    SettledWithdrawalIsFound(trace, events, i, a, a, d, true, true);
    WithdrawnRecordIsSettled(trace, events, a, d);
    SettledWithdrawalIsFound(trace, events, i, b, c, d, true, true);
  }

  // ------------------------------------------------------------------------ clock

  /**
   The service reads `r` at time `i` and builds a withdrawal of it, exactly when the clock's
   time and the record's own can be written in UTC. What the withdrawer checks at a later time
   `j`, before and under its lock, is whether the withdrawal fits what is stored then. It does
   exactly when a record loads under the id that was not published after the time of the
   withdrawal. A clock behind `r` never matters, and if `r` was settled when it was read the
   check cannot fail.
   */
  lemma ClockNeverBlocksWithdrawal(trace: seq<World>, events: seq<Event>, i: nat, j: nat, r: PublicationRecord,
                                   now: int, reason: string)
    requires Run(trace, events, true) && Initial(trace[0]) && i <= j < |trace| && StoredRecord(trace[i].files, r)
    ensures var built := RequestedWithdrawal(r, now, reason);
            var f, id := trace[j].files, r.publicationId;
            && (built.Some? <==> UtcText.Representable(now) && UtcText.Representable(r.publishedAt))
            && (built.Some? ==>
                  && Withdrawable(trace[i].files, built.value)
                  && (Withdrawable(f, built.value) <==>
                        && id in f.records && f.records[id].Complete?
                        && (f.records[id].value == r || f.records[id].value.publishedAt <= Max(now, r.publishedAt)))
                  && (Settled(trace[i], r) ==> Withdrawable(f, built.value))
                  && (!Withdrawable(f, built.value) ==>
                        exists pid :: pid in trace[i].procs && UndoableRecord(trace[i].procs[pid], id)))
  {
    hide Run, EverySeriesIsAChain, LocksHeld, ProcsSound, UtcText.Representable;
    InitialIsSound(trace[0]);
    InvariantOverRuns(trace, events, j);
    WeakenRun(trace, events);
    if Settled(trace[i], r) { SettledForever(trace, events, i, j, r); }
  }

  /**
   A withdrawer given a withdrawal of a record that was settled when the service read it: its
   steps without fault, at any later time, always pass the relationship check. Under the lock
   it stops only because a withdrawal file is already there.
   */
  lemma SettledWithdrawalIsNeverRefused(trace: seq<World>, events: seq<Event>, i: nat, j: nat, pid: nat,
                                        r: PublicationRecord, now: int, reason: string)
    requires Run(trace, events, true) && Initial(trace[0]) && i <= j < |events| && Settled(trace[i], r)
    requires events[j].Act? && events[j].pid == pid && events[j].choice.ok
    requires pid in trace[j].procs && trace[j].procs[pid].job.Withdraw?
    requires Some(trace[j].procs[pid].job.withdrawal) == RequestedWithdrawal(r, now, reason)
    ensures pid in trace[j + 1].procs
    ensures var before, after := trace[j].procs[pid].phase, trace[j + 1].procs[pid].phase;
            && (before.Waiting? ==> after.Prepared?)
            && (before.Locked? && r.publicationId !in trace[j].files.withdrawals ==> after.Ready?)
            && (before.Locked? && r.publicationId in trace[j].files.withdrawals ==>
                  after == Releasing(if HalfWithdrawn(trace[j].files, r.publicationId) then ReadError else Conflict))
  {
    hide Inv;
    ClockNeverBlocksWithdrawal(trace, events, i, j, r, now, reason);
  }
}
