/** A whole withdrawal request, from the record it names to its answer. */
module PublicationWithdrawals {
  import opened Foundations
  import opened PublicationRecords
  import opened PublicationProtocol
  import opened PublicationHistory
  import opened PublicationStore
  import opened PublicationServices
  import opened PublicationOutcomes
  import UtcText

  /** Field by field, what a request to withdraw `r` asks to be written. */
  ghost predicate NoticeAsRequested(d: PublicationWithdrawal, r: PublicationRecord, now: int, reason: string) {
    d.publicationId == r.publicationId && d.reason == reason && StampedAt(d.withdrawnAt, now, Some(r.publishedAt))
  }

  /**
   What a service prepares, over whole runs and with clean reads at `a <= b <= c`, for a record
   that was settled when it was read. Without a withdrawal file it goes to its writer, and what
   it hands over has the record's id, the requested reason, and the later of the clock and the
   record's own time; it stops only where one of those times cannot be written in UTC. A
   withdrawal that is there is the answer for the same reason and a conflict for another; one
   just being written is an integrity failure.
   */
  lemma PreparesExactly(trace: seq<World>, events: seq<Event>, a: nat, b: nat, c: nat, r: PublicationRecord, now: int,
                        reason: string)
    requires Run(trace, events, true) && Initial(trace[0]) && a <= b <= c < |trace| && Settled(trace[a], r)
    ensures var id := r.publicationId;
            var prepared := PrepareWithdrawal(ReadRecord(trace[a].files, id, true),
                                              ReadWithdrawal(trace[b].files, true, trace[c].files, true, id), now,
                                              reason);
            if id !in trace[c].files.withdrawals then
              && (prepared.Success? <==> TimesFit(now, Some(r.publishedAt)))
              && (prepared.Success? ==> NoticeAsRequested(prepared.value, r, now, reason))
              && (prepared.Failure? ==> prepared.error == WithdrawalOverflowed)
            else if HalfWithdrawn(trace[c].files, id) then prepared == Failure(NotWithdrawn(IntegrityFailure))
            else
              var d := trace[c].files.withdrawals[id].value;
              prepared == Failure(if d.reason == reason then AlreadyWithdrawn(r, d) else NotWithdrawn(ConflictFailure))
  {
    hide Run, Settled, UtcText.Representable;
    WeakenRun(trace, events);
    SettledIsFound(trace, events, a, a, r);
    LookupExactly(trace, events, a, b, c, r, true, true);
  }

  /** The record's file holds that record. */
  ghost predicate Holds(f: Files, id: string) {
    id in f.records && f.records[id].Complete? && f.records[id].value.publicationId == id
  }

  /** What stands in the way of a read of the record in `f` and of its withdrawal in `g`, if anything does. */
  ghost function Obstacle(f: Files, okF: bool, g: Files, okG: bool, id: string): Option<ServiceError> {
    if !okF then Some(WriteFailure)
    else if !Holds(f, id) then Some(IntegrityFailure)
    else if !okG then Some(WriteFailure)
    else if
      && id in g.withdrawals
      && (g.withdrawals[id].Partial? || g.withdrawals[id].value.publicationId != id
          || g.withdrawals[id].value.withdrawnAt < f.records[id].value.publishedAt)
    then Some(IntegrityFailure)
    else None
  }

  /**
   Every branch before the writer, fault by fault and file by file: the record is read from `f`,
   again from `g`, and its withdrawal from `h`. A record missing at first is not found; one that is
   lost later is an integrity failure, as is anything invalid; a fault is a write failure.
   */
  lemma PreparesInFull(f: Files, okF: bool, g: Files, okG: bool, h: Files, okH: bool, id: string, now: int,
                       reason: string)
    ensures var prepared := PrepareWithdrawal(ReadRecord(f, id, okF), ReadWithdrawal(g, okG, h, okH, id), now, reason);
            if !okF then prepared == Failure(NotWithdrawn(WriteFailure))
            else if !Holds(f, id) then
              prepared == Failure(NotWithdrawn(if id in f.records then IntegrityFailure else NotFoundError))
            else if Obstacle(g, okG, h, okH, id).Some? then
              prepared == Failure(NotWithdrawn(Obstacle(g, okG, h, okH, id).value))
            else if id in h.withdrawals then
              var d := h.withdrawals[id].value;
              prepared == Failure(if d.reason == reason then AlreadyWithdrawn(f.records[id].value, d)
                                  else NotWithdrawn(ConflictFailure))
            else if TimesFit(now, Some(f.records[id].value.publishedAt)) then
              prepared.Success? && NoticeAsRequested(prepared.value, f.records[id].value, now, reason)
            else prepared == Failure(WithdrawalOverflowed)
  {
    hide UtcText.Representable;
  }

  /** The withdrawal attached to a replayed record, for any files and any faults of the two reads. */
  lemma AttachesInFull(r: PublicationRecord, f: Files, okF: bool, g: Files, okG: bool)
    ensures var id := r.publicationId;
            AttachWithdrawal(ReadWithdrawal(f, okF, g, okG, id), r) ==
            match Obstacle(f, okF, g, okG, id)
            case Some(error) => Failed(error)
            case None => Existing(r, if id in g.withdrawals then Some(g.withdrawals[id].value) else None)
  {
  }

  /** Every branch after a completed writer: only the very withdrawal it wrote confirms it. */
  lemma ConfirmsInFull(r: PublicationRecord, d: PublicationWithdrawal, f: Files, okF: bool, g: Files, okG: bool)
    ensures var id := d.publicationId;
            var answer := AfterWithdrawn(r, d, ReadWithdrawal(f, okF, g, okG, id));
            answer ==
              if !okF || !Holds(f, id) || !okG || id !in g.withdrawals || g.withdrawals[id].Partial?
                || g.withdrawals[id].value.publicationId != id
                || g.withdrawals[id].value.withdrawnAt < f.records[id].value.publishedAt
              then WithdrawalUnconfirmed(d)
              else if g.withdrawals[id].value == d then Withdrawn(r, d)
              else NotWithdrawn(IntegrityFailure)
  {
  }

  /** Every branch after a failed writer, fault by fault and file by file. */
  lemma ReconcilesInFull(outcome: Outcome, r: PublicationRecord, f: Files, okF: bool, g: Files, okG: bool, h: Files,
                         okH: bool, reason: string)
    ensures var id := r.publicationId;
            var answer := AfterWithdrawError(outcome, r, reason, ReadRecord(f, id, okF),
                                             ReadWithdrawal(g, okG, h, okH, id));
            if outcome.IntegrityError? then answer == NotWithdrawn(IntegrityFailure)
            else if !okF then answer == NotWithdrawn(WriteFailure)
            else if !Holds(f, id) || f.records[id].value != r then answer == NotWithdrawn(IntegrityFailure)
            else if Obstacle(g, okG, h, okH, id).Some? then
              answer == NotWithdrawn(Obstacle(g, okG, h, okH, id).value)
            else if id in h.withdrawals then
              var d := h.withdrawals[id].value;
              answer == if d.reason == reason then AlreadyWithdrawn(r, d) else NotWithdrawn(ConflictFailure)
            else
              answer == NotWithdrawn(if outcome.Conflict? then ConflictFailure
                                     else if outcome.ReadError? then IntegrityFailure else WriteFailure)
  {
  }

  /**
   The answer to a fault-free withdrawal with nobody else at work, said of the stored files
   alone. `after` are the withdrawals left behind.
   */
  ghost predicate NoticeAnswer(before: Files, locks: map<SeriesId, nat>, id: string, reason: string, now: int,
                               result: WithdrawResult, after: map<string, File<PublicationWithdrawal>>)
  {
    if id !in before.records then result == NotWithdrawn(NotFoundError) && after == before.withdrawals
    else if before.records[id].Partial? || before.records[id].value.publicationId != id then
      result == NotWithdrawn(IntegrityFailure) && after == before.withdrawals
    else
      var r := before.records[id].value;
      if id in before.withdrawals then
        && after == before.withdrawals
        && result == (if before.withdrawals[id].Partial? then NotWithdrawn(IntegrityFailure)
                      else
                        var d := before.withdrawals[id].value;
                        if d.publicationId != id || d.withdrawnAt < r.publishedAt then NotWithdrawn(IntegrityFailure)
                        else if d.reason == reason then AlreadyWithdrawn(r, d)
                        else NotWithdrawn(ConflictFailure))
      else if !TimesFit(now, Some(r.publishedAt)) then result == WithdrawalOverflowed && after == before.withdrawals
      else if r.Series() in locks then result == NotWithdrawn(ConflictFailure) && after == before.withdrawals
      else
        && result.Withdrawn? && result.publication == r && NoticeAsRequested(result.withdrawal, r, now, reason)
        && after == before.withdrawals[id := Complete(result.withdrawal)]
  }

  /** Which of a request's own reads meet no fault: before its writer, and after it. */
  datatype NoticeReads = NoticeReads(record: bool, again: bool, withdrawal: bool, after: bool, afterAgain: bool,
                                     last: bool)

  const CLEAN_READS := NoticeReads(true, true, true, true, true, true)

  /**
   `withdraw_publication`. Alone and without faults it answers exactly as the stored files call
   for; a success it reports is stored, and it writes nothing else.
   */
  method WithdrawPublication(ws: Workspace, id: string, reason: string, now: int, own: NoticeReads, io: nat -> Choice,
                             pid: nat, series: SeriesId)
    returns (result: WithdrawResult)
    modifies ws`withdrawals, ws`locks
    ensures own == CLEAN_READS && (forall n :: io(n).ok) ==>
              NoticeAnswer(old(Files(ws.records, ws.withdrawals)), old(ws.locks), id, reason, now, result,
                           ws.withdrawals)
    ensures result.Withdrawn? || result.WithdrawalUnconfirmed? ==>
              ws.withdrawals == old(ws.withdrawals)[id := Complete(result.withdrawal)]
    ensures result.WithdrawalUnconfirmed? ==> !(own.after && own.last)
  {
    hide UtcText.Representable;
    var f := Files(ws.records, ws.withdrawals);
    var record := ReadRecord(f, id, own.record);
    var prepared := PrepareWithdrawal(record, ReadWithdrawal(f, own.again, f, own.withdrawal, id), now, reason);
    if prepared.Failure? { return prepared.error; }
    var d := prepared.value;
    assert d.publicationId == id;
    var outcome, _ := ws.WritePublicationWithdrawal(d, pid, io, series);
    var g := Files(ws.records, ws.withdrawals);
    if outcome.Written? {
      WrittenIsRead(f, d, outcome);
      return AfterWithdrawn(record.record, d, ReadWithdrawal(g, own.after, g, own.last, id));
    }
    return AfterWithdrawError(outcome, record.record, reason, ReadRecord(g, id, own.after),
                              ReadWithdrawal(g, own.afterAgain, g, own.last, id));
  }

  /** The withdrawal handed to the writer fits the record it was built from. */
  lemma WrittenIsRead(f: Files, d: PublicationWithdrawal, outcome: Outcome)
    requires Loads(f.records, d.publicationId) && d.withdrawnAt >= f.records[d.publicationId].value.publishedAt
    ensures var g := f.(withdrawals := f.withdrawals[d.publicationId := Complete(d)]);
            ReadWithdrawal(g, true, g, true, d.publicationId) == Success(Some(d))
  {
  }
}
