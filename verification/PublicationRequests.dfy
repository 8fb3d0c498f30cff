/**
 A whole publish or supersede request, from its manifest to its answer, and how the
 registration a record names decides its publisher's checks over whole runs.
 */
module PublicationRequests {
  import opened Foundations
  import opened PublicationRecords
  import opened PublicationAdmission
  import opened PublicationProtocol
  import opened PublicationHistory
  import opened PublicationStore
  import opened PublicationServices
  import UtcText

  // ------------------------------------------------------ the registration named, over runs

  predicate Selects(e: Event, work: ModuleWorkRef) { e.SelectRegistration? && e.work == work }

  ghost predicate NeverSelected(events: seq<Event>, i: nat, work: ModuleWorkRef) {
    forall k :: 0 <= k < i && k < |events| ==> !Selects(events[k], work)
  }

  /** The last registration selected for `work` before time `i`, and its lifecycle. */
  ghost predicate LastSelected(events: seq<Event>, i: nat, work: ModuleWorkRef, revision: int, lifecycle: Lifecycle) {
    exists k :: 0 <= k < i && k < |events| && SelectedAt(events, k, i, work, revision, lifecycle)
  }

  ghost predicate SelectedAt(events: seq<Event>, k: nat, i: nat, work: ModuleWorkRef, revision: int,
                             lifecycle: Lifecycle)
    requires k < |events|
  {
    && events[k] == SelectRegistration(work, revision, lifecycle)
    && forall j :: k < j < i && j < |events| ==> !Selects(events[j], work)
  }

  /** What the registrations hold for one work. */
  ghost predicate Tells(g: Registrations, events: seq<Event>, i: nat, work: ModuleWorkRef) {
    && (NeverSelected(events, i, work) <==> work !in g.current)
    && (forall revision, lifecycle :: LastSelected(events, i, work, revision, lifecycle) <==>
          && work in g.current && g.current[work] == revision
          && (work, revision) in g.selected && g.selected[(work, revision)] == lifecycle)
  }

  lemma OtherEventsKeepRegistrations(w: World, e: Event)
    requires Enabled(w, e, false)
    ensures !e.SelectRegistration? ==> Apply(w, e).registrations == w.registrations
    ensures e.SelectRegistration? ==>
              Apply(w, e).registrations
              == Registrations(w.registrations.selected[(e.work, e.revision) := e.lifecycle],
                               w.registrations.current[e.work := e.revision])
              && (e.work, e.revision) !in w.registrations.selected
  {
  }

  lemma OneMoreEvent(events: seq<Event>, i: nat, work: ModuleWorkRef, revision: int, lifecycle: Lifecycle)
    requires i < |events|
    ensures NeverSelected(events, i + 1, work) <==> NeverSelected(events, i, work) && !Selects(events[i], work)
    ensures LastSelected(events, i + 1, work, revision, lifecycle) <==>
              if Selects(events[i], work) then events[i] == SelectRegistration(work, revision, lifecycle)
              else LastSelected(events, i, work, revision, lifecycle)
  {
    if Selects(events[i], work) {
      if events[i] == SelectRegistration(work, revision, lifecycle) {
        assert SelectedAt(events, i, i + 1, work, revision, lifecycle);
      }
      if LastSelected(events, i + 1, work, revision, lifecycle) {
        var k :| 0 <= k < i + 1 && k < |events| && SelectedAt(events, k, i + 1, work, revision, lifecycle);
        assert k == i;
      }
    } else {
      if LastSelected(events, i, work, revision, lifecycle) {
        var k :| 0 <= k < i && k < |events| && SelectedAt(events, k, i, work, revision, lifecycle);
        assert SelectedAt(events, k, i + 1, work, revision, lifecycle);
      }
      if LastSelected(events, i + 1, work, revision, lifecycle) {
        var k :| 0 <= k < i + 1 && k < |events| && SelectedAt(events, k, i + 1, work, revision, lifecycle);
        assert k != i && SelectedAt(events, k, i, work, revision, lifecycle);
      }
    }
  }

  lemma {:induction false} RegistrationsTell(trace: seq<World>, events: seq<Event>, i: nat, work: ModuleWorkRef)
    requires Run(trace, events, false) && Initial(trace[0]) && i < |trace|
    ensures Tells(trace[i].registrations, events, i, work)
  {
    hide Apply, Enabled, LastSelected, NeverSelected;
    if i > 0 {
      RegistrationsTell(trace, events, i - 1, work);
      OtherEventsKeepRegistrations(trace[i - 1], events[i - 1]);
      forall revision, lifecycle
        ensures LastSelected(events, i, work, revision, lifecycle) <==>
                  && work in trace[i].registrations.current && trace[i].registrations.current[work] == revision
                  && (work, revision) in trace[i].registrations.selected
                  && trace[i].registrations.selected[(work, revision)] == lifecycle
      {
        OneMoreEvent(events, i - 1, work, revision, lifecycle);
      }
      OneMoreEvent(events, i - 1, work, 0, Planned);
    } else {
      NothingSelected(events, work);
    }
  }

  lemma NothingSelected(events: seq<Event>, work: ModuleWorkRef)
    ensures NeverSelected(events, 0, work)
    ensures forall revision, lifecycle :: !LastSelected(events, 0, work, revision, lifecycle)
  {
  }

  /** The publisher is about to check the registration its candidate names, before the lock or under it. */
  predicate ChecksRegistration(p: Proc) { p.job.Publish? && (p.phase.Matched? || p.phase.Bound?) }

  /** The check is passed, or ends the publisher in a conflict. */
  predicate Passes(before: Phase, after: Phase) { if before.Matched? then after.Prepared? else after.Vetted? }

  predicate Conflicts(before: Phase, after: Phase) {
    after == if before.Matched? then Finished(Conflict) else Releasing(Conflict)
  }

  /**
   Over whole runs, on a step without fault: an intervention passes both of its publisher's
   registration checks. An academic record passes exactly when the last registration selected
   for its work is the one it names, whether planned, active or closed; with no registration
   selected, with another revision selected last, or with a cancelled one, it ends in a conflict.
   */
  lemma RegistrationDecides(trace: seq<World>, events: seq<Event>, i: nat, pid: nat)
    requires Run(trace, events, true) && Initial(trace[0]) && i < |events|
    requires events[i].Act? && events[i].pid == pid && events[i].choice.ok
    requires pid in trace[i].procs && ChecksRegistration(trace[i].procs[pid])
    ensures pid in trace[i + 1].procs
    ensures var r := trace[i].procs[pid].job.candidate;
            var before, after := trace[i].procs[pid].phase, trace[i + 1].procs[pid].phase;
            && (r.kind.InterventionRecordSet? ==> Passes(before, after))
            && (r.kind.AcademicResultSet? && NeverSelected(events, i, r.work) ==> Conflicts(before, after))
            && (r.kind.AcademicResultSet? ==>
                  forall n, lifecycle :: LastSelected(events, i, r.work, n, lifecycle) ==>
                    if r.registrationRevision == Some(n) && lifecycle in {Planned, Active, Closed} then
                      Passes(before, after)
                    else Conflicts(before, after))
  {
    hide LastSelected, NeverSelected;
    WeakenRun(trace, events);
    RegistrationsTell(trace, events, i, trace[i].procs[pid].job.candidate.work);
  }

  // -------------------------------------------------------------------- the service

  /** `_validate_academic_registration`; `ok`: the current registration can be read. */
  function RegistrationRefusal(g: Registrations, q: ManifestRequest, ok: bool): Option<ServiceError> {
    if q.kind.InterventionRecordSet? then None
    else if !ok then Some(WriteFailure)
    else if q.work !in g.current then Some(ConflictFailure)
    else if Some(g.current[q.work]) != q.registrationRevision then Some(ConflictFailure)
    else if (q.work, g.current[q.work]) in g.selected && g.selected[(q.work, g.current[q.work])].Cancelled? then
      Some(ConflictFailure)
    else None
  }

  /** What is current has been selected, as in every reachable state. */
  ghost predicate CurrentSelected(g: Registrations) {
    forall work :: work in g.current ==> (work, g.current[work]) in g.selected
  }

  /** An intervention names no registration; an academic request names its work's current one, not cancelled. */
  ghost predicate RequestStands(g: Registrations, q: ManifestRequest) {
    q.kind.AcademicResultSet? ==>
      && q.registrationRevision.Some? && q.work in g.current && g.current[q.work] == q.registrationRevision.value
      && (q.work, q.registrationRevision.value) in g.selected
      && g.selected[(q.work, q.registrationRevision.value)] in {Planned, Active, Closed}
  }

  /** A read fault, which only academic requests can meet, is a write failure; one that does not stand conflicts. */
  lemma RefusalExactly(g: Registrations, q: ManifestRequest, ok: bool)
    requires CurrentSelected(g)
    ensures RegistrationRefusal(g, q, ok) ==
            if q.kind.AcademicResultSet? && !ok then Some(WriteFailure)
            else if RequestStands(g, q) then None else Some(ConflictFailure)
  {
  }

  /**
   The answer to a fault-free request with nobody else at work, said of the stored files alone.
   `chain` is the chain of the request's series, `after` the records left behind.
   */
  ghost predicate RequestAnswer(manifests: map<string, string>, g: Registrations, before: Files, locked: bool,
                                chain: seq<PublicationRecord>, q: ManifestRequest, expected: Option<string>,
                                predecessor: Option<string>, now: int, ids: seq<string>, result: ServiceResult,
                                after: map<string, File<PublicationRecord>>)
  {
    if q.manifestPath !in manifests || (expected.Some? && manifests[q.manifestPath] != expected.value) then
      result == Failed(IntegrityFailure) && after == before.records
    else
      var digest := manifests[q.manifestPath];
      && (forall x :: x in chain && x.recordSetRevision == q.recordSetRevision ==>
            && after == before.records
            && (!AsRequested(x, q, digest, predecessor) ==> result == Failed(IntegrityFailure))
            && (AsRequested(x, q, digest, predecessor) && x.publicationId !in before.withdrawals ==>
                result == Existing(x, None)))
      && (!RevisionTakenIn(chain, q) ==>
            if !MayExtend(chain, q, predecessor) then
              result == Failed(if chain == [] then NotFoundError else ConflictFailure) && after == before.records
            else if !RequestStands(g, q) then result == Failed(ConflictFailure) && after == before.records
            else
              var floor := if chain == [] then None else Some(chain[|chain| - 1].publishedAt);
              if !TimesFit(now, floor) then result == Overflowed && after == before.records
              else
                forall k: nat :: FirstUnused(before.records, ids, k) && ids[k] !in before.withdrawals ==>
                  if locked then result == Failed(ConflictFailure) && after == before.records
                  else
                    && result.Created? && result.withdrawal.None?
                    && result.record.publicationId == ids[k]
                    && AsRequested(result.record, q, digest, predecessor)
                    && StampedAt(result.record.publishedAt, now, floor)
                    && after == before.records[ids[k] := Complete(result.record)])
  }

  /** Which of a request's own first reads meet no fault. */
  datatype FirstReads =
    FirstReads(manifest: bool, withdrawalRecord: bool, withdrawal: bool, registration: bool)

  /**
   `publish_manifest_revision` without a predecessor, `supersede_manifest_revision` with one. Alone
   and without faults it answers exactly as the stored files call for, and writes nothing but
   the record it answers with.
   */
  method PublishManifest(ws: Workspace, q: ManifestRequest, expected: Option<string>, predecessor: Option<string>,
                         now: int,
                         ids: seq<string>, first: FirstReads, listing: nat -> Choice, io: nat -> nat -> Choice,
                         own: nat -> Rereads, pid: nat)
    returns (result: ServiceResult)
    requires |ids| >= PUBLICATION_ID_ATTEMPTS
    modifies ws`records, ws`locks
    ensures forall chain ::
              && first == FirstReads(true, true, true, true) && (forall n :: listing(n).ok)
              && (forall a :: Faultfree(io(a), own(a))) && CurrentSelected(ws.registrations)
              && old(ws.Readable()) && ChainOf(old(ws.records), q.Series(), chain)
              ==> RequestAnswer(ws.manifests, ws.registrations, old(Files(ws.records, ws.withdrawals)),
                                q.Series() in old(ws.locks), chain, q, expected, predecessor, now, ids, result,
                                ws.records)
  {
    hide ChainOf, RequestAnswer, SeriesAccepted, ListsSeries, Faultfree, FirstUnused, AsRequested, WriteAnswer;
    ghost var before := Files(ws.records, ws.withdrawals);
    ghost var locked := q.Series() in ws.locks;
    var digest := ManifestAgain(ws.manifests, q, first.manifest);
    if digest.None? || (expected.Some? && digest != expected) {
      result := Failed(IntegrityFailure);
      WithoutManifest(ws.manifests, ws.registrations, before, locked, q, expected, predecessor, now, ids, result);
      return;
    }
    var listed := ListAgain(ws, q.Series(), listing, pid);
    var next := AfterListing(listed, q, digest.value, predecessor);
    forall chain | ChainOf(ws.records, q.Series(), chain) && listed.Listed?
      ensures DecidedBy(next, chain, q, digest.value, predecessor)
    {
      DecidedByChain(before, chain, listed.records, q, digest.value, predecessor);
    }
    match next {
      case Return(answer) =>
        result := answer;
        ReturnsAsFiled(ws.manifests, ws.registrations, before, locked, q, expected, predecessor, now, ids, next,
                       result);
      case ReadWithdrawalOf(r) =>
        var f := Files(ws.records, ws.withdrawals);
        result := AttachWithdrawal(ReadWithdrawal(f, first.withdrawalRecord, f, first.withdrawal, r.publicationId), r);
        if first.withdrawalRecord && first.withdrawal {
          ReplaysAsFiled(ws.manifests, ws.registrations, before, locked, q, expected, predecessor, now, ids, next,
                         result);
        }
      case Create(floor) =>
        var refusal := RegistrationRefusal(ws.registrations, q, first.registration);
        if refusal.Some? {
          result := Failed(refusal.value);
          if first.registration {
            RefusedAsFiled(ws.manifests, ws.registrations, before, locked, q, expected, predecessor, now, ids, next,
                           result);
          }
          return;
        }
        result := CreatePublication(ws, q, digest.value, predecessor, floor, now, ids, io, own, pid);
        forall chain |
          && (forall a :: Faultfree(io(a), own(a))) && CurrentSelected(ws.registrations)
          && old(ws.Readable()) && ChainOf(old(ws.records), q.Series(), chain) && listed.Listed?
          && first == FirstReads(true, true, true, true)
          ensures RequestAnswer(ws.manifests, ws.registrations, before, locked, chain, q, expected, predecessor, now,
                                ids, result, ws.records)
        {
          CreatesAsFiled(ws.manifests, ws.registrations, before, locked, chain, q, expected, predecessor, now, ids,
                         next, result, ws.records);
        }
    }
  }

  /** What `DecisionExactly` says of the decision. */
  ghost predicate DecidedBy(next: Next, chain: seq<PublicationRecord>, q: ManifestRequest, digest: string,
                            predecessor: Option<string>)
  {
    && (forall x :: x in chain && x.recordSetRevision == q.recordSetRevision ==>
          next == if AsRequested(x, q, digest, predecessor) then ReadWithdrawalOf(x)
                  else Return(Failed(IntegrityFailure)))
    && (!RevisionTakenIn(chain, q) ==>
          next == if MayExtend(chain, q, predecessor) then
                    Create(if chain == [] then None else Some(chain[|chain| - 1].publishedAt))
                  else Return(Failed(if chain == [] then NotFoundError else ConflictFailure)))
  }

  lemma DecidedByChain(f: Files, chain: seq<PublicationRecord>, got: seq<PublicationRecord>, q: ManifestRequest,
                       digest: string, predecessor: Option<string>)
    requires ChainOf(f.records, q.Series(), chain) && ListsSeries(f, q.Series(), got)
    ensures DecidedBy(AfterListing(Listed(got), q, digest, predecessor), chain, q, digest, predecessor)
  {
    hide AfterListing;
    ListedSeriesIsTheChain(f, q.Series(), got, chain);
    ChainIsOwn(f, chain, q);
    hide ListsSeries, ChainOf;
    DecisionExactly(got, chain, q, digest, predecessor);
  }

  lemma WithoutManifest(manifests: map<string, string>, g: Registrations, before: Files, locked: bool,
                        q: ManifestRequest,
                        expected: Option<string>, predecessor: Option<string>, now: int, ids: seq<string>,
                        result: ServiceResult)
    requires result == Failed(IntegrityFailure)
    ensures q.manifestPath !in manifests || (expected.Some? && manifests[q.manifestPath] != expected.value) ==>
              forall chain :: RequestAnswer(manifests, g, before, locked, chain, q, expected, predecessor, now, ids,
                                            result, before.records)
  {
    hide AsRequested, TimesFit, RequestStands, MayExtend, RevisionTakenIn;
  }

  ghost predicate ManifestGiven(manifests: map<string, string>, q: ManifestRequest, expected: Option<string>) {
    q.manifestPath in manifests && (expected.Some? ==> manifests[q.manifestPath] == expected.value)
  }

  lemma ReturnsAsFiled(manifests: map<string, string>, g: Registrations, before: Files, locked: bool,
                       q: ManifestRequest,
                       expected: Option<string>, predecessor: Option<string>, now: int, ids: seq<string>,
                       next: Next, result: ServiceResult)
    requires next == Return(result)
    ensures ManifestGiven(manifests, q, expected) ==>
              forall chain :: DecidedBy(next, chain, q, manifests[q.manifestPath], predecessor) ==>
                RequestAnswer(manifests, g, before, locked, chain, q, expected, predecessor, now, ids, result,
                              before.records)
  {
    hide AsRequested, TimesFit, RequestStands, MayExtend;
  }

  lemma ReplaysAsFiled(manifests: map<string, string>, g: Registrations, before: Files, locked: bool,
                       q: ManifestRequest,
                       expected: Option<string>, predecessor: Option<string>, now: int, ids: seq<string>,
                       next: Next, result: ServiceResult)
    requires next.ReadWithdrawalOf?
    requires result == AttachWithdrawal(ReadWithdrawal(before, true, before, true, next.record.publicationId),
                                        next.record)
    ensures ManifestGiven(manifests, q, expected) ==>
              forall chain ::
                && DecidedBy(next, chain, q, manifests[q.manifestPath], predecessor)
                && ChainOf(before.records, q.Series(), chain) ==>
                RequestAnswer(manifests, g, before, locked, chain, q, expected, predecessor, now, ids, result,
                              before.records)
  {
    hide AsRequested, TimesFit, RequestStands, MayExtend, AttachWithdrawal, ReadWithdrawal, ChainOf;
    var r := next.record;
    forall chain | ChainOf(before.records, q.Series(), chain) && r in chain && r.publicationId !in before.withdrawals
      ensures result == Existing(r, None)
    {
      ChainMemberStored(before, q.Series(), chain, r);
      StoredUnwithdrawn(before, r);
      AttachesNothing(r);
    }
  }

  lemma ChainMemberStored(f: Files, s: SeriesId, chain: seq<PublicationRecord>, r: PublicationRecord)
    requires ChainOf(f.records, s, chain) && r in chain
    ensures r.publicationId in f.records && f.records[r.publicationId] == Complete(r)
  {
  }

  lemma AttachesNothing(r: PublicationRecord)
    ensures AttachWithdrawal(Success(None), r) == Existing(r, None)
  {
  }

  lemma RefusedAsFiled(manifests: map<string, string>, g: Registrations, before: Files, locked: bool,
                       q: ManifestRequest,
                       expected: Option<string>, predecessor: Option<string>, now: int, ids: seq<string>,
                       next: Next, result: ServiceResult)
    requires next.Create?
    requires RegistrationRefusal(g, q, true).Some? ==> result == Failed(RegistrationRefusal(g, q, true).value)
    ensures ManifestGiven(manifests, q, expected) && CurrentSelected(g) && RegistrationRefusal(g, q, true).Some? ==>
              forall chain :: DecidedBy(next, chain, q, manifests[q.manifestPath], predecessor) ==>
                RequestAnswer(manifests, g, before, locked, chain, q, expected, predecessor, now, ids, result,
                              before.records)
  {
    hide AsRequested, TimesFit, RequestStands, MayExtend, RegistrationRefusal;
    if CurrentSelected(g) { RefusalExactly(g, q, true); }
  }

  /** What a creation is answered with when it continues the chain and its registration stands. */
  lemma CreatesAsFiled(manifests: map<string, string>, g: Registrations, before: Files, locked: bool,
                       chain: seq<PublicationRecord>, q: ManifestRequest, expected: Option<string>,
                       predecessor: Option<string>, now: int, ids: seq<string>, next: Next, result: ServiceResult,
                       after: map<string, File<PublicationRecord>>)
    requires next.Create? && ManifestGiven(manifests, q, expected) && CurrentSelected(g)
    requires RegistrationRefusal(g, q, true).None?
    requires forall id :: id in before.records ==> Loads(before.records, id)
    requires DecidedBy(next, chain, q, manifests[q.manifestPath], predecessor)
    requires ChainOf(before.records, q.Series(), chain)
    requires result == Overflowed <==> !TimesFit(now, next.floor)
    requires result == Overflowed ==> after == before.records
    requires forall k: nat ::
               TimesFit(now, next.floor) && FirstUnused(before.records, ids, k) && ids[k] !in before.withdrawals
               && !RevisionTakenIn(chain, q) ==>
               exists r: PublicationRecord ::
                 && r.publicationId == ids[k] && AsRequested(r, q, manifests[q.manifestPath], predecessor)
                 && StampedAt(r.publishedAt, now, next.floor)
                 && (var outcome := WriteAnswer(manifests, g, before.records, locked, chain, r);
                     && result == AttemptAnswer(outcome, r)
                     && (outcome.Written? ==> after == before.records[ids[k] := Complete(r)])
                     && (!outcome.Written? ==> after == before.records))
    ensures RequestAnswer(manifests, g, before, locked, chain, q, expected, predecessor, now, ids, result, after)
  {
    hide AsRequested, TimesFit, RequestStands, RegistrationRefusal, ChainOf, WriteAnswer, StampedAt, MayExtend, Loads;
    RefusalExactly(g, q, true);
    if !RevisionTakenIn(chain, q) && TimesFit(now, next.floor) {
      forall k: nat | FirstUnused(before.records, ids, k) && ids[k] !in before.withdrawals
        ensures exists r: PublicationRecord ::
                  && r.publicationId == ids[k] && AsRequested(r, q, manifests[q.manifestPath], predecessor)
                  && StampedAt(r.publishedAt, now, next.floor)
                  && result == (if locked then Failed(ConflictFailure) else Created(r, None))
                  && after == if locked then before.records else before.records[ids[k] := Complete(r)]
      {
        var r: PublicationRecord :|
          && r.publicationId == ids[k] && AsRequested(r, q, manifests[q.manifestPath], predecessor)
          && StampedAt(r.publishedAt, now, next.floor)
          && (var outcome := WriteAnswer(manifests, g, before.records, locked, chain, r);
              && result == AttemptAnswer(outcome, r)
              && (outcome.Written? ==> after == before.records[ids[k] := Complete(r)])
              && (!outcome.Written? ==> after == before.records));
        IdUnused(before.records, ids, k);
        ExtensionIsWritten(manifests, g, before.records, locked, chain, q, manifests[q.manifestPath], predecessor, r,
                           now, next.floor);
      }
    }
  }

  lemma IdUnused(records: map<string, File<PublicationRecord>>, ids: seq<string>, k: nat)
    requires FirstUnused(records, ids, k)
    ensures ids[k] !in records
  {
  }

  /** A request that may extend the chain and whose registration stands is written unless its series is locked. */
  lemma ExtensionIsWritten(manifests: map<string, string>, g: Registrations,
                           records: map<string, File<PublicationRecord>>,
                           locked: bool, chain: seq<PublicationRecord>, q: ManifestRequest, digest: string,
                           predecessor: Option<string>, r: PublicationRecord, now: int, floor: Option<int>)
    requires q.manifestPath in manifests && manifests[q.manifestPath] == digest && RequestStands(g, q)
    requires AsRequested(r, q, digest, predecessor) && StampedAt(r.publishedAt, now, floor)
    requires MayExtend(chain, q, predecessor) && !RevisionTakenIn(chain, q) && r.publicationId !in records
    requires floor == if chain == [] then None else Some(chain[|chain| - 1].publishedAt)
    requires forall id :: id in records ==> Loads(records, id)
    requires ChainOf(records, q.Series(), chain)
    ensures WriteAnswer(manifests, g, records, locked, chain, r) == if locked then Conflict else Written
  {
    assert RegistrationStands(g, r) by { hide ChainOf, MayExtend, RevisionTakenIn; }
    assert !RevisionIn(chain, r) by { hide ChainOf, MayExtend; }
    if chain != [] {
      assert chain[|chain| - 1] in chain;
      assert chain[|chain| - 1].Series() == q.Series();
    }
    hide ChainOf, RegistrationStands, RevisionIn;
    assert Follows(chain, r);
  }
}
