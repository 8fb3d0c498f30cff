/**
 Academic Work Registrations: their transition relation, the register/update services
 over the revision store, and what a service may truthfully report after its writer.
 */
module RegistrationServices {
  import opened Foundations
  import opened PublicationRecords
  import opened RevisionStore
  import opened RevisionHistory
  import UtcText

  // -------------------------------------------------------------- registrations

  /** What a request says about the work; everything but revision and timestamps. */
  datatype Metadata = Metadata(
    work: ModuleWorkRef,
    producerContractVersion: string,
    title: string,
    workKind: string,
    intent: string,
    lifecycle: string,
    sourceRecords: seq<ModuleRecordRef>)

  datatype Registration = Registration(metadata: Metadata, revision: int, createdAt: int, updatedAt: int)

  predicate Transition(prior: Registration, candidate: Registration) {
    && candidate.metadata.work == prior.metadata.work
    && candidate.revision > prior.revision
    && candidate.createdAt == prior.createdAt
    && candidate.updatedAt >= prior.updatedAt
  }

  function RegistrationRules(): Rules<Registration> {
    Rules((r: Registration) => r.revision, (a: Registration, b: Registration) => Transition(a, b))
  }

  lemma RegistrationRulesHold()
    ensures Raising(RegistrationRules()) && TransitiveStep(RegistrationRules())
  {
  }

  // ------------------------------------------------------------------- services

  datatype Disposition = Created | Updated

  datatype ServiceResult =
    | Done(registration: Registration, disposition: Disposition)
    | Existing(registration: Registration)
    | PartialSuccess(registration: Registration, currentSelected: Option<bool>)
    | Failed(error: ServiceError)
    | Overflowed                       // a time that cannot be written in UTC
    | Propagated                       // a writer error the service does not catch

  /** One read of the current registration or of one revision: an I/O fault is not an invalid file. */
  datatype Reading = Absent | Found(registration: Registration) | Invalid | Faulted

  predicate Unreadable(r: Reading) { r.Invalid? || r.Faulted? }

  function ReadCurrent(s: Store<Registration>, ok: bool): Reading {
    if !ok then Faulted
    else if s.pointer.None? then Absent
    else if Loads(RegistrationRules(), s, s.pointer.value) then Found(s.revisions[s.pointer.value].value)
    else Invalid
  }

  function ReadRevision(s: Store<Registration>, n: int, ok: bool): Reading {
    if !ok then Faulted
    else if n !in s.revisions then Absent
    else if Loads(RegistrationRules(), s, n) then Found(s.revisions[n].value)
    else Invalid
  }

  /** `_raise_registration_write_state`: `None` when the candidate revision is not stored. */
  function WriteState(candidate: Registration, revision: Reading, current: Reading): Option<ServiceResult> {
    match revision
    case Absent => None
    case Invalid => Some(Failed(IntegrityFailure))
    case Faulted => Some(Failed(IntegrityFailure))
    case Found(persisted) =>
      if persisted != candidate then
        if current == Found(persisted) then Some(Failed(ConflictFailure)) else Some(Failed(IntegrityFailure))
      else
        Some(PartialSuccess(persisted, if Unreadable(current) then None else Some(current == Found(candidate))))
  }

  /** `_write_registration_candidate` once its writer has ended with `outcome`. */
  function Report(outcome: Outcome<Registration>, candidate: Registration, disposition: Disposition,
                  reconciled: Reading, revision: Reading, current: Reading): ServiceResult
  {
    match outcome
    case Written =>
      if Unreadable(reconciled) then PartialSuccess(candidate, None)
      else if reconciled != Found(candidate) then PartialSuccess(candidate, Some(false))
      else Done(candidate, disposition)
    case Conflict =>
      // This read is not guarded: its own error becomes the answer.
      if reconciled.Faulted? then Failed(WriteFailure)
      else if reconciled.Invalid? then Failed(IntegrityFailure)
      else if reconciled.Found? && reconciled.registration.metadata == candidate.metadata then
        Existing(reconciled.registration)
      else OrElse(WriteState(candidate, revision, current), Failed(ConflictFailure))
    case IntegrityError => OrElse(WriteState(candidate, revision, current), Failed(IntegrityFailure))
    case WriteError => OrElse(WriteState(candidate, revision, current), Failed(WriteFailure))
    case _ => Propagated
  }

  function OrElse(state: Option<ServiceResult>, fallback: ServiceResult): ServiceResult {
    if state.Some? then state.value else fallback
  }

  /** What the service reports after reading worlds `x`, `y` and `z` in turn. */
  function ReportAfter(p: Proc<Registration>, disposition: Disposition, x: World<Registration>, okX: bool,
                       y: World<Registration>, okY: bool, z: World<Registration>, okZ: bool): ServiceResult
    requires p.job.Write? && p.phase.Finished?
  {
    Report(p.phase.outcome, p.job.candidate, disposition, ReadCurrent(x.store, okX),
           ReadRevision(y.store, p.job.candidate.revision, okY), ReadCurrent(z.store, okZ))
  }

  /**
   - `Done` is only said of a candidate seen selected as current.
   - `Existing` is only said of the registration current in `x`, with the request's own
     metadata, and only when this call never created a revision file.
   - `PartialSuccess` is only said of a candidate that is stored.
   - A conflict means the candidate revision is not stored in `y`, or that another
     registration holds the revision and is selected in `z`.
   */
  ghost predicate Truthful(report: ServiceResult, p: Proc<Registration>, x: World<Registration>,
                           y: World<Registration>, z: World<Registration>)
    requires p.job.Write?
  {
    var candidate := p.job.candidate;
    && (report.Done? ==> report.registration == candidate && IsCurrent(x, candidate))
    && (report.Existing? ==>
          IsCurrent(x, report.registration) && report.registration.metadata == candidate.metadata && !p.created)
    && (report.PartialSuccess? ==>
          report.registration == candidate && (StoredAs(x.store, candidate) || StoredAs(y.store, candidate)))
    && (report == Failed(ConflictFailure) ==>
          || candidate.revision !in y.store.revisions
          || (exists r ::
              r != candidate && StoredAs(y.store, r) && r.revision == candidate.revision && IsCurrent(z, r)))
  }

  lemma ReportIsTruthful(p: Proc<Registration>, disposition: Disposition, x: World<Registration>, okX: bool,
                         y: World<Registration>, okY: bool, z: World<Registration>, okZ: bool)
    requires p.job.Write? && p.phase.Finished?
    requires StoreInv(RegistrationRules(), x) && StoreInv(RegistrationRules(), z)
    requires p.phase.outcome.Written? ==> StoredAs(x.store, p.job.candidate)
    requires p.phase.outcome.Conflict? ==> !p.created
    ensures Truthful(ReportAfter(p, disposition, x, okX, y, okY, z, okZ), p, x, y, z)
  {
    hide StoreInv, IsCurrent, ReadCurrent;
    FoundIsCurrent(x, okX);
    FoundIsCurrent(z, okZ);
  }

  /**
   Truthful outcomes. Process `pid` had ended by time `i`; the service then reads the
   store at times `a <= b <= c`, while anyone else keeps writing, processes crash, and
   any of its own reads may fail. Whatever happens, what is claimed of successes, partial
   successes and conflicts is true; plain write failures follow in `WriteFailureExactly`.
   */
  lemma ReportsAreTruthful(trace: seq<World<Registration>>, events: seq<Event<Registration>>, i: nat, pid: nat,
                           a: nat, b: nat, c: nat, okA: bool, okB: bool, okC: bool, disposition: Disposition)
    requires Run(RegistrationRules(), trace, events) && Initial(trace[0]) && i <= a <= b <= c < |trace|
    requires pid in trace[i].procs && trace[i].procs[pid].job.Write? && trace[i].procs[pid].phase.Finished?
    ensures Truthful(ReportAfter(trace[i].procs[pid], disposition, trace[a], okA, trace[b], okB, trace[c], okC),
                     trace[i].procs[pid], trace[a], trace[b], trace[c])
  {
    hide Report, Apply, Enabled, Truthful;
    var u := RegistrationRules();
    var p := trace[i].procs[pid];
    RegistrationRulesHold();
    InvariantOverRuns(u, trace, events, i);
    InvariantOverRuns(u, trace, events, a);
    InvariantOverRuns(u, trace, events, c);
    assert Facts(u, trace[i], p);
    if p.phase.outcome.Written? {
      SelectedStaysStored(u, trace, events, i, a, p.job.candidate);
    }
    ReportIsTruthful(p, disposition, trace[a], okA, trace[b], okB, trace[c], okC);
  }

  lemma FoundIsCurrent(w: World<Registration>, ok: bool)
    requires StoreInv(RegistrationRules(), w)
    ensures var r := ReadCurrent(w.store, ok); r.Found? ==> IsCurrent(w, r.registration)
  {
  }

  /** The selected registration: the last of the history, which is what a clean read finds. */
  ghost predicate IsCurrent(w: World<Registration>, r: Registration) {
    w.history != [] && w.history[|w.history| - 1] == r
  }

  predicate StoredAs(s: Store<Registration>, r: Registration) {
    r.revision in s.revisions && s.revisions[r.revision] == Complete(r)
  }

  lemma CurrentIsLast(w: World<Registration>)
    requires StoreInv(RegistrationRules(), w)
    ensures ReadCurrent(w.store, true) == (if w.history == [] then Absent else Found(w.history[|w.history| - 1]))
  {
  }

  /** The service was refused for a conflict and could not read what is current now. */
  predicate ConflictUnread(p: Proc<Registration>, okX: bool)
    requires p.phase.Finished?
  {
    p.phase.outcome.Conflict? && !okX
  }

  /**
   A plain write failure is reported in exactly two cases. After a failed write it is true:
   the candidate revision is not stored. After a conflict whose reconciling read met a
   fault it says nothing about the store, and is true only if the number happens to be free.
   */
  lemma WriteFailureExactly(trace: seq<World<Registration>>, events: seq<Event<Registration>>, i: nat, pid: nat,
                            a: nat, b: nat, c: nat, okA: bool, okB: bool, okC: bool, disposition: Disposition)
    requires Run(RegistrationRules(), trace, events) && Initial(trace[0]) && i <= a <= b <= c < |trace|
    requires pid in trace[i].procs && trace[i].procs[pid].job.Write? && trace[i].procs[pid].phase.Finished?
    ensures var p := trace[i].procs[pid];
            var failed := ReportAfter(p, disposition, trace[a], okA, trace[b], okB, trace[c], okC)
              == Failed(WriteFailure);
            var free := p.job.candidate.revision !in trace[b].store.revisions;
            && (failed <==> ConflictUnread(p, okA) || (p.phase.outcome.WriteError? && okB && free))
            && (failed && !ConflictUnread(p, okA) ==> free)
  {
  }

  /** A job as the services make it: the first revision, or the one after the expected. */
  predicate ServiceBuilt(job: Job<Registration>) {
    job.Write? ==> job.candidate.revision == if job.expected.None? then 1 else job.expected.value + 1
  }

  ghost predicate Consecutive(w: World<Registration>) {
    && (forall pid :: pid in w.procs ==> ServiceBuilt(w.procs[pid].job))
    && (forall k :: 0 <= k < |w.history| ==> w.history[k].revision == k + 1)
  }

  lemma StaysConsecutive(w: World<Registration>, e: Event<Registration>)
    requires Inv(RegistrationRules(), w) && Enabled(w, e) && Consecutive(w) && (e.Begin? ==> ServiceBuilt(e.job))
    ensures Consecutive(Apply(RegistrationRules(), w, e))
  {
    hide Inv, Facts, Verdict;
    var u := RegistrationRules();
    var w' := Apply(u, w, e);
    if w'.history != w.history {
      RegistrationRulesHold();
      PointerMovesByExpectation(u, w, e);
      PointerIsLast(w);
      assert ServiceBuilt(w.procs[e.pid].job);
    }
  }

  lemma PointerIsLast(w: World<Registration>)
    requires Inv(RegistrationRules(), w)
    ensures w.store.pointer == if w.history == [] then None else Some(w.history[|w.history| - 1].revision)
  {
  }

  lemma {:induction false} AlwaysConsecutive(trace: seq<World<Registration>>, events: seq<Event<Registration>>, n: nat)
    requires Run(RegistrationRules(), trace, events) && Initial(trace[0]) && n < |trace|
    requires forall e :: e in events && e.Begin? ==> ServiceBuilt(e.job)
    ensures Consecutive(trace[n])
  {
    hide Apply, Enabled, Inv, ServiceBuilt;
    if n > 0 {
      AlwaysConsecutive(trace, events, n - 1);
      RegistrationRulesHold();
      InvariantOverRuns(RegistrationRules(), trace, events, n - 1);
      assert events[n - 1] in events;
      StaysConsecutive(trace[n - 1], events[n - 1]);
    }
  }

  /**
   Among services, the write failure reported after an unread conflict is untrue whenever the
   pointer has moved past the revision the update expected: the number it tried is taken.
   */
  lemma UnreadConflictIsTaken(trace: seq<World<Registration>>, events: seq<Event<Registration>>, i: nat, pid: nat,
                              a: nat, b: nat, c: nat, okB: bool, okC: bool, disposition: Disposition)
    requires Run(RegistrationRules(), trace, events) && Initial(trace[0]) && i <= a <= b <= c < |trace|
    requires forall e :: e in events && e.Begin? ==> ServiceBuilt(e.job)
    requires pid in trace[i].procs && trace[i].procs[pid].job.Write? && trace[i].procs[pid].phase.Finished?
    requires ConflictUnread(trace[i].procs[pid], false) && trace[i].procs[pid].job.expected.Some?
    requires trace[i].procs[pid].job.expected.value >= 0
    requires trace[b].store.pointer.Some? && trace[b].store.pointer.value > trace[i].procs[pid].job.expected.value
    ensures var p := trace[i].procs[pid];
            && ReportAfter(p, disposition, trace[a], false, trace[b], okB, trace[c], okC) == Failed(WriteFailure)
            && Loads(RegistrationRules(), trace[b].store, p.job.candidate.revision)
  {
    hide Inv, Apply, Enabled, WriteState;
    var k := trace[i].procs[pid].job.expected.value;
    AlwaysConsecutive(trace, events, i);
    AlwaysConsecutive(trace, events, b);
    RegistrationRulesHold();
    InvariantOverRuns(RegistrationRules(), trace, events, b);
    PointerIsLast(trace[b]);
    assert ServiceBuilt(trace[i].procs[pid].job);
    var r := trace[b].history[k];
    assert r in trace[b].history;
    SelectedStaysStored(RegistrationRules(), trace, events, b, b, r);
  }

  /** The candidate was seen selected, or the request's own metadata was. */
  ghost predicate Confirmed(p: Proc<Registration>, x: World<Registration>)
    requires p.job.Write? && p.phase.Finished?
  {
    match p.phase.outcome
    case Written => IsCurrent(x, p.job.candidate)
    case Conflict => exists r :: IsCurrent(x, r) && r.metadata == p.job.candidate.metadata
    case _ => false
  }

  /**
   The converse, over whole runs. With clean reads, and whichever of its errors the service
   catches, it reports partial success exactly when the candidate is stored and was not
   confirmed as current; it then says whether it is selected; and a candidate that is stored
   is never answered by a plain failure.
   */
  lemma PartialSuccessExactly(trace: seq<World<Registration>>, events: seq<Event<Registration>>, i: nat, pid: nat,
                              a: nat, b: nat, c: nat, disposition: Disposition)
    requires Run(RegistrationRules(), trace, events) && Initial(trace[0]) && i <= a <= b <= c < |trace|
    requires pid in trace[i].procs && trace[i].procs[pid].job.Write? && trace[i].procs[pid].phase.Finished?
    requires var o := trace[i].procs[pid].phase.outcome; o.Written? || o.Conflict? || o.IntegrityError? || o.WriteError?
    ensures var p := trace[i].procs[pid];
            var candidate := p.job.candidate;
            var report := ReportAfter(p, disposition, trace[a], true, trace[b], true, trace[c], true);
            && (report.PartialSuccess? <==> StoredAs(trace[b].store, candidate) && !Confirmed(p, trace[a]))
            && (report.PartialSuccess? ==>
                  report.currentSelected == Some(!p.phase.outcome.Written? && IsCurrent(trace[c], candidate)))
            && (StoredAs(trace[b].store, candidate) ==> !report.Failed?)
            && (report.Done? || report.Existing? <==> Confirmed(p, trace[a]))
  {
    hide Apply, Enabled;
    var u := RegistrationRules();
    var p := trace[i].procs[pid];
    RegistrationRulesHold();
    InvariantOverRuns(u, trace, events, i);
    InvariantOverRuns(u, trace, events, a);
    InvariantOverRuns(u, trace, events, c);
    assert Facts(u, trace[i], p);
    if p.phase.outcome.Written? { SelectedStaysStored(u, trace, events, i, b, p.job.candidate); }
    hide Facts, Run, Inv;
    CleanReports(p, disposition, trace[a], trace[b], trace[c]);
  }

  lemma CleanReports(p: Proc<Registration>, disposition: Disposition, x: World<Registration>, y: World<Registration>,
                     z: World<Registration>)
    requires p.job.Write? && p.phase.Finished?
    requires var o := p.phase.outcome; o.Written? || o.Conflict? || o.IntegrityError? || o.WriteError?
    requires StoreInv(RegistrationRules(), x) && StoreInv(RegistrationRules(), z)
    requires p.phase.outcome.Written? ==> StoredAs(y.store, p.job.candidate)
    ensures var report := ReportAfter(p, disposition, x, true, y, true, z, true);
            && (report.PartialSuccess? <==> StoredAs(y.store, p.job.candidate) && !Confirmed(p, x))
            && (report.PartialSuccess? ==>
                  report.currentSelected == Some(!p.phase.outcome.Written? && IsCurrent(z, p.job.candidate)))
            && (StoredAs(y.store, p.job.candidate) ==> !report.Failed?)
            && (report.Done? || report.Existing? <==> Confirmed(p, x))
  {
    hide StoreInv, ReadCurrent;
    CurrentIsLast(x);
    CurrentIsLast(z);
  }

  // ---------------------------------------------------------------------- clock

  /** The candidate an update builds from the current registration it has read, unless its time overflows. */
  function UpdateCandidate(current: Registration, request: Metadata, now: int): Option<Registration> {
    match UtcText.ServiceTime(now, Some(current.updatedAt))
    case None => None
    case Some(t) => Some(Registration(request, current.revision + 1, current.createdAt, t))
  }

  /**
   However the clock behaves, an update builds its candidate exactly when the clock's time and
   the registration's own can be written in UTC. The candidate then passes every check its
   writer repeats under the lock as long as the pointer still selects the expected revision:
   `Verdict` can only refuse it for an unreadable store or for a revision beyond the pointer.
   */
  lemma ClockNeverBlocksUpdate(trace: seq<World<Registration>>, events: seq<Event<Registration>>, i: nat, j: nat,
                               request: Metadata, now: int)
    requires Run(RegistrationRules(), trace, events) && Initial(trace[0]) && i <= j < |trace|
    requires trace[i].history != []
    requires trace[j].store.pointer == trace[i].store.pointer
    ensures var current := trace[i].history[|trace[i].history| - 1];
            var built := UpdateCandidate(current, request, now);
            && (built.Some? <==> UtcText.Representable(now) && UtcText.Representable(current.updatedAt))
            && (built.Some? && request.work == current.metadata.work ==>
                  (Verdict(RegistrationRules(), trace[j].store, built.value, Some(current.revision),
                           trace[j].store.pointer).None?
                   <==> && (forall n :: n in trace[j].store.revisions ==> Loads(RegistrationRules(), trace[j].store, n))
                        && (forall n :: n in trace[j].store.revisions ==> n <= current.revision)))
  {
    hide UtcText.Representable;
    var u := RegistrationRules();
    RegistrationRulesHold();
    InvariantOverRuns(u, trace, events, i);
    InvariantOverRuns(u, trace, events, j);
    HistoryOnlyGrows(u, trace, events, i, j);
    var h, t := trace[i].history, trace[j].history;
    assert t[|h| - 1] == h[|h| - 1];
    if |h| < |t| { HistoryRises(u, t, |h| - 1, |t| - 1); }
    assert h == t;
  }
}
