/** Whole registration requests, from the revision current when they read it to their answer. */
module RegistrationRequests {
  import opened Foundations
  import opened PublicationRecords
  import opened RevisionStore
  import opened RevisionHistory
  import opened RevisionDirectory
  import opened RegistrationServices
  import UtcText

  // ------------------------------------------------------------------- branches

  datatype Listing = Numbers(numbers: set<int>) | Unlistable | ListingFaulted

  /** Every revision file is loaded while the directory is listed. */
  function ListRevisions(s: Store<Registration>, ok: bool): Listing {
    if !ok then ListingFaulted
    else if exists n :: n in s.revisions && !Loads(RegistrationRules(), s, n) then Unlistable
    else Numbers(s.revisions.Keys)
  }

  /** What a service does after its reads: answer at once, or call the writer. */
  datatype Plan =
    | Answer(result: ServiceResult)
    | Attempt(candidate: Registration, expected: Option<int>, disposition: Disposition)

  /** Whatever kept a service from reading, in its own words. */
  function Unread(fault: bool): Plan {
    Answer(Failed(if fault then WriteFailure else IntegrityFailure))
  }

  /** `register_academic_work` up to its writer. */
  function PlanFirst(current: Reading, listing: Listing, request: Metadata, now: int): Plan {
    match current
    case Faulted => Unread(true)
    case Invalid => Unread(false)
    case Found(r) => Answer(if r.metadata == request then Existing(r) else Failed(ConflictFailure))
    case Absent =>
      match listing
      case ListingFaulted => Unread(true)
      case Unlistable => Unread(false)
      case Numbers(numbers) =>
        if numbers != {} then Answer(Failed(IntegrityFailure))
        else
          match UtcText.ServiceTime(now, None)
          case None => Answer(Overflowed)
          case Some(t) => Attempt(Registration(request, 1, t, t), None, Created)
  }

  /** `update_academic_work_registration` up to its writer. */
  function PlanUpdate(current: Reading, listing: Listing, request: Metadata, expected: int, now: int): Plan {
    match current
    case Faulted => Unread(true)
    case Invalid => Unread(false)
    case Absent => Answer(Failed(NotFoundError))
    case Found(r) =>
      var matches := r.metadata == request;
      if r.revision > expected then Answer(if matches then Existing(r) else Failed(ConflictFailure))
      else if r.revision < expected then Answer(Failed(ConflictFailure))
      else if matches then Answer(Existing(r))
      else
        match listing
        case ListingFaulted => Unread(true)
        case Unlistable => Unread(false)
        case Numbers(numbers) =>
          if r.revision + 1 in numbers then Answer(Failed(IntegrityFailure))
          else
            match UtcText.ServiceTime(now, Some(r.updatedAt))
            case None => Answer(Overflowed)
            case Some(_) => Attempt(UpdateCandidate(r, request, now).value, Some(r.revision), Updated)
  }

  // ---------------------------------------------------------- what requests ask

  /** The first revision, with the requested metadata and the clock's time. */
  ghost predicate FirstAsRequested(r: Registration, request: Metadata, now: int) {
    r.metadata == request && r.revision == 1 && r.createdAt == now && r.updatedAt == now
  }

  /** The next revision: the requested metadata, the same creation time, and the later of the two times. */
  ghost predicate UpdateAsRequested(r: Registration, current: Registration, request: Metadata, now: int) {
    && r.metadata == request && r.revision == current.revision + 1 && r.createdAt == current.createdAt
    && r.updatedAt == (if current.updatedAt > now then current.updatedAt else now)
  }

  /** What an update builds from the registration it has read, and when it can. */
  lemma BuildsAsRequested(current: Registration, request: Metadata, now: int)
    ensures var built := UpdateCandidate(current, request, now);
            && (built.Some? <==> UtcText.Representable(now) && UtcText.Representable(current.updatedAt))
            && (built.Some? ==> UpdateAsRequested(built.value, current, request, now))
  {
    hide UtcText.Representable;
  }

  ghost predicate AllComplete(s: Store<Registration>) {
    forall n :: n in s.revisions ==> s.revisions[n].Complete?
  }

  /**
   What the registering service does, over whole runs and with clean reads at `a <= b`: it
   answers with a registration selected at `a` or refuses for it, refuses for revisions nobody
   selected, and otherwise goes to its writer with what the request asks for, unless the clock's
   time cannot be written in UTC.
   */
  lemma RegistersExactly(trace: seq<World<Registration>>, events: seq<Event<Registration>>, a: nat, b: nat,
                         request: Metadata, now: int)
    requires Run(RegistrationRules(), trace, events) && Initial(trace[0]) && a <= b < |trace|
    ensures var plan := PlanFirst(ReadCurrent(trace[a].store, true), ListRevisions(trace[b].store, true), request, now);
            if trace[a].history != [] then
              var r := trace[a].history[|trace[a].history| - 1];
              plan == Answer(if r.metadata == request then Existing(r) else Failed(ConflictFailure))
            else if trace[b].store.revisions.Keys != {} then plan == Answer(Failed(IntegrityFailure))
            else if !UtcText.Representable(now) then plan == Answer(Overflowed)
            else
              && plan.Attempt? && FirstAsRequested(plan.candidate, request, now)
              && plan.expected.None? && plan.disposition == Created
  {
    hide Run, UtcText.Representable;
    RegistrationRulesHold();
    InvariantOverRuns(RegistrationRules(), trace, events, a);
    CurrentIsLast(trace[a]);
  }

  /**
   The same for an update that expects revision `expected`. It goes to its writer exactly when
   that revision is the selected one at `a`, the request changes something, every revision file
   at `b` is complete with the next number free, and both times can be written in UTC.
   */
  lemma UpdatesExactly(trace: seq<World<Registration>>, events: seq<Event<Registration>>, a: nat, b: nat,
                       request: Metadata, expected: int, now: int)
    requires Run(RegistrationRules(), trace, events) && Initial(trace[0]) && a <= b < |trace|
    ensures var plan := PlanUpdate(ReadCurrent(trace[a].store, true), ListRevisions(trace[b].store, true), request,
                                   expected, now);
            if trace[a].history == [] then plan == Answer(Failed(NotFoundError))
            else
              var r := trace[a].history[|trace[a].history| - 1];
              if r.metadata == request && r.revision >= expected then plan == Answer(Existing(r))
              else if r.revision != expected then plan == Answer(Failed(ConflictFailure))
              else if !AllComplete(trace[b].store) || r.revision + 1 in trace[b].store.revisions then
                plan == Answer(Failed(IntegrityFailure))
              else if !(UtcText.Representable(now) && UtcText.Representable(r.updatedAt)) then plan
                == Answer(Overflowed)
              else
                && plan.Attempt? && UpdateAsRequested(plan.candidate, r, request, now)
                && plan.expected == Some(expected) && plan.disposition == Updated
  {
    hide Run, UtcText.Representable;
    RegistrationRulesHold();
    InvariantOverRuns(RegistrationRules(), trace, events, a);
    InvariantOverRuns(RegistrationRules(), trace, events, b);
    CurrentIsLast(trace[a]);
    AllCompleteLoad(trace[b]);
  }

  lemma AllCompleteLoad(w: World<Registration>)
    requires StoreInv(RegistrationRules(), w)
    ensures AllComplete(w.store) <==> !exists n :: n in w.store.revisions && !Loads(RegistrationRules(), w.store, n)
  {
    assert AllComplete(w.store) <==>
      forall n :: n in w.store.revisions ==> Loads(RegistrationRules(), w.store, n);
  }

  /**
   What `Done` means, over whole runs. The service planned at `a` and `b`, its writer `pid` had
   ended by `i`, and it read the store again at `x`: the registration it answers is selected then,
   carries the requested metadata, and continues what was selected at `a`.
   */
  lemma DoneIsAsRequested(trace: seq<World<Registration>>, events: seq<Event<Registration>>, a: nat, b: nat, i: nat,
                          x: nat, y: nat, z: nat, pid: nat, request: Metadata, update: Option<int>, now: int,
                          okX: bool, okY: bool, okZ: bool)
    requires Run(RegistrationRules(), trace, events) && Initial(trace[0]) && a <= b <= i <= x <= y <= z < |trace|
    requires pid in trace[i].procs && trace[i].procs[pid].phase.Finished?
    requires var current := ReadCurrent(trace[a].store, true);
             var listing := ListRevisions(trace[b].store, true);
             var plan := if update.Some? then PlanUpdate(current, listing, request, update.value, now)
                         else PlanFirst(current, listing, request, now);
             plan.Attempt? && trace[i].procs[pid].job == Write(plan.candidate, plan.expected)
    ensures forall disposition ::
              var report := ReportAfter(trace[i].procs[pid], disposition, trace[x], okX, trace[y], okY, trace[z], okZ);
              report.Done? ==>
                && report.disposition == disposition && trace[x].history != []
                && report.registration == trace[x].history[|trace[x].history| - 1]
                && (if update.None? then
                      trace[a].history == [] && FirstAsRequested(report.registration, request, now)
                    else
                      && trace[a].history != []
                      && var current := trace[a].history[|trace[a].history| - 1];
                        current.revision == update.value && current.metadata != request
                        && UpdateAsRequested(report.registration, current, request, now))
  {
    hide Run, ReadCurrent, ListRevisions, PlanFirst, PlanUpdate, UtcText.Representable, FirstAsRequested,
         UpdateAsRequested;
    if update.Some? { UpdatesExactly(trace, events, a, b, request, update.value, now); }
    else { RegistersExactly(trace, events, a, b, request, now); }
    forall disposition
      ensures Truthful(ReportAfter(trace[i].procs[pid], disposition, trace[x], okX, trace[y], okY, trace[z], okZ),
                       trace[i].procs[pid], trace[x], trace[y], trace[z])
    {
      ReportsAreTruthful(trace, events, i, pid, x, y, z, okX, okY, okZ, disposition);
    }
  }

  /** How a registration evolves: the work and its creation stay, times never go back, revisions rise. */
  lemma SelectedEvolves(trace: seq<World<Registration>>, events: seq<Event<Registration>>, n: nat, i: nat, j: nat)
    requires Run(RegistrationRules(), trace, events) && Initial(trace[0]) && n < |trace|
    requires i < j < |trace[n].history|
    ensures var a, b := trace[n].history[i], trace[n].history[j];
            && a.metadata.work == b.metadata.work && a.createdAt == b.createdAt
            && a.updatedAt <= b.updatedAt && a.revision < b.revision
  {
    hide Run;
    RegistrationRulesHold();
    InvariantOverRuns(RegistrationRules(), trace, events, n);
    AnyTwoSelected(RegistrationRules(), trace[n].history, i, j);
  }

  // -------------------------------------------------------------- whole requests

  /** Which of a request's own reads meet no fault: before its writer, and after it. */
  datatype OwnReads = OwnReads(current: bool, listing: bool, reconciled: bool, revision: bool, last: bool)

  const NO_FAULTS := OwnReads(true, true, true, true, true)

  /** Every stored registration is of the work whose directory this is. */
  ghost predicate OfWork(s: Store<Registration>, work: ModuleWorkRef) {
    forall n :: n in s.revisions && s.revisions[n].Complete? ==> s.revisions[n].value.metadata.work == work
  }

  /** The selected revision can be read. */
  ghost predicate CurrentReads(s: Store<Registration>) {
    && s.pointer.Some? && s.pointer.value in s.revisions && s.revisions[s.pointer.value].Complete?
    && s.revisions[s.pointer.value].value.revision == s.pointer.value
  }

  ghost predicate EveryRevisionReads(s: Store<Registration>) {
    forall n :: n in s.revisions ==> s.revisions[n].Complete? && s.revisions[n].value.revision == n
  }

  /** A fault of a read a request needs before its writer is a write failure; other reads make no difference. */
  lemma FaultsBeforeTheWriter(s: Store<Registration>, okS: bool, t: Store<Registration>, okT: bool, request: Metadata,
                              expected: int, now: int)
    ensures PlanFirst(ReadCurrent(s, okS), ListRevisions(t, okT), request, now) ==
            if !okS || (s.pointer.None? && !okT) then Answer(Failed(WriteFailure))
            else PlanFirst(ReadCurrent(s, true), ListRevisions(t, true), request, now)
    ensures var lists :=
              CurrentReads(s) && s.pointer == Some(expected) && s.revisions[expected].value.metadata != request;
            PlanUpdate(ReadCurrent(s, okS), ListRevisions(t, okT), request, expected, now) ==
              if !okS || (lists && !okT) then Answer(Failed(WriteFailure))
              else PlanUpdate(ReadCurrent(s, true), ListRevisions(t, true), request, expected, now)
  {
    hide UtcText.Representable;
  }

  /** A fault, or a pointer to something that is no registration of its number. */
  ghost predicate CurrentUnread(s: Store<Registration>, ok: bool) { !ok || (s.pointer.Some? && !CurrentReads(s)) }

  ghost predicate CurrentIs(s: Store<Registration>, r: Registration) {
    CurrentReads(s) && s.revisions[s.pointer.value].value == r
  }

  /** What is said of the revision the writer tried, as found in `y`, and of what is selected in `z`. */
  ghost function StateAnswer(candidate: Registration, y: Store<Registration>, okY: bool, z: Store<Registration>,
                             okZ: bool, fallback: ServiceError): ServiceResult
  {
    var n := candidate.revision;
    if !okY then Failed(IntegrityFailure)
    else if n !in y.revisions then Failed(fallback)
    else if y.revisions[n].Partial? || y.revisions[n].value.revision != n then Failed(IntegrityFailure)
    else if y.revisions[n].value == candidate then
      PartialSuccess(candidate, if CurrentUnread(z, okZ) then None else Some(CurrentIs(z, candidate)))
    else Failed(if okZ && CurrentIs(z, y.revisions[n].value) then ConflictFailure else IntegrityFailure)
  }

  /** Every branch after the writer, for any stores and any faults of the three reads. */
  lemma ReportsInFull(outcome: Outcome<Registration>, candidate: Registration, disposition: Disposition,
                      x: Store<Registration>, okX: bool, y: Store<Registration>, okY: bool, z: Store<Registration>,
                      okZ: bool)
    ensures Report(outcome, candidate, disposition, ReadCurrent(x, okX), ReadRevision(y, candidate.revision, okY),
                   ReadCurrent(z, okZ)) ==
      match outcome
      case Written =>
        if CurrentUnread(x, okX) then PartialSuccess(candidate, None)
        else if CurrentIs(x, candidate) then Done(candidate, disposition)
        else PartialSuccess(candidate, Some(false))
      case Conflict =>
        if !okX then Failed(WriteFailure)
        else if CurrentUnread(x, okX) then Failed(IntegrityFailure)
        else if x.pointer.Some? && x.revisions[x.pointer.value].value.metadata == candidate.metadata then
          Existing(x.revisions[x.pointer.value].value)
        else StateAnswer(candidate, y, okY, z, okZ, ConflictFailure)
      case IntegrityError => StateAnswer(candidate, y, okY, z, okZ, IntegrityFailure)
      case WriteError => StateAnswer(candidate, y, okY, z, okZ, WriteFailure)
      case _ => Propagated
  {
  }

  /** The answer to a fault-free first registration with nobody else at work, said of the stored files alone. */
  ghost predicate FirstAnswer(before: Store<Registration>, locked: bool, rooted: bool, request: Metadata, now: int,
                              result: ServiceResult, after: Store<Registration>)
  {
    if before.pointer.Some? then
      && after == before
      && result == (if !CurrentReads(before) then Failed(IntegrityFailure)
                    else
                      var r := before.revisions[before.pointer.value].value;
                      if r.metadata == request then Existing(r) else Failed(ConflictFailure))
    else if before.revisions.Keys != {} then result == Failed(IntegrityFailure) && after == before
    else if !UtcText.Representable(now) then result == Overflowed && after == before
    else if !rooted then result == Failed(WriteFailure) && after == before
    else if locked then result == Failed(ConflictFailure) && after == before
    else
      && result.Done? && result.disposition == Created && FirstAsRequested(result.registration, request, now)
      && after == Store(map[1 := Complete(result.registration)], Some(1))
  }

  /** The answer to a fault-free update. */
  ghost predicate UpdateAnswer(before: Store<Registration>, locked: bool, request: Metadata, expected: int, now: int,
                               result: ServiceResult, after: Store<Registration>)
  {
    if before.pointer.None? then result == Failed(NotFoundError) && after == before
    else if !CurrentReads(before) then result == Failed(IntegrityFailure) && after == before
    else
      var r := before.revisions[before.pointer.value].value;
      if r.metadata == request && r.revision >= expected then result == Existing(r) && after == before
      else if r.revision != expected then result == Failed(ConflictFailure) && after == before
      else if !EveryRevisionReads(before) || expected + 1 in before.revisions then
        result == Failed(IntegrityFailure) && after == before
      else if !(UtcText.Representable(now) && UtcText.Representable(r.updatedAt)) then
        result == Overflowed && after == before
      else if locked then result == Failed(ConflictFailure) && after == before
      else if exists n :: n in before.revisions && n > expected then
        result == Failed(IntegrityFailure) && after == before
      else
        && result.Done? && result.disposition == Updated && UpdateAsRequested(result.registration, r, request, now)
        && after == Store(before.revisions[expected + 1 := Complete(result.registration)], Some(expected + 1))
  }

  /** `_write_registration_candidate`. */
  method WriteCandidate(dir: Directory<Registration>, candidate: Registration, expected: Option<int>,
                        disposition: Disposition, own: OwnReads, pid: nat, io: nat -> Choice)
    returns (result: ServiceResult, ghost outcome: Outcome<Registration>)
    requires dir.rules == RegistrationRules()
    modifies dir
    ensures var s := Store(dir.revisions, dir.pointer);
            result == Report(outcome, candidate, disposition, ReadCurrent(s, own.reconciled),
                             ReadRevision(s, candidate.revision, own.revision), ReadCurrent(s, own.last))
    ensures (forall k :: io(k).ok) ==>
              WriteAnswer(RegistrationRules(), old(Store(dir.revisions, dir.pointer)), old(dir.lock).Some?,
                          old(dir.rooted), candidate, expected, outcome, Store(dir.revisions, dir.pointer))
    ensures result.Done? ==>
              && result.registration == candidate && result.disposition == disposition
              && dir.revisions == old(dir.revisions)[candidate.revision := Complete(candidate)]
              && dir.pointer == Some(candidate.revision)
  {
    hide WriteAnswer, Report, ReadCurrent, ReadRevision;
    var o, _, _ := dir.Write(candidate, expected, pid, io);
    outcome := o;
    var s := Store(dir.revisions, dir.pointer);
    result := Report(o, candidate, disposition, ReadCurrent(s, own.reconciled),
                     ReadRevision(s, candidate.revision, own.revision), ReadCurrent(s, own.last));
    OnlyWrittenIsDone(o, candidate, disposition, ReadCurrent(s, own.reconciled),
                      ReadRevision(s, candidate.revision, own.revision), ReadCurrent(s, own.last));
  }

  lemma OnlyWrittenIsDone(outcome: Outcome<Registration>, candidate: Registration, disposition: Disposition,
                          reconciled: Reading, revision: Reading, current: Reading)
    ensures var result := Report(outcome, candidate, disposition, reconciled, revision, current);
            result.Done? ==> outcome.Written? && result == Done(candidate, disposition)
    ensures RegistrationRules().rev(candidate) == candidate.revision
  {
  }

  /**
   `register_academic_work`. Alone and without faults it answers exactly as the stored files call
   for. Whatever fails, a registration it reports done is as requested and selected.
   */
  method RegisterAcademicWork(dir: Directory<Registration>, request: Metadata, now: int, own: OwnReads, pid: nat,
                              io: nat -> Choice)
    returns (result: ServiceResult)
    requires dir.rules == RegistrationRules()
    modifies dir
    ensures own == NO_FAULTS && (forall k :: io(k).ok) ==>
              FirstAnswer(old(Store(dir.revisions, dir.pointer)), old(dir.lock).Some?, old(dir.rooted), request, now,
                          result, Store(dir.revisions, dir.pointer))
    ensures result.Done? ==>
              && FirstAsRequested(result.registration, request, now)
              && dir.revisions == old(dir.revisions)[1 := Complete(result.registration)] && dir.pointer == Some(1)
  {
    hide UtcText.Representable, WriteAnswer, Report, FirstAnswer;
    var s := Store(dir.revisions, dir.pointer);
    var plan := PlanFirst(ReadCurrent(s, own.current), ListRevisions(s, own.listing), request, now);
    PlansFirst(s, dir.lock.Some?, dir.rooted, request, now);
    if plan.Answer? { return plan.result; }
    assert FirstAsRequested(plan.candidate, request, now);
    ghost var outcome;
    ghost var locked, rooted := dir.lock.Some?, dir.rooted;
    result, outcome := WriteCandidate(dir, plan.candidate, plan.expected, plan.disposition, own, pid, io);
    if own == NO_FAULTS && (forall k :: io(k).ok) {
      FirstReported(s, locked, rooted, request, now, plan.candidate, outcome, result,
                    Store(dir.revisions, dir.pointer));
    }
  }

  lemma PlansFirst(s: Store<Registration>, locked: bool, rooted: bool, request: Metadata, now: int)
    ensures var plan := PlanFirst(ReadCurrent(s, true), ListRevisions(s, true), request, now);
            match plan
            case Answer(result) => FirstAnswer(s, locked, rooted, request, now, result, s)
            case Attempt(candidate, expected, disposition) =>
              && s == Store(map[], None) && UtcText.Representable(now) && FirstAsRequested(candidate, request, now)
              && expected.None? && disposition == Created
  {
    hide UtcText.Representable;
    if s.pointer.None? && s.revisions.Keys == {} { assert s.revisions == map[]; }
  }

  lemma FirstReported(before: Store<Registration>, locked: bool, rooted: bool, request: Metadata, now: int,
                      candidate: Registration, outcome: Outcome<Registration>, result: ServiceResult,
                      after: Store<Registration>)
    requires before == Store(map[], None) && UtcText.Representable(now) && FirstAsRequested(candidate, request, now)
    requires WriteAnswer(RegistrationRules(), before, locked, rooted, candidate, None, outcome, after)
    requires result == Report(outcome, candidate, Created, ReadCurrent(after, true),
                              ReadRevision(after, candidate.revision, true), ReadCurrent(after, true))
    ensures FirstAnswer(before, locked, rooted, request, now, result, after)
  {
    hide UtcText.Representable;
  }

  /**
   `update_academic_work_registration`. Alone and without faults it answers exactly as the stored
   files call for. Whatever fails, a registration it reports done is as requested and selected.
   */
  method UpdateRegistration(dir: Directory<Registration>, request: Metadata, expected: int, now: int, own: OwnReads,
                            pid: nat, io: nat -> Choice)
    returns (result: ServiceResult)
    requires dir.rules == RegistrationRules()
    requires OfWork(Store(dir.revisions, dir.pointer), request.work)
    modifies dir
    ensures own == NO_FAULTS && (forall k :: io(k).ok) ==>
              UpdateAnswer(old(Store(dir.revisions, dir.pointer)), old(dir.lock).Some?, request, expected, now, result,
                           Store(dir.revisions, dir.pointer))
    ensures result.Done? ==>
              && old(dir.pointer) == Some(expected) && CurrentReads(old(Store(dir.revisions, dir.pointer)))
              && UpdateAsRequested(result.registration, old(dir.revisions)[expected].value, request, now)
              && dir.revisions == old(dir.revisions)[expected + 1 := Complete(result.registration)]
              && dir.pointer == Some(expected + 1)
  {
    hide UtcText.Representable, WriteAnswer, Report, UpdateAnswer;
    var s := Store(dir.revisions, dir.pointer);
    var plan := PlanUpdate(ReadCurrent(s, own.current), ListRevisions(s, own.listing), request, expected, now);
    PlansUpdate(s, dir.lock.Some?, request, expected, now);
    if plan.Answer? { return plan.result; }
    ghost var current := s.revisions[expected].value;
    assert UpdateAsRequested(plan.candidate, current, request, now);
    ghost var outcome;
    ghost var locked, rooted := dir.lock.Some?, dir.rooted;
    result, outcome := WriteCandidate(dir, plan.candidate, plan.expected, plan.disposition, own, pid, io);
    if own == NO_FAULTS && (forall k :: io(k).ok) {
      UpdateReported(s, locked, rooted, request, expected, now, plan.candidate, outcome, result,
                     Store(dir.revisions, dir.pointer));
    }
  }

  /** An update that reaches its writer. */
  ghost predicate Changes(s: Store<Registration>, request: Metadata, expected: int, now: int) {
    && CurrentReads(s) && s.pointer == Some(expected) && EveryRevisionReads(s) && expected + 1 !in s.revisions
    && s.revisions[expected].value.metadata != request
    && UtcText.Representable(now) && UtcText.Representable(s.revisions[expected].value.updatedAt)
  }

  lemma PlansUpdate(s: Store<Registration>, locked: bool, request: Metadata, expected: int, now: int)
    ensures var plan := PlanUpdate(ReadCurrent(s, true), ListRevisions(s, true), request, expected, now);
            match plan
            case Answer(result) => UpdateAnswer(s, locked, request, expected, now, result, s)
            case Attempt(candidate, replaced, disposition) =>
              && Changes(s, request, expected, now)
              && UpdateAsRequested(candidate, s.revisions[expected].value, request, now)
              && replaced == Some(expected) && disposition == Updated
  {
    hide UtcText.Representable;
    assert EveryRevisionReads(s) <==> !exists n :: n in s.revisions && !Loads(RegistrationRules(), s, n);
  }

  lemma UpdateReported(before: Store<Registration>, locked: bool, rooted: bool, request: Metadata, expected: int,
                       now: int, candidate: Registration, outcome: Outcome<Registration>, result: ServiceResult,
                       after: Store<Registration>)
    requires Changes(before, request, expected, now) && OfWork(before, request.work)
    requires UpdateAsRequested(candidate, before.revisions[expected].value, request, now)
    requires WriteAnswer(RegistrationRules(), before, locked, rooted, candidate, Some(expected), outcome, after)
    requires result == Report(outcome, candidate, Updated, ReadCurrent(after, true),
                              ReadRevision(after, candidate.revision, true), ReadCurrent(after, true))
    ensures UpdateAnswer(before, locked, request, expected, now, result, after)
  {
    hide UtcText.Representable;
  }
}
