/**
 A conflict whose reconciling read meets an I/O fault: from the empty store a run exists
 after which the service answers a plain write failure although the very registration it
 tried to write is stored and selected.
 */
module RegistrationConflicts {
  import opened Foundations
  import opened RevisionStore
  import opened RegistrationServices
  import UtcText

  ghost predicate Reaches<T(!new)>(u: Rules<T>, w: World<T>, v: World<T>) {
    exists trace, events :: Run(u, trace, events) && trace[0] == w && trace[|events|] == v
  }

  lemma Here<T(!new)>(u: Rules<T>, w: World<T>)
    ensures Reaches(u, w, w)
  {
    var none: seq<Event<T>> := [];
    assert Run(u, [w], none);
  }

  lemma Extend<T(!new)>(u: Rules<T>, w: World<T>, v: World<T>, e: Event<T>)
    requires Reaches(u, w, v) && Enabled(v, e)
    ensures Reaches(u, w, Apply(u, v, e))
  {
    hide Enabled, Apply;
    var trace, events :| Run(u, trace, events) && trace[0] == w && trace[|events|] == v;
    var trace', events' := trace + [Apply(u, v, e)], events + [e];
    forall i | 0 <= i < |events'|
      ensures Enabled(trace'[i], events'[i]) && trace'[i + 1] == Apply(u, trace'[i], events'[i])
    {
      if i < |events| { assert trace'[i] == trace[i] && trace'[i + 1] == trace[i + 1] && events'[i] == events[i]; }
    }
    assert Run(u, trace', events');
  }

  const GOOD_IO := Choice(true, Removed)

  /** One step of `pid` with perfect I/O, leaving everything else as given. */
  lemma Moves<T(!new)>(u: Rules<T>, w: World<T>, v: World<T>, pid: nat, p: Proc<T>, p': Proc<T>,
                 store: Store<T>, lock: Option<nat>, history: seq<T>)
    requires Reaches(u, w, v.(procs := v.procs[pid := p])) && Live(p)
    requires var x := v.(procs := v.procs[pid := p]);
             ApplyMove(u, x, pid, NextMove(u, x, p, GOOD_IO))
             == World(store, lock, v.procs[pid := p][pid := p'], history)
    ensures Reaches(u, w, World(store, lock, v.procs[pid := p'], history))
  {
    hide Reaches, NextMove, ApplyMove;
    Extend(u, w, v.(procs := v.procs[pid := p]), Act(pid, GOOD_IO));
    assert v.procs[pid := p][pid := p'] == v.procs[pid := p'];
  }

  function At<T>(v: World<T>, pid: nat, job: Job<T>, phase: Phase<T>): World<T> {
    v.(procs := v.procs[pid := Proc(job, phase, false)])
  }

  /** A new writer takes the free lock and reads the pointer. */
  lemma ReadsPointer<T(!new)>(u: Rules<T>, w: World<T>, v: World<T>, pid: nat, job: Job<T>)
    requires Reaches(u, w, v) && v.lock.None? && pid !in v.procs && job.Write?
    requires job.expected.None? ==> u.rev(job.candidate) == 1
    ensures Reaches(u, w, At(v, pid, job, Pointed(v.store.pointer)).(lock := Some(pid)))
  {
    hide Reaches, Verdict;
    Extend(u, w, v, Begin(pid, job));
    var v' := v.(lock := Some(pid));
    var p := Proc(job, Waiting, false);
    Moves(u, w, v, pid, p, p.(phase := Prepared), v.store, None, v.history);
    Moves(u, w, v, pid, p.(phase := Prepared), p.(phase := Locked), v.store, Some(pid), v.history);
    Moves(u, w, v', pid, p.(phase := Locked), p.(phase := Pointed(v.store.pointer)), v.store, Some(pid), v.history);
  }

  lemma ReadsPointerThenRefused<T(!new)>(u: Rules<T>, w: World<T>, v: World<T>, pid: nat, job: Job<T>, o: Outcome<T>)
    requires Reaches(u, w, v) && v.lock.None? && pid !in v.procs && job.Write?
    requires job.expected.None? ==> u.rev(job.candidate) == 1
    requires Verdict(u, v.store, job.candidate, job.expected, v.store.pointer) == Some(o)
    ensures Reaches(u, w, At(v, pid, job, Finished(o)))
  {
    hide Reaches, Verdict;
    ReadsPointer(u, w, v, pid, job);
    var v' := v.(lock := Some(pid));
    var p := Proc(job, Pointed(v.store.pointer), false);
    Moves(u, w, v', pid, p, p.(phase := Releasing(o)), v.store, Some(pid), v.history);
    Moves(u, w, v', pid, p.(phase := Releasing(o)), p.(phase := Finished(o)), v.store, None, v.history);
  }

  /** The world once `pid` has selected its candidate. */
  function Selects<T(!new)>(u: Rules<T>, v: World<T>, pid: nat, job: Job<T>): World<T>
    requires job.Write?
  {
    var n := u.rev(job.candidate);
    World(Store(v.store.revisions[n := Complete(job.candidate)], Some(n)), None,
          v.procs[pid := Proc(job, Finished(Written), true)], v.history + [job.candidate])
  }

  lemma FillsRevision<T(!new)>(u: Rules<T>, w: World<T>, v: World<T>, pid: nat, job: Job<T>)
    requires Reaches(u, w, v) && v.lock.None? && pid !in v.procs && job.Write?
    requires job.expected.None? ==> u.rev(job.candidate) == 1
    requires u.rev(job.candidate) !in v.store.revisions
    requires Verdict(u, v.store, job.candidate, job.expected, v.store.pointer).None?
    ensures var n := u.rev(job.candidate);
            Reaches(u, w, World(v.store.(revisions := v.store.revisions[n := Complete(job.candidate)]), Some(pid),
                                v.procs[pid := Proc(job, Verifying, true)], v.history))
  {
    hide Reaches, Verdict;
    ReadsPointer(u, w, v, pid, job);
    var n := u.rev(job.candidate);
    var v' := v.(lock := Some(pid));
    var half := v.store.(revisions := v.store.revisions[n := Partial]);
    var full := v.store.(revisions := v.store.revisions[n := Complete(job.candidate)]);
    var p := Proc(job, Pointed(v.store.pointer), false);
    Moves(u, w, v', pid, p, p.(phase := Ready), v.store, Some(pid), v.history);
    Moves(u, w, v', pid, p.(phase := Ready), Proc(job, Filling, true), half, Some(pid), v.history);
    assert half.revisions[n := Complete(job.candidate)] == full.revisions;
    Moves(u, w, v'.(store := half), pid, Proc(job, Filling, true), Proc(job, Verifying, true), full, Some(pid),
          v.history);
  }

  lemma SelectsRevision<T(!new)>(u: Rules<T>, w: World<T>, v: World<T>, pid: nat, job: Job<T>)
    requires Reaches(u, w, v) && v.lock.None? && pid !in v.procs && job.Write?
    requires job.expected.None? ==> u.rev(job.candidate) == 1
    requires u.rev(job.candidate) !in v.store.revisions
    requires Verdict(u, v.store, job.candidate, job.expected, v.store.pointer).None?
    ensures Reaches(u, w, Selects(u, v, pid, job))
  {
    hide Reaches, Verdict;
    FillsRevision(u, w, v, pid, job);
    var n := u.rev(job.candidate);
    var full := v.store.(revisions := v.store.revisions[n := Complete(job.candidate)]);
    var done := Store(full.revisions, Some(n));
    var h := v.history + [job.candidate];
    var v' := World(full, Some(pid), v.procs, v.history);
    var p := Proc(job, Verifying, true);
    Moves(u, w, v', pid, p, p.(phase := Publishing), full, Some(pid), v.history);
    Moves(u, w, v', pid, p.(phase := Publishing), p.(phase := Confirming), done, Some(pid), h);
    Moves(u, w, World(done, Some(pid), v.procs, h), pid, p.(phase := Confirming), p.(phase := Releasing(Written)), done,
          Some(pid), h);
    Moves(u, w, World(done, Some(pid), v.procs, h), pid, p.(phase := Releasing(Written)),
          p.(phase := Finished(Written)), done, None, h);
  }

  const EMPTY: World<Registration> := World(Store(map[], None), None, map[], [])

  /** The world in which process 1 has registered `first`, and nothing else has happened. */
  function Registered(first: Registration): World<Registration> {
    Selects(RegistrationRules(), EMPTY, 1, Write(first, None))
  }

  /**
   Two services read `first` and are asked for the same change; their clocks, `now` and
   `now'`, are both behind the registration's own timestamp. Both build the same revision 2.
   Process 2 stores and selects it; process 3, which is ours, is refused for a conflict. If
   the reconciling read then meets a fault, the service reports a plain write failure: its
   candidate is stored, is current, and a clean read would have answered with it.
   */
  lemma ConflictReadFaultHidesTheRevision(first: Registration, request: Metadata, now: int, now': int,
                                          disposition: Disposition, okY: bool, okZ: bool)
    requires first.revision == 1 && request.work == first.metadata.work
    requires now <= first.updatedAt && now' <= first.updatedAt
    requires UtcText.Representable(now) && UtcText.Representable(now') && UtcText.Representable(first.updatedAt)
    ensures Initial(EMPTY) && Reaches(RegistrationRules(), EMPTY, Registered(first))
            && IsCurrent(Registered(first), first)
    ensures exists v ::
      && Reaches(RegistrationRules(), Registered(first), v)
      && 3 in v.procs && v.procs[3].phase == Finished(Conflict) && v.procs[3].job.Write?
      && Some(v.procs[3].job.candidate) == UpdateCandidate(first, request, now') && v.procs[3].job.expected == Some(1)
      && 2 in v.procs && v.procs[2].job.Write?
      && Some(v.procs[2].job.candidate) == UpdateCandidate(first, request, now) && v.procs[2].job.expected == Some(1)
      && StoredAs(v.store, v.procs[3].job.candidate) && IsCurrent(v, v.procs[3].job.candidate)
      && ReportAfter(v.procs[3], disposition, v, false, v, okY, v, okZ) == Failed(WriteFailure)
      && ReportAfter(v.procs[3], disposition, v, true, v, okY, v, okZ) == Existing(v.procs[3].job.candidate)
  {
    hide Reaches;
    var u := RegistrationRules();
    hide UtcText.Representable;
    var second := UpdateCandidate(first, request, now).value;
    Here(u, EMPTY);
    SelectsRevision(u, EMPTY, EMPTY, 1, Write(first, None));
    var x := Registered(first);
    Here(u, x);
    assert Verdict(u, x.store, second, Some(1), x.store.pointer).None?;
    var job := Write(second, Some(1));
    SelectsRevision(u, x, x, 2, job);
    var y := Selects(u, x, 2, job);
    assert Verdict(u, y.store, second, Some(1), y.store.pointer) == Some(Conflict);
    ReadsPointerThenRefused(u, x, y, 3, job, Conflict);
    var v := At(y, 3, job, Finished(Conflict));
    assert v.history[|v.history| - 1] == second;
    assert ReadCurrent(v.store, true) == Found(second);
  }

  /**
   A registration may be stored whose own timestamp cannot be written in UTC: nothing that writes
   it or reads it back asks for that. From then on no update of it can be built, whatever is
   requested and whatever the clock says.
   */
  lemma EarlyRegistrationIsStuck(first: Registration)
    requires first.revision == 1 && !UtcText.Representable(first.updatedAt)
    ensures Initial(EMPTY) && Reaches(RegistrationRules(), EMPTY, Registered(first))
            && IsCurrent(Registered(first), first)
    ensures ReadCurrent(Registered(first).store, true) == Found(first)
    ensures forall request, now :: UpdateCandidate(first, request, now).None?
  {
    hide Reaches, UtcText.Representable;
    var u := RegistrationRules();
    Here(u, EMPTY);
    SelectsRevision(u, EMPTY, EMPTY, 1, Write(first, None));
  }
}
