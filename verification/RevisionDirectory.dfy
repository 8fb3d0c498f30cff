/**
 The revision writer as the sequential method it is: run by one process while the others
 stand still, it is one run of the step machine and so keeps the store's invariant.
 */
module RevisionDirectory {
  import opened Foundations
  import opened RevisionStore

  ghost function Alone<T>(u: Rules<T>, w: World<T>, pid: nat, io: nat -> Choice, n: nat): World<T> {
    if n == 0 then w
    else
      var v := Alone(u, w, pid, io, n - 1);
      if pid in v.procs && Live(v.procs[pid]) then Apply(u, v, Act(pid, io(n - 1))) else v
  }

  lemma {:induction false} AloneKeepsInv<T(!new)>(u: Rules<T>, w: World<T>, pid: nat, io: nat -> Choice, n: nat)
    requires Raising(u) && Inv(u, w)
    ensures Inv(u, Alone(u, w, pid, io, n))
  {
    hide Inv, Apply;
    if n > 0 {
      AloneKeepsInv(u, w, pid, io, n - 1);
      var v := Alone(u, w, pid, io, n - 1);
      if pid in v.procs && Live(v.procs[pid]) { EventKeepsInv(u, v, Act(pid, io(n - 1))); }
    }
  }

  /** The choices `io`, its first step failing when the directories are not as the write needs them. */
  function WhenReady(io: nat -> Choice, ready: bool): nat -> Choice {
    (k: nat) => if k == 0 then io(0).(ok := io(0).ok && ready) else io(k)
  }

  lemma Advance<T>(u: Rules<T>, w: World<T>, pid: nat, io: nat -> Choice, n: nat, v: World<T>, v': World<T>)
    requires Alone(u, w, pid, io, n) == v && pid in v.procs && Live(v.procs[pid])
    requires v' == ApplyMove(u, v, pid, NextMove(u, v, v.procs[pid], io(n)))
    ensures Alone(u, w, pid, io, n + 1) == v'
  {
  }

  /** Every revision file is complete and holds the revision its name says. */
  ghost predicate AllReadable<T>(u: Rules<T>, s: Store<T>) {
    forall n :: n in s.revisions ==> s.revisions[n].Complete? && u.rev(s.revisions[n].value) == n
  }

  /** The pointer selects a stored revision that `candidate` may follow. */
  ghost predicate MayFollow<T>(u: Rules<T>, s: Store<T>, candidate: T) {
    && s.pointer.Some? && s.pointer.value in s.revisions && s.revisions[s.pointer.value].Complete?
    && u.step(s.revisions[s.pointer.value].value, candidate)
  }

  /** A revision file numbered above the pointer. */
  ghost predicate BeyondPointer<T>(s: Store<T>) {
    s.pointer.Some? && exists n :: n in s.revisions && n > s.pointer.value
  }

  /** What the checks under the lock say, in terms of the stored revisions and the pointer. */
  ghost predicate Refused<T(!new)>(u: Rules<T>, s: Store<T>, candidate: T, expected: Option<int>, o: Outcome<T>) {
    if !AllReadable(u, s) then o == ReadError
    else if s.pointer != expected then o == Conflict
    else if s.pointer.None? then o == IntegrityError && s.revisions.Keys != {}
    else if s.pointer.value !in s.revisions then o == ReadError
    else if !MayFollow(u, s, candidate) then o == InvalidTransition
    else if u.rev(candidate) in s.revisions then o == Conflict
    else o == IntegrityError && BeyondPointer(s)
  }

  ghost predicate Accepted<T>(u: Rules<T>, s: Store<T>, candidate: T, expected: Option<int>) {
    && AllReadable(u, s) && s.pointer == expected && u.rev(candidate) !in s.revisions
    && (if s.pointer.None? then s.revisions.Keys == {} else MayFollow(u, s, candidate) && !BeyondPointer(s))
  }

  /** The checks under the lock accept exactly the next revision, and refuse any other for exactly one reason. */
  lemma VerdictExactly<T(!new)>(u: Rules<T>, s: Store<T>, candidate: T, expected: Option<int>)
    ensures var verdict := Verdict(u, s, candidate, expected, s.pointer);
            && (verdict.None? <==> Accepted(u, s, candidate, expected))
            && (verdict.Some? ==> Refused(u, s, candidate, expected, verdict.value))
  {
    assert AllReadable(u, s) <==> !exists n :: n in s.revisions && !Loads(u, s, n);
  }

  /** The answer to a fault-free write with nobody else at work, and the store it leaves behind. */
  ghost predicate WriteAnswer<T(!new)>(u: Rules<T>, before: Store<T>, locked: bool, rooted: bool, candidate: T,
                                       expected: Option<int>, outcome: Outcome<T>, after: Store<T>)
  {
    var n := u.rev(candidate);
    if expected.None? && n != 1 then outcome == Conflict && after == before
    else if expected.None? && !rooted then outcome == WriteError && after == before
    else if locked then outcome == Conflict && after == before
    else if Accepted(u, before, candidate, expected) then
      outcome == Written && after == Store(before.revisions[n := Complete(candidate)], Some(n))
    else Refused(u, before, candidate, expected, outcome) && after == before
  }

  class Directory<T(==,!new)> {
    const rules: Rules<T>
    var revisions: map<int, File<T>>
    var pointer: Option<int>
    var lock: Option<nat>
    ghost var history: seq<T>
    /** The producer's own directory, if initial writes need one, exists. */
    var rooted: bool
    ghost const others: map<nat, Proc<T>>

    ghost function Seen(pid: nat, p: Proc<T>): World<T>
      reads this
    {
      World(Store(revisions, pointer), lock, others[pid := p], history)
    }

    lemma PhaseStep(w: World<T>, pid: nat, io: nat -> Choice, n: nat, p: Proc<T>, phase: Phase<T>)
      requires Live(p) && Alone(rules, w, pid, io, n) == Seen(pid, p)
      requires NextMove(rules, Seen(pid, p), p, io(n)) == Goto(p, phase)
      ensures Alone(rules, w, pid, io, n + 1) == Seen(pid, p.(phase := phase))
    {
      Advance(rules, w, pid, io, n, Seen(pid, p), Seen(pid, p.(phase := phase)));
    }

    /** Pointer, listing and transition checks under the lock. */
    method ValidateWriteState(pid: nat, p: Proc<T>, io: nat -> Choice, n: nat, ghost w: World<T>)
      returns (refusal: Option<Outcome<T>>, steps: nat)
      requires p.job.Write? && p.phase.Locked? && Alone(rules, w, pid, io, n) == Seen(pid, p)
      ensures Alone(rules, w, pid, io, steps) ==
                Seen(pid, p.(phase := if refusal.Some? then Releasing(refusal.value) else Ready))
      ensures refusal.None? ==> Verdict(rules, Store(revisions, pointer), p.job.candidate, p.job.expected,
                                        pointer).None?
      ensures (forall k :: io(k).ok) ==>
                refusal == Verdict(rules, Store(revisions, pointer), p.job.candidate, p.job.expected, pointer)
      ensures refusal != Some(Written)
    {
      hide Alone;
      steps := n + 1;
      if !io(n).ok {
        PhaseStep(w, pid, io, n, p, Releasing(ReadError));
        return Some(ReadError), steps;
      }
      var current := pointer;
      PhaseStep(w, pid, io, n, p, Pointed(current));
      steps := n + 2;
      if io(n + 1).ok {
        refusal := Verdict(rules, Store(revisions, pointer), p.job.candidate, p.job.expected, current);
      } else {
        refusal := Some(ReadError);
      }
      PhaseStep(w, pid, io, n + 1, p.(phase := Pointed(current)),
                if refusal.Some? then Releasing(refusal.value) else Ready);
    }

    /** Exclusive creation of the revision file. */
    method CreateRevision(pid: nat, p: Proc<T>, io: nat -> Choice, n: nat, ghost w: World<T>)
      returns (refusal: Option<Outcome<T>>)
      requires p.job.Write? && p.phase.Ready? && !p.created && Alone(rules, w, pid, io, n) == Seen(pid, p)
      modifies this`revisions
      ensures Alone(rules, w, pid, io, n + 1) ==
                Seen(pid, p.(phase := if refusal.Some? then Releasing(refusal.value) else Filling,
                             created := refusal.None?))
      ensures refusal.None? ==> revisions == old(revisions)[rules.rev(p.job.candidate) := Partial]
      ensures refusal != Some(Written)
      ensures io(n).ok ==> refusal == if rules.rev(p.job.candidate) in old(revisions) then Some(Conflict) else None
      ensures refusal.Some? ==> revisions == old(revisions)
    {
      hide Alone;
      ghost var v := Seen(pid, p);
      var number := rules.rev(p.job.candidate);
      if number in revisions {
        refusal := Some(Conflict);
      } else if !io(n).ok {
        refusal := Some(WriteError);
      } else {
        revisions := revisions[number := Partial];
        refusal := None;
      }
      Advance(rules, w, pid, io, n, v,
        Seen(pid, p.(phase := if refusal.Some? then Releasing(refusal.value) else Filling, created := refusal.None?)));
    }

    /** Filling the file; on failure its removal may fail as well. */
    method FillRevision(pid: nat, p: Proc<T>, io: nat -> Choice, n: nat, ghost w: World<T>) returns (ok: bool)
      requires p.job.Write? && p.phase.Filling? && Alone(rules, w, pid, io, n) == Seen(pid, p)
      modifies this`revisions
      ensures ok == io(n).ok
      ensures Alone(rules, w, pid, io, n + 1) == Seen(pid, p.(phase := if ok then Verifying else Releasing(WriteError)))
      ensures ok ==> revisions == old(revisions)[rules.rev(p.job.candidate) := Complete(p.job.candidate)]
    {
      hide Alone;
      ghost var v := Seen(pid, p);
      var number := rules.rev(p.job.candidate);
      ok := io(n).ok;
      if ok {
        revisions := revisions[number := Complete(p.job.candidate)];
      } else {
        match io(n).residue {
          case Removed => revisions := revisions - {number};
          case LeftPartial =>
          case LeftComplete => revisions := revisions[number := Complete(p.job.candidate)];
        }
      }
      Advance(rules, w, pid, io, n, v, Seen(pid, p.(phase := if ok then Verifying else Releasing(WriteError))));
    }

    /** Reading the new revision back; when that fails it is removed again, if it can be. */
    method VerifyRevision(pid: nat, p: Proc<T>, io: nat -> Choice, n: nat, ghost w: World<T>) returns (ok: bool)
      requires p.job.Write? && p.phase.Verifying? && Alone(rules, w, pid, io, n) == Seen(pid, p)
      modifies this`revisions
      ensures ok == io(n).ok
      ensures Alone(rules, w, pid, io, n + 1) == Seen(pid, p.(phase := if ok then Publishing
                                                              else Releasing(WriteError)))
      ensures ok ==> revisions == old(revisions)
    {
      hide Alone;
      ghost var v := Seen(pid, p);
      ok := io(n).ok;
      if !ok && io(n).residue.Removed? { revisions := revisions - {rules.rev(p.job.candidate)}; }
      Advance(rules, w, pid, io, n, v, Seen(pid, p.(phase := if ok then Publishing else Releasing(WriteError))));
    }

    /** Atomic replacement of the pointer, then a last check that it selects the candidate. */
    method PublishPointer(pid: nat, p: Proc<T>, io: nat -> Choice, n: nat, ghost w: World<T>)
      returns (outcome: Outcome<T>, steps: nat)
      requires p.job.Write? && p.phase.Publishing? && Alone(rules, w, pid, io, n) == Seen(pid, p)
      modifies this`pointer, this`history
      ensures Alone(rules, w, pid, io, steps) == Seen(pid, p.(phase := Releasing(outcome)))
      ensures pointer == (if io(n).ok then Some(rules.rev(p.job.candidate)) else old(pointer))
      ensures outcome.Written? <==> io(n).ok && io(n + 1).ok
    {
      hide Alone;
      steps := n + 1;
      if !io(n).ok {
        PhaseStep(w, pid, io, n, p, Releasing(WriteError));
        return WriteError, steps;
      }
      ghost var v := Seen(pid, p);
      pointer := Some(rules.rev(p.job.candidate));
      history := history + [p.job.candidate];
      Advance(rules, w, pid, io, n, v, Seen(pid, p.(phase := Confirming)));
      steps := n + 2;
      outcome := if io(n + 1).ok then Written else IntegrityError;
      PhaseStep(w, pid, io, n + 1, p.(phase := Confirming), Releasing(outcome));
    }

    /** The body of the `try` block. */
    method WriteUnderLock(pid: nat, p: Proc<T>, io: nat -> Choice, n: nat, ghost w: World<T>)
      returns (outcome: Outcome<T>, steps: nat, created: bool)
      requires p.job.Write? && p.phase.Locked? && !p.created && Alone(rules, w, pid, io, n) == Seen(pid, p)
      modifies this`revisions, this`pointer, this`history
      ensures Alone(rules, w, pid, io, steps) == Seen(pid, p.(phase := Releasing(outcome), created := created))
      ensures outcome.Written? ==>
                && old(Verdict(rules, Store(revisions, pointer), p.job.candidate, p.job.expected, pointer)).None?
                && revisions == old(revisions)[rules.rev(p.job.candidate) := Complete(p.job.candidate)]
                && pointer == Some(rules.rev(p.job.candidate))
      ensures (forall k :: io(k).ok) ==>
                && old(Verdict(rules, Store(revisions, pointer), p.job.candidate, p.job.expected, pointer))
                   == (if outcome.Written? then None else Some(outcome))
                && (!outcome.Written? ==> revisions == old(revisions) && pointer == old(pointer))
    {
      hide Alone, NextMove, ApplyMove;
      created := false;
      var refusal, k := ValidateWriteState(pid, p, io, n, w);
      if refusal.Some? { return refusal.value, k, created; }
      refusal := CreateRevision(pid, p.(phase := Ready), io, k, w);
      if refusal.Some? { return refusal.value, k + 1, created; }
      created := true;
      var filling := p.(phase := Filling, created := true);
      var ok := FillRevision(pid, filling, io, k + 1, w);
      if !ok { return WriteError, k + 2, created; }
      ok := VerifyRevision(pid, filling.(phase := Verifying), io, k + 2, w);
      if !ok { return WriteError, k + 3, created; }
      outcome, steps := PublishPointer(pid, filling.(phase := Publishing), io, k + 3, w);
    }

    method AcquireLock(pid: nat, p: Proc<T>, io: nat -> Choice, n: nat, ghost w: World<T>)
      returns (refusal: Option<Outcome<T>>)
      requires p.job.Write? && p.phase.Prepared? && Alone(rules, w, pid, io, n) == Seen(pid, p)
      modifies this`lock
      ensures Alone(rules, w, pid, io, n + 1) ==
                Seen(pid, p.(phase := if refusal.Some? then Finished(refusal.value) else Locked))
      ensures refusal.None? <==> old(lock).None? && io(n).ok
      ensures refusal.Some? ==> refusal.value == if old(lock).Some? then Conflict else WriteError
    {
      hide Alone;
      ghost var v := Seen(pid, p);
      if lock.Some? {
        refusal := Some(Conflict);
      } else {
        if io(n).ok || !io(n).residue.Removed? { lock := Some(pid); }
        refusal := if io(n).ok then None else Some(WriteError);
      }
      Advance(rules, w, pid, io, n, v, Seen(pid, p.(phase := if refusal.Some? then Finished(refusal.value)
                                                    else Locked)));
    }

    method ReleaseLock(pid: nat, p: Proc<T>, io: nat -> Choice, n: nat, ghost w: World<T>)
      requires p.job.Write? && p.phase.Releasing? && Alone(rules, w, pid, io, n) == Seen(pid, p)
      modifies this`lock
      ensures Alone(rules, w, pid, io, n + 1) == Seen(pid, p.(phase := Finished(p.phase.pending)))
    {
      hide Alone;
      ghost var v := Seen(pid, p);
      if io(n).residue.Removed? { lock := None; }
      Advance(rules, w, pid, io, n, v, Seen(pid, p.(phase := Finished(p.phase.pending))));
    }

    /**
     Run alone, the writer is one run of the step machine. Without faults it answers exactly as
     the stored revisions, the pointer and the lock call for; on success exactly the candidate
     was added and selected, and otherwise nothing was.
     */
    method Write(candidate: T, expected: Option<int>, pid: nat, io: nat -> Choice)
      returns (outcome: Outcome<T>, steps: nat, created: bool)
      modifies this
      ensures Seen(pid, Proc(Job.Write(candidate, expected), Finished(outcome), created))
              == Alone(rules, old(Seen(pid, Proc(Job.Write(candidate, expected), Waiting, false))), pid,
                       WhenReady(io, expected.None? ==> old(rooted)), steps)
      ensures outcome.Written? ==>
                && revisions == old(revisions)[rules.rev(candidate) := Complete(candidate)]
                && pointer == Some(rules.rev(candidate))
      ensures (forall k :: io(k).ok) ==>
                WriteAnswer(rules, old(Store(revisions, pointer)), old(lock).Some?, old(rooted), candidate, expected,
                            outcome, Store(revisions, pointer))
    {
      hide Alone, NextMove, ApplyMove, Verdict;
      VerdictExactly(rules, Store(revisions, pointer), candidate, expected);
      var p := Proc(Job.Write(candidate, expected), Waiting, false);
      ghost var w := Seen(pid, p);
      created := false;
      var choices := WhenReady(io, expected.None? ==> rooted);
      Precheck(pid, p, choices, w);
      if expected.None? && rules.rev(candidate) != 1 { return Conflict, 1, created; }
      if !choices(0).ok { return WriteError, 1, created; }
      var refusal := AcquireLock(pid, p.(phase := Prepared), choices, 1, w);
      if refusal.Some? { return refusal.value, 2, created; }
      outcome, steps, created := WriteUnderLock(pid, p.(phase := Locked), choices, 2, w);
      ReleaseLock(pid, p.(phase := Releasing(outcome), created := created), choices, steps, w);
      steps := steps + 1;
    }

    lemma Precheck(pid: nat, p: Proc<T>, io: nat -> Choice, w: World<T>)
      requires p.job.Write? && p.phase.Waiting? && w == Seen(pid, p)
      ensures Alone(rules, w, pid, io, 1) ==
                Seen(pid, p.(phase := if p.job.expected.None? && rules.rev(p.job.candidate) != 1 then Finished(Conflict)
                                      else if !io(0).ok then Finished(WriteError) else Prepared))
    {
      PhaseStep(w, pid, io, 0, p, if p.job.expected.None? && rules.rev(p.job.candidate) != 1 then Finished(Conflict)
                                  else if !io(0).ok then Finished(WriteError) else Prepared);
    }
  }
}
