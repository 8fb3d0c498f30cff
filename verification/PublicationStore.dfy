/**
 The writers as the sequential methods they are, run by one process while every other
 process stands still: each method is shown to be a run of the step machine, so it
 inherits what the machine guarantees.
 */
module PublicationStore {
  import opened Foundations
  import opened PublicationRecords
  import opened PublicationAdmission
  import opened PublicationProtocol
  import opened PublicationHistory

  /** `n` steps of process `pid` alone, under the I/O outcomes `io`. */
  ghost function Alone(w: World, pid: nat, io: nat -> Choice, n: nat): World {
    if n == 0 then w
    else
      var v := Alone(w, pid, io, n - 1);
      if pid in v.procs && Live(v.procs[pid]) then Apply(v, Act(pid, io(n - 1))) else v
  }

  lemma {:induction false} AloneKeepsInv(w: World, pid: nat, io: nat -> Choice, n: nat)
    requires Inv(w)
    ensures Inv(Alone(w, pid, io, n))
  {
    hide Inv, Apply;
    if n > 0 {
      AloneKeepsInv(w, pid, io, n - 1);
      var v := Alone(w, pid, io, n - 1);
      if pid in v.procs && Live(v.procs[pid]) { EventKeepsInv(v, Act(pid, io(n - 1))); }
    }
  }

  lemma EmptyListing(f: Files, s: SeriesId, names: seq<string>)
    requires Names(names, f.records)
    ensures Listing(f, s, names, 0, [])
  {
    assert names[..0] == [];
  }

  lemma FullListing(f: Files, s: SeriesId, names: seq<string>, got: seq<PublicationRecord>)
    requires Names(names, f.records) && Listing(f, s, names, |names|, got)
    ensures ListsSeries(f, s, got)
  {
    assert names[..|names|] == names;
  }

  lemma Advance(w: World, pid: nat, io: nat -> Choice, n: nat, v: World, v': World)
    requires Alone(w, pid, io, n) == v && pid in v.procs && Live(v.procs[pid])
    requires v' == ApplyMove(v, pid, NextMove(v, v.procs[pid], io(n)))
    ensures Alone(w, pid, io, n + 1) == v'
  {
  }

  lemma LockMoves(w: World, p: Proc, c: Choice)
    requires !p.job.List?
    ensures p.phase.Prepared? ==> NextMove(w, p, c) == AcquireMove(w, p, c)
    ensures p.phase.Releasing? ==> NextMove(w, p, c) == ReleaseMove(p, c)
  {
  }

  /** A publisher's moves around its record file. */
  lemma FileMoves(w: World, p: Proc, c: Choice)
    requires p.job.Publish?
    ensures var r := p.job.candidate;
            && (p.phase.Ready? || p.phase.RollingBack? ==> NextMove(w, p, c) == RecordFileMove(w, p, c))
            && (p.phase.Filling? ==>
                  NextMove(w, p, c)
                  == if c.ok then Move(p.(phase := Verifying), PutRecord(r.publicationId, Complete(r)), Keep)
                     else Move(p.(phase := Releasing(WriteError)), LeftOver(r, c.residue), Keep))
  {
  }

  function LeftOver(r: PublicationRecord, residue: Residue): Effect {
    match residue
    case Removed => DropRecord(r.publicationId)
    case LeftPartial => Nothing
    case LeftComplete => PutRecord(r.publicationId, Complete(r))
  }

  /** A withdrawer's moves around its withdrawal file. */
  lemma NoticeMoves(w: World, p: Proc, c: Choice)
    requires p.job.Withdraw?
    ensures var d := p.job.withdrawal;
            && (p.phase.Ready? && d.publicationId !in w.files.withdrawals && c.ok ==>
                  NextMove(w, p, c) == Move(p.(phase := Filling), PutWithdrawal(d.publicationId, Partial), Keep))
            && (p.phase.Filling? ==>
                  NextMove(w, p, c)
                  == if c.ok then Move(p.(phase := Verifying), PutWithdrawal(d.publicationId, Complete(d)), Keep)
                     else Move(p.(phase := Releasing(WriteError)), Residual(d, c.residue), Keep))
            && (p.phase.RollingBack? ==>
                  NextMove(w, p, c)
                  == Move(p.(phase := Releasing(p.phase.failure)),
                          if c.residue.Removed? then DropWithdrawal(d.publicationId) else Nothing, Keep))
  {
    hide Withdrawable;
  }

  function Residual(d: PublicationWithdrawal, residue: Residue): Effect {
    match residue
    case Removed => DropWithdrawal(d.publicationId)
    case LeftPartial => Nothing
    case LeftComplete => PutWithdrawal(d.publicationId, Complete(d))
  }

  /** An intervention names no registration; an academic record names its work's current one, not cancelled. */
  ghost predicate RegistrationStands(g: Registrations, r: PublicationRecord) {
    r.kind.AcademicResultSet? ==>
      exists n ::
        && r.registrationRevision == Some(n) && r.work in g.current && g.current[r.work] == n
          && (r.work, n) in g.selected
        && g.selected[(r.work, n)] in {Planned, Active, Closed}
  }

  lemma AllowsExactly(g: Registrations, r: PublicationRecord)
    ensures RegistrationAllows(g, r) <==> RegistrationStands(g, r)
  {
  }

  /**
   The outcome of a fault-free write with nobody else at work, where `q` is the chain stored for
   the record's series.
   */
  ghost function WriteAnswer(manifests: map<string, string>, g: Registrations,
                             records: map<string, File<PublicationRecord>>, locked: bool, q: seq<PublicationRecord>,
                             r: PublicationRecord): Outcome
  {
    if r.manifestPath !in manifests || manifests[r.manifestPath] != r.manifestDigest then ManifestError
    else if !RegistrationStands(g, r) || locked || r.publicationId in records then Conflict
    else if exists id :: id in records && (records[id].Partial? || records[id].value.publicationId != id) then
      IntegrityError
    else if RevisionIn(q, r) then if RepeatedIn(q, r) then Conflict else IntegrityError
    else if Follows(q, r) then Written
    else Conflict
  }

  /** The outcome of a fault-free withdrawal with nobody else at work. */
  function WithdrawAnswer(f: Files, locks: map<SeriesId, nat>, d: PublicationWithdrawal): Outcome {
    var id := d.publicationId;
    if id !in f.records || f.records[id].Partial? || f.records[id].value.publicationId != id then ReadError
    else if d.withdrawnAt < f.records[id].value.publishedAt then WriteError
    else if f.records[id].value.Series() in locks then Conflict
    else if id !in f.withdrawals then Written
    else if f.withdrawals[id].Partial? then ReadError
    else Conflict
  }

  class Workspace {
    var records: map<string, File<PublicationRecord>>
    var withdrawals: map<string, File<PublicationWithdrawal>>
    var locks: map<SeriesId, nat>
    const manifests: map<string, string>
    const registrations: Registrations
    ghost const others: map<nat, Proc>
    ghost const home: map<string, SeriesId>

    ghost function Seen(pid: nat, p: Proc): World
      reads this
    {
      World(Files(records, withdrawals), locks, others[pid := p], home, manifests, registrations)
    }

    /** Every file in the collection loads. */
    ghost predicate Readable()
      reads this
    {
      forall id :: id in records ==> Loads(records, id)
    }

    predicate ManifestVerifies(r: PublicationRecord) {
      r.manifestPath in manifests && manifests[r.manifestPath] == r.manifestDigest
    }

    /** One machine step that only changes the phase. */
    lemma PhaseStep(w: World, pid: nat, io: nat -> Choice, n: nat, p: Proc, phase: Phase)
      requires Live(p) && Alone(w, pid, io, n) == Seen(pid, p)
      requires NextMove(Seen(pid, p), p, io(n)) == Goto(p, phase)
      ensures Alone(w, pid, io, n + 1) == Seen(pid, p.(phase := phase))
    {
      Advance(w, pid, io, n, Seen(pid, p), Seen(pid, p.(phase := phase)));
    }

    lemma ListingStep(w: World, pid: nat, io: nat -> Choice, n: nat, p: Proc)
      requires !p.job.Withdraw? && Alone(w, pid, io, n) == Seen(pid, p)
      requires p.phase.Scanning? || p.phase.Checking? || (p.phase.Collecting? && p.phase.next < |p.phase.names|)
      ensures Alone(w, pid, io, n + 1) == Seen(pid, ListingMove(Seen(pid, p), p, io(n)).proc)
    {
      PhaseStep(w, pid, io, n, p, ListingMove(Seen(pid, p), p, io(n)).proc.phase);
    }

    /** The candidate's bindings hold and its id is unused. */
    predicate Fresh(r: PublicationRecord)
      reads this
    {
      ManifestVerifies(r) && RegistrationAllows(registrations, r) && r.publicationId !in records
    }

    /** Directory enumeration: every name once, in no particular order. */
    method Enumerate() returns (names: seq<string>)
      ensures Names(names, records)
    {
      names := [];
      var left := records.Keys;
      while left != {}
        invariant left <= records.Keys
        invariant forall i, j :: 0 <= i < j < |names| ==> names[i] != names[j]
        invariant forall id :: id in names ==> id in records && id !in left
        invariant forall id :: id in records ==> id in names || id in left
        decreases left
      {
        var id :| id in left;
        names := names + [id];
        left := left - {id};
      }
    }

    /** The two passes over the collection: load everything, then keep the series' records. */
    method ListRecordSet(pid: nat, p: Proc, io: nat -> Choice, start: nat, ghost w: World)
      returns (result: Result<seq<PublicationRecord>, Outcome>, steps: nat)
      requires p.phase.Scanning? && !p.job.Withdraw? && Names(io(start).names, records)
      requires Alone(w, pid, io, start) == Seen(pid, p)
      ensures result.Success? ==>
                Alone(w, pid, io, steps)
                == Seen(pid, p.(phase := Collecting(io(start).names, |io(start).names|, result.value)))
      ensures result.Failure? ==> Alone(w, pid, io, steps) == Seen(pid, Stop(p, result.error).proc)
      ensures result.Failure? ==>
                && (result.error.IntegrityError? || result.error.ReadError?)
                && (result.error.ReadError? ==> p.job.List? && exists k :: !io(k).ok)
                && (result.error.IntegrityError? && p.job.List? ==> !Readable())
      ensures result.Success? ==> Readable() && ListsSeries(Files(records, withdrawals), p.series, result.value)
      ensures result.Failure? && (forall k :: io(k).ok) ==> !Readable()
    {
      hide Alone, NextMove, ApplyMove, Listing, ListsSeries;
      var names := io(start).names;
      EmptyListing(Files(records, withdrawals), p.series, names);
      steps := start;
      ListingStep(w, pid, io, steps, p);
      steps := steps + 1;
      if !io(start).ok { return Failure(ListingFailure(p.job, false)), steps; }
      for i := 0 to |names|
        invariant Alone(w, pid, io, steps) == Seen(pid, p.(phase := Checking(names, i)))
        invariant forall k :: 0 <= k < i ==> Loads(records, names[k])
      {
        var ok := io(steps).ok;
        ListingStep(w, pid, io, steps, p.(phase := Checking(names, i)));
        steps := steps + 1;
        if !ok || !Loads(records, names[i]) { return Failure(ListingFailure(p.job, ok)), steps; }
      }
      var got: seq<PublicationRecord> := [];
      ListingStep(w, pid, io, steps, p.(phase := Checking(names, |names|)));
      steps := steps + 1;
      for i := 0 to |names|
        invariant Alone(w, pid, io, steps) == Seen(pid, p.(phase := Collecting(names, i, got)))
        invariant Listing(Files(records, withdrawals), p.series, names, i, got)
      {
        var ok := io(steps).ok;
        ListingStep(w, pid, io, steps, p.(phase := Collecting(names, i, got)));
        steps := steps + 1;
        if !ok || !Loads(records, names[i]) { return Failure(ListingFailure(p.job, ok)), steps; }
        var r := records[names[i]].value;
        PublicationProtocol.ListingStep(Files(records, withdrawals), p.series, names, i, got);
        if r.Series() == p.series { got := got + [r]; }
      }
      FullListing(Files(records, withdrawals), p.series, names, got);
      return Success(got), steps;
    }

    /** Exclusive creation of the lock file; cleanup of a half-made lock may fail. */
    method AcquireLock(pid: nat, p: Proc, io: nat -> Choice, n: nat, ghost w: World) returns (refusal: Option<Outcome>)
      requires p.phase.Prepared? && !p.job.List? && Alone(w, pid, io, n) == Seen(pid, p)
      modifies this`locks
      ensures Alone(w, pid, io, n + 1) ==
                Seen(pid, p.(phase := if refusal.Some? then Finished(refusal.value) else Locked))
      ensures refusal != Some(Written)
      ensures refusal.None? ==> p.series !in old(locks) && locks == old(locks)[p.series := pid]
      ensures io(n).ok && p.series !in old(locks) ==> refusal.None?
      ensures p.series in old(locks) ==> refusal == Some(Conflict)
      ensures refusal.Some? && (p.series in old(locks) || io(n).residue.Removed?) ==> locks == old(locks)
    {
      hide Alone, NextMove;
      ghost var v := Seen(pid, p);
      LockMoves(v, p, io(n));
      if p.series in locks {
        refusal := Some(Conflict);
      } else if io(n).ok {
        locks := locks[p.series := pid];
        refusal := None;
      } else {
        if !io(n).residue.Removed? { locks := locks[p.series := pid]; }
        refusal := Some(WriteError);
      }
      Advance(w, pid, io, n, v, Seen(pid, p.(phase := if refusal.Some? then Finished(refusal.value) else Locked)));
    }

    /** `_remove_file(lock_path)`: errors are swallowed, so the lock may stay. */
    method ReleaseLock(pid: nat, p: Proc, io: nat -> Choice, n: nat, ghost w: World)
      requires p.phase.Releasing? && !p.job.List? && Alone(w, pid, io, n) == Seen(pid, p)
      modifies this`locks
      ensures Alone(w, pid, io, n + 1) == Seen(pid, p.(phase := Finished(p.phase.pending)))
      ensures locks == if io(n).residue.Removed? then old(locks) - {p.series} else old(locks)
    {
      hide Alone, NextMove;
      ghost var v := Seen(pid, p);
      LockMoves(v, p, io(n));
      if io(n).residue.Removed? { locks := locks - {p.series}; }
      Advance(w, pid, io, n, v, Seen(pid, p.(phase := Finished(p.phase.pending))));
    }

    /** Manifest, registration and target checks repeated under the lock. */
    method RecheckUnderLock(pid: nat, p: Proc, io: nat -> Choice, n: nat, ghost w: World)
      returns (refusal: Option<Outcome>, steps: nat)
      requires p.phase.Locked? && p.job.Publish? && Alone(w, pid, io, n) == Seen(pid, p)
      ensures Alone(w, pid, io, steps) ==
                Seen(pid, p.(phase := if refusal.Some? then Releasing(refusal.value) else Scanning))
      ensures refusal != Some(Written)
      ensures refusal.None? ==> Fresh(p.job.candidate)
      ensures (forall k :: io(k).ok) ==>
                refusal == if !ManifestVerifies(p.job.candidate) then Some(ManifestError)
                           else if Fresh(p.job.candidate) then None else Some(Conflict)
    {
      hide Alone;
      var r := p.job.candidate;
      steps := n + 1;
      if !io(n).ok || !ManifestVerifies(r) {
        PhaseStep(w, pid, io, n, p, Releasing(ManifestError));
        return Some(ManifestError), steps;
      }
      PhaseStep(w, pid, io, n, p, Bound);
      steps := n + 2;
      if !io(n + 1).ok && r.kind.AcademicResultSet? {
        PhaseStep(w, pid, io, n + 1, p.(phase := Bound), Releasing(IntegrityError));
        return Some(IntegrityError), steps;
      }
      if !RegistrationAllows(registrations, r) {
        PhaseStep(w, pid, io, n + 1, p.(phase := Bound), Releasing(Conflict));
        return Some(Conflict), steps;
      }
      PhaseStep(w, pid, io, n + 1, p.(phase := Bound), Vetted);
      steps := n + 3;
      if r.publicationId in records {
        PhaseStep(w, pid, io, n + 2, p.(phase := Vetted), Releasing(Conflict));
        return Some(Conflict), steps;
      }
      PhaseStep(w, pid, io, n + 2, p.(phase := Vetted), Scanning);
      return None, steps;
    }

    /** The writer's verdict on the listed series. */
    method DecideOnSeries(pid: nat, p: Proc, io: nat -> Choice, n: nat, ghost w: World)
      returns (refusal: Option<Outcome>)
      requires p.job.Publish? && p.phase.Collecting? && p.phase.next == |p.phase.names|
      requires Alone(w, pid, io, n) == Seen(pid, p)
      ensures Alone(w, pid, io, n + 1) ==
                Seen(pid, p.(phase := if refusal.Some? then Releasing(refusal.value) else Ready))
      ensures refusal != Some(Written)
      ensures refusal.None? <==> SeriesAccepted(p.phase.got) && Admission(p.phase.got, p.job.candidate).None?
      ensures refusal.Some? ==>
                refusal == if SeriesAccepted(p.phase.got)
                              && Admission(p.phase.got, p.job.candidate) != Some(RevisionContradicted)
                           then Some(Conflict) else Some(IntegrityError)
    {
      var validated := ValidatePublicationRecordSeries(p.phase.got);
      if validated.Failure? {
        refusal := Some(IntegrityError);
      } else {
        var admission := Admission(p.phase.got, p.job.candidate);
        refusal := if admission.None? then None
                   else if admission.value.RevisionContradicted? then Some(IntegrityError) else Some(Conflict);
      }
      PhaseStep(w, pid, io, n, p, if refusal.Some? then Releasing(refusal.value) else Ready);
    }

    /** `_write_exclusively`: create, then fill; on failure try to remove what was created. */
    method WriteExclusively(pid: nat, p: Proc, io: nat -> Choice, n: nat, ghost w: World)
      returns (refusal: Option<Outcome>, steps: nat)
      requires p.job.Publish? && p.phase.Ready? && Alone(w, pid, io, n) == Seen(pid, p)
      modifies this`records
      ensures Alone(w, pid, io, steps) ==
                Seen(pid, p.(phase := if refusal.Some? then Releasing(refusal.value) else Verifying))
      ensures refusal != Some(Written)
      ensures refusal == Some(Conflict) ==> records == old(records)
      ensures refusal.None? ==>
                records == old(records)[p.job.candidate.publicationId := Complete(p.job.candidate)]
      ensures (forall k :: io(k).ok) && p.job.candidate.publicationId !in old(records) ==> refusal.None?
    {
      hide Alone, NextMove, ApplyMove;
      refusal := CreateExclusively(pid, p, io, n, w);
      steps := n + 1;
      if refusal.None? {
        refusal := FillFile(pid, p.(phase := Filling), io, n + 1, w);
        steps := n + 2;
      }
    }

    method CreateExclusively(pid: nat, p: Proc, io: nat -> Choice, n: nat, ghost w: World)
      returns (refusal: Option<Outcome>)
      requires p.job.Publish? && p.phase.Ready? && Alone(w, pid, io, n) == Seen(pid, p)
      modifies this`records
      ensures Alone(w, pid, io, n + 1) ==
                Seen(pid, p.(phase := if refusal.Some? then Releasing(refusal.value) else Filling))
      ensures refusal.Some? ==> records == old(records) && refusal != Some(Written)
      ensures refusal.None? ==> records == old(records)[p.job.candidate.publicationId := Partial]
      ensures io(n).ok && p.job.candidate.publicationId !in old(records) ==> refusal.None?
    {
      hide Alone, NextMove;
      ghost var v := Seen(pid, p);
      FileMoves(v, p, io(n));
      if p.job.candidate.publicationId in records {
        refusal := Some(Conflict);
      } else if !io(n).ok {
        refusal := Some(WriteError);
      } else {
        records := records[p.job.candidate.publicationId := Partial];
        refusal := None;
      }
      Advance(w, pid, io, n, v, Seen(pid, p.(phase := if refusal.Some? then Releasing(refusal.value) else Filling)));
    }

    method FillFile(pid: nat, p: Proc, io: nat -> Choice, n: nat, ghost w: World) returns (refusal: Option<Outcome>)
      requires p.job.Publish? && p.phase.Filling? && Alone(w, pid, io, n) == Seen(pid, p)
      modifies this`records
      ensures Alone(w, pid, io, n + 1) ==
                Seen(pid, p.(phase := if refusal.Some? then Releasing(refusal.value) else Verifying))
      ensures refusal == if io(n).ok then None else Some(WriteError)
      ensures refusal.None? ==>
                records == old(records)[p.job.candidate.publicationId := Complete(p.job.candidate)]
    {
      hide Alone, NextMove;
      var r := p.job.candidate;
      ghost var v := Seen(pid, p);
      FileMoves(v, p, io(n));
      if io(n).ok {
        records := records[r.publicationId := Complete(r)];
        refusal := None;
      } else {
        match io(n).residue {
          case Removed => records := records - {r.publicationId};
          case LeftPartial =>
          case LeftComplete => records := records[r.publicationId := Complete(r)];
        }
        refusal := Some(WriteError);
      }
      Advance(w, pid, io, n, v, Seen(pid, p.(phase := if refusal.Some? then Releasing(refusal.value) else Verifying)));
    }

    /** Reload and re-verify the new record; undo it when that fails. */
    method VerifyOrRollBack(pid: nat, p: Proc, io: nat -> Choice, n: nat, ghost w: World)
      returns (outcome: Outcome, steps: nat)
      requires p.job.Publish? && p.phase.Verifying? && Alone(w, pid, io, n) == Seen(pid, p)
      modifies this`records
      ensures Alone(w, pid, io, steps) == Seen(pid, p.(phase := Releasing(outcome)))
      ensures outcome.Written? ==> records == old(records)
      ensures outcome != Conflict
      ensures (forall k :: io(k).ok) && ManifestVerifies(p.job.candidate) ==> outcome.Written?
    {
      hide Alone;
      var r := p.job.candidate;
      steps := n + 1;
      if io(n).ok && ManifestVerifies(r) {
        PhaseStep(w, pid, io, n, p, Releasing(Written));
        return Written, steps;
      }
      outcome := if io(n).ok then ManifestError else WriteError;
      PhaseStep(w, pid, io, n, p, RollingBack(outcome));
      RollBackRecord(pid, p.(phase := RollingBack(outcome)), io, n + 1, w);
      steps := n + 2;
    }

    method RollBackRecord(pid: nat, p: Proc, io: nat -> Choice, n: nat, ghost w: World)
      requires p.job.Publish? && p.phase.RollingBack? && Alone(w, pid, io, n) == Seen(pid, p)
      modifies this`records
      ensures Alone(w, pid, io, n + 1) == Seen(pid, p.(phase := Releasing(p.phase.failure)))
    {
      hide Alone, NextMove;
      ghost var v := Seen(pid, p);
      FileMoves(v, p, io(n));
      if io(n).residue.Removed? { records := records - {p.job.candidate.publicationId}; }
      Advance(w, pid, io, n, v, Seen(pid, p.(phase := Releasing(p.phase.failure))));
    }

    /** The body of the source's `try` block: everything between taking and giving back the lock. */
    method WriteUnderLock(pid: nat, p: Proc, io: nat -> Choice, n: nat, ghost w: World)
      returns (outcome: Outcome, steps: nat)
      requires p.phase.Locked? && p.job.Publish? && Alone(w, pid, io, n) == Seen(pid, p)
      requires forall k :: Names(io(k).names, records)
      modifies this`records
      ensures Alone(w, pid, io, steps) == Seen(pid, p.(phase := Releasing(outcome)))
      ensures outcome.Written? ==>
                records == old(records)[p.job.candidate.publicationId := Complete(p.job.candidate)]
      ensures outcome.Conflict? ==> records == old(records)
      ensures outcome.Written? ==>
                forall q :: ChainOf(old(records), p.series, q) ==>
                  old(Fresh(p.job.candidate) && Readable()) && Continues(q, p.job.candidate)
      ensures (forall k :: io(k).ok) ==>
                forall q :: ChainOf(old(records), p.series, q) ==>
                  outcome == WriteAnswer(manifests, registrations, old(records), false, q, p.job.candidate)
      ensures (forall k :: io(k).ok) && !outcome.Written? ==> records == old(records)
    {
      hide Alone, NextMove, ApplyMove, ChainOf, Continues, Follows, Admission, RevisionIn, RepeatedIn, SeriesAccepted,
           RegistrationStands, RegistrationAllows, ListsSeries;
      AllowsExactly(registrations, p.job.candidate);
      var refusal, k := RecheckUnderLock(pid, p, io, n, w);
      if refusal.Some? { return refusal.value, k; }
      var existing, k1 := ListRecordSet(pid, p.(phase := Scanning), io, k, w);
      if existing.Failure? { return existing.error, k1; }
      forall q | ChainOf(records, p.series, q)
        ensures SeriesAccepted(existing.value)
        ensures Admission(existing.value, p.job.candidate).None? <==> Continues(q, p.job.candidate)
        ensures !RevisionIn(q, p.job.candidate) && Follows(q, p.job.candidate) <==>
                  Admission(existing.value, p.job.candidate).None?
        ensures RevisionIn(q, p.job.candidate) && !RepeatedIn(q, p.job.candidate) <==>
                  Admission(existing.value, p.job.candidate) == Some(RevisionContradicted)
      {
        VerdictOnChain(Files(records, withdrawals), p.series, existing.value, q, p.job.candidate);
      }
      var listed := p.(phase := Collecting(io(k).names, |io(k).names|, existing.value));
      refusal := DecideOnSeries(pid, listed, io, k1, w);
      if refusal.Some? { return refusal.value, k1 + 1; }
      refusal, k := WriteExclusively(pid, p.(phase := Ready), io, k1 + 1, w);
      if refusal.Some? { return refusal.value, k; }
      outcome, steps := VerifyOrRollBack(pid, p.(phase := Verifying), io, k, w);
    }

    /** The writer's verdict on what it has listed, said of the series' chain. */
    lemma VerdictOnChain(f: Files, series: SeriesId, got: seq<PublicationRecord>, q: seq<PublicationRecord>,
                         r: PublicationRecord)
      requires ListsSeries(f, series, got) && ChainOf(f.records, series, q)
      ensures SeriesAccepted(got) && (Admission(got, r).None? <==> Continues(q, r))
      ensures !RevisionIn(q, r) && Follows(q, r) <==> Admission(got, r).None?
      ensures RevisionIn(q, r) && !RepeatedIn(q, r) <==> Admission(got, r) == Some(RevisionContradicted)
    {
      ListedSeriesIsTheChain(f, series, got, q);
      assert SeriesAccepted(got);
      hide Admission, Continues, Follows, RevisionIn, RepeatedIn, ChainOf, ListsSeries;
      AdmittedIffContinues(got, q, r);
      AdmissionExactly(got, q, r);
    }

    /** The checks made before the lock is taken. */
    method Precheck(pid: nat, p: Proc, io: nat -> Choice, ghost w: World) returns (refusal: Option<Outcome>, steps: nat)
      requires p.phase.Waiting? && p.job.Publish? && w == Seen(pid, p)
      ensures Alone(w, pid, io, steps) ==
                Seen(pid, p.(phase := if refusal.Some? then Finished(refusal.value) else Prepared))
      ensures refusal != Some(Written)
      ensures (forall k :: io(k).ok) ==>
                refusal == if !ManifestVerifies(p.job.candidate) then Some(ManifestError)
                           else if RegistrationAllows(registrations, p.job.candidate) then None else Some(Conflict)
    {
      var r := p.job.candidate;
      if !io(0).ok || !ManifestVerifies(r) {
        PhaseStep(w, pid, io, 0, p, Finished(ManifestError));
        return Some(ManifestError), 1;
      }
      PhaseStep(w, pid, io, 0, p, Matched);
      hide Alone;
      if !io(1).ok && r.kind.AcademicResultSet? {
        refusal := Some(IntegrityError);
      } else if !RegistrationAllows(registrations, r) {
        refusal := Some(Conflict);
      } else {
        refusal := None;
      }
      steps := 2;
      PhaseStep(w, pid, io, 1, p.(phase := Matched), if refusal.Some? then Finished(refusal.value) else Prepared);
    }

    /**
     Run alone, the method is one run of the publisher's step machine. Without faults its outcome
     is the one the stored files call for: it succeeds exactly when the manifest has the
     record's digest, the registration the record names is its work's current one and not
     cancelled, the series is unlocked, the id unused, every file in the collection loads, and
     the record's own fields follow the last record of its chain. It then adds the record and
     nothing else, and otherwise leaves every file alone; either way the lock is gone again.
     */
    method WritePublicationRecord(record: PublicationRecord, pid: nat, io: nat -> Choice)
      returns (outcome: Outcome, steps: nat)
      requires forall k :: Names(io(k).names, records)
      modifies this`records, this`locks
      ensures Seen(pid, Proc(Publish(record), record.Series(), Finished(outcome)))
              == Alone(old(Seen(pid, Proc(Publish(record), record.Series(), Waiting))), pid, io, steps)
      ensures outcome.Written? ==> records == old(records)[record.publicationId := Complete(record)]
      ensures outcome.Conflict? ==> records == old(records)
      ensures (forall k :: io(k).ok) ==>
                && (forall q :: ChainOf(old(records), record.Series(), q) ==>
                      outcome == WriteAnswer(manifests, registrations, old(records), record.Series() in old(locks), q,
                                             record))
                && (!outcome.Written? ==> records == old(records))
      ensures (forall k :: io(k).ok) ==>
                forall q :: ChainOf(old(records), record.Series(), q) ==>
                  (outcome.Written? <==>
                    && record.manifestPath in manifests && manifests[record.manifestPath] == record.manifestDigest
                    && (record.kind.AcademicResultSet? ==>
                          && record.registrationRevision.Some? && record.work in registrations.current
                          && registrations.current[record.work] == record.registrationRevision.value
                          && (record.work, record.registrationRevision.value) in registrations.selected
                          && registrations.selected[(record.work, record.registrationRevision.value)]
                             in {Planned, Active, Closed})
                    && record.Series() !in old(locks) && record.publicationId !in old(records)
                    && old(Readable()) && Follows(q, record))
      ensures (forall k :: io(k).ok && io(k).residue.Removed?) ==> locks == old(locks)
    {
      hide Alone, NextMove, ApplyMove, ChainOf, Continues, Follows, RevisionIn, RepeatedIn;
      AllowsExactly(registrations, record);
      var p := Proc(Publish(record), record.Series(), Waiting);
      ghost var w := Seen(pid, p);
      forall q | ChainOf(records, record.Series(), q) ensures Follows(q, record) ==> !RevisionIn(q, record) {
        if Follows(q, record) { FollowingIsNew(records, record.Series(), q, record); }
      }
      var failure, n := Precheck(pid, p, io, w);
      if failure.Some? { return failure.value, n; }
      var refusal := AcquireLock(pid, p.(phase := Prepared), io, n, w);
      if refusal.Some? { return refusal.value, n + 1; }
      outcome, steps := WriteUnderLock(pid, p.(phase := Locked), io, n + 1, w);
      ReleaseLock(pid, p.(phase := Releasing(outcome)), io, steps, w);
      steps := steps + 1;
    }

    lemma FollowingIsNew(f: map<string, File<PublicationRecord>>, series: SeriesId, q: seq<PublicationRecord>,
                         r: PublicationRecord)
      requires ChainOf(f, series, q) && Follows(q, r)
      ensures !RevisionIn(q, r)
    {
      forall x | x in q ensures x.recordSetRevision < r.recordSetRevision {
        var i :| 0 <= i < |q| && q[i] == x;
        if i < |q| - 1 { ChainRises(q, i, |q| - 1); }
      }
    }

    /**
     Run alone, the method is one run of the withdrawer's step machine. Without faults its
     outcome is the one the stored files call for: it succeeds exactly when the publication
     loads, the withdrawal is not earlier than it, its series is unlocked, and no withdrawal
     file for it exists, complete or not.
     */
    method WritePublicationWithdrawal(d: PublicationWithdrawal, pid: nat, io: nat -> Choice, series: SeriesId)
      returns (outcome: Outcome, steps: nat)
      modifies this`withdrawals, this`locks
      ensures exists s: SeriesId ::
        Seen(pid, Proc(Withdraw(d), s, Finished(outcome)))
        == Alone(old(Seen(pid, Proc(Withdraw(d), series, Waiting))), pid, io, steps)
      ensures outcome.Written? ==> withdrawals == old(withdrawals)[d.publicationId := Complete(d)]
      ensures outcome.Conflict? ==> withdrawals == old(withdrawals)
      ensures (forall k :: io(k).ok) ==>
                && outcome == WithdrawAnswer(Files(records, old(withdrawals)), old(locks), d)
                && (!outcome.Written? ==> withdrawals == old(withdrawals))
      ensures (forall k :: io(k).ok && io(k).residue.Removed?) ==> locks == old(locks)
    {
      hide Alone, NextMove, ApplyMove;
      var p := Proc(Withdraw(d), series, Waiting);
      ghost var w := Seen(pid, p);
      var found := LocatePublication(pid, p, io, w);
      if found.Failure? { return found.error, 1; }
      p := p.(series := found.value, phase := Prepared);
      var refusal := AcquireLock(pid, p, io, 1, w);
      if refusal.Some? { return refusal.value, 2; }
      outcome, steps := WithdrawUnderLock(pid, p.(phase := Locked), io, 2, w);
      ReleaseLock(pid, p.(phase := Releasing(outcome)), io, steps, w);
      steps := steps + 1;
    }

    /** Before any lock: the publication must load and be withdrawable as asked. */
    method LocatePublication(pid: nat, p: Proc, io: nat -> Choice, ghost w: World)
      returns (found: Result<SeriesId, Outcome>)
      requires p.phase.Waiting? && p.job.Withdraw? && w == Seen(pid, p)
      ensures Alone(w, pid, io, 1)
              == Seen(pid, if found.Failure? then p.(phase := Finished(found.error))
                           else p.(series := found.value, phase := Prepared))
      ensures found.Success? <==> io(0).ok && Withdrawable(Files(records, withdrawals), p.job.withdrawal)
      ensures found.Success? ==> found.value == records[p.job.withdrawal.publicationId].value.Series()
      ensures found.Failure? ==>
                found.error == if io(0).ok && Loads(records, p.job.withdrawal.publicationId) then WriteError
                  else ReadError
    {
      var id := p.job.withdrawal.publicationId;
      if !io(0).ok || !Loads(records, id) {
        PhaseStep(w, pid, io, 0, p, Finished(ReadError));
        return Failure(ReadError);
      }
      if !Withdrawable(Files(records, withdrawals), p.job.withdrawal) {
        PhaseStep(w, pid, io, 0, p, Finished(WriteError));
        return Failure(WriteError);
      }
      var series := records[id].value.Series();
      Advance(w, pid, io, 0, w, Seen(pid, p.(series := series, phase := Prepared)));
      return Success(series);
    }

    method WithdrawUnderLock(pid: nat, p: Proc, io: nat -> Choice, n: nat, ghost w: World)
      returns (outcome: Outcome, steps: nat)
      requires p.phase.Locked? && p.job.Withdraw? && Alone(w, pid, io, n) == Seen(pid, p)
      modifies this`withdrawals
      ensures Alone(w, pid, io, steps) == Seen(pid, p.(phase := Releasing(outcome)))
      ensures outcome.Written? ==>
                && withdrawals == old(withdrawals)[p.job.withdrawal.publicationId := Complete(p.job.withdrawal)]
                && p.job.withdrawal.publicationId !in old(withdrawals)
      ensures outcome.Conflict? ==> withdrawals == old(withdrawals)
      ensures (forall k :: io(k).ok) ==>
                && outcome == (var d := p.job.withdrawal;
                               if !Loads(records, d.publicationId) then ReadError
                               else if d.publicationId in old(withdrawals) then
                                 if old(withdrawals)[d.publicationId].Partial? then ReadError else Conflict
                               else if old(Withdrawable(Files(records, withdrawals), d)) then Written else WriteError)
                && (!outcome.Written? ==> withdrawals == old(withdrawals))
    {
      hide Alone;
      var d := p.job.withdrawal;
      var id := d.publicationId;
      steps := n + 1;
      if !io(n).ok || id in withdrawals || !Withdrawable(Files(records, withdrawals), d) {
        outcome := if !io(n).ok || !Loads(records, id) then ReadError
                   else if id in withdrawals then (if withdrawals[id].Partial? then ReadError else Conflict)
                   else WriteError;
        PhaseStep(w, pid, io, n, p, Releasing(outcome));
        return;
      }
      PhaseStep(w, pid, io, n, p, Ready);
      steps := n + 2;
      if !io(n + 1).ok {
        PhaseStep(w, pid, io, n + 1, p.(phase := Ready), Releasing(WriteError));
        return WriteError, steps;
      }
      ghost var v := Seen(pid, p.(phase := Ready));
      NoticeMoves(v, p.(phase := Ready), io(n + 1));
      withdrawals := withdrawals[id := Partial];
      Advance(w, pid, io, n + 1, v, Seen(pid, p.(phase := Filling)));
      outcome, steps := FillWithdrawal(pid, p.(phase := Filling), io, n + 2, w);
    }

    method FillWithdrawal(pid: nat, p: Proc, io: nat -> Choice, n: nat, ghost w: World)
      returns (outcome: Outcome, steps: nat)
      requires p.phase.Filling? && p.job.Withdraw? && Alone(w, pid, io, n) == Seen(pid, p)
      modifies this`withdrawals
      ensures Alone(w, pid, io, steps) == Seen(pid, p.(phase := Releasing(outcome)))
      ensures outcome.Written? || outcome.WriteError?
      ensures outcome.Written? ==>
                withdrawals == old(withdrawals)[p.job.withdrawal.publicationId := Complete(p.job.withdrawal)]
      ensures (forall k :: io(k).ok) ==> outcome.Written?
    {
      hide Alone, NextMove, ApplyMove;
      if !io(n).ok {
        AbandonWithdrawal(pid, p, io, n, w);
        return WriteError, n + 1;
      }
      CompleteWithdrawal(pid, p, io, n, w);
      outcome, steps := VerifyWithdrawalOrRollBack(pid, p.(phase := Verifying), io, n + 1, w);
    }

    method CompleteWithdrawal(pid: nat, p: Proc, io: nat -> Choice, n: nat, ghost w: World)
      requires p.phase.Filling? && p.job.Withdraw? && io(n).ok && Alone(w, pid, io, n) == Seen(pid, p)
      modifies this`withdrawals
      ensures Alone(w, pid, io, n + 1) == Seen(pid, p.(phase := Verifying))
      ensures withdrawals == old(withdrawals)[p.job.withdrawal.publicationId := Complete(p.job.withdrawal)]
    {
      hide Alone, NextMove;
      ghost var v := Seen(pid, p);
      NoticeMoves(v, p, io(n));
      withdrawals := withdrawals[p.job.withdrawal.publicationId := Complete(p.job.withdrawal)];
      Advance(w, pid, io, n, v, Seen(pid, p.(phase := Verifying)));
    }

    method AbandonWithdrawal(pid: nat, p: Proc, io: nat -> Choice, n: nat, ghost w: World)
      requires p.phase.Filling? && p.job.Withdraw? && !io(n).ok && Alone(w, pid, io, n) == Seen(pid, p)
      modifies this`withdrawals
      ensures Alone(w, pid, io, n + 1) == Seen(pid, p.(phase := Releasing(WriteError)))
    {
      hide Alone, NextMove;
      var d := p.job.withdrawal;
      ghost var v := Seen(pid, p);
      NoticeMoves(v, p, io(n));
      match io(n).residue {
        case Removed => withdrawals := withdrawals - {d.publicationId};
        case LeftPartial =>
        case LeftComplete => withdrawals := withdrawals[d.publicationId := Complete(d)];
      }
      Advance(w, pid, io, n, v, Seen(pid, p.(phase := Releasing(WriteError))));
    }

    method VerifyWithdrawalOrRollBack(pid: nat, p: Proc, io: nat -> Choice, n: nat, ghost w: World)
      returns (outcome: Outcome, steps: nat)
      requires p.phase.Verifying? && p.job.Withdraw? && Alone(w, pid, io, n) == Seen(pid, p)
      modifies this`withdrawals
      ensures Alone(w, pid, io, steps) == Seen(pid, p.(phase := Releasing(outcome)))
      ensures outcome == if io(n).ok then Written else WriteError
      ensures outcome.Written? ==> withdrawals == old(withdrawals)
    {
      hide Alone;
      if io(n).ok {
        PhaseStep(w, pid, io, n, p, Releasing(Written));
        return Written, n + 1;
      }
      PhaseStep(w, pid, io, n, p, RollingBack(WriteError));
      ghost var v := Seen(pid, p.(phase := RollingBack(WriteError)));
      NoticeMoves(v, p.(phase := RollingBack(WriteError)), io(n + 1));
      if io(n + 1).residue.Removed? { withdrawals := withdrawals - {p.job.withdrawal.publicationId}; }
      Advance(w, pid, io, n + 1, v, Seen(pid, p.(phase := Releasing(WriteError))));
      return WriteError, n + 2;
    }
  }
}
