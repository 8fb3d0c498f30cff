/** Guarded commits and plain roster writes competing for one class roster file. */
module RosterCommits {
  import opened Foundations
  import opened RosterImports
  import opened Rosters

  // --------------------------------------------------------------------- processes

  /** A guarded commit of a reviewed candidate, or a plain write of a whole roster. */
  datatype Job =
    | Commit(classId: string, candidate: Roster, expectedCurrent: StateToken, expectedCandidate: StateToken)
    | PlainWrite(roster: Roster, overwrite: bool)

  datatype Outcome =
    | Committed | Written | Conflict
    | CandidateChanged | CandidateClassMismatch | CandidateInvalid
    | ReadError | WriteError

  datatype Phase =
    | Waiting
    | Prepared                       // candidate checked, lock not yet taken
    | Locked
    | Cleared(overwrite: bool)       // the reviewed state has been seen under the lock
    | Releasing(pending: Outcome)
    | Finished(outcome: Outcome)
    | Crashed

  datatype Proc = Proc(job: Job, phase: Phase)

  /** One replacement of the file: by whom, of what, with what. */
  datatype Version = Version(writer: nat, before: Option<Table>, after: Table)

  /** The file holds a table of cells, a roster's or any other; `history` lists its replacements in order. */
  datatype World = World(file: Option<Table>, lock: Option<nat>, procs: map<nat, Proc>, history: seq<Version>)

  /** `ok`: this file operation works. `unlocked`: the lock file can be removed. */
  datatype Choice = Choice(ok: bool, unlocked: bool)

  // ------------------------------------------------------------------------- steps

  function Goto(w: World, pid: nat, phase: Phase): World
    requires pid in w.procs
  {
    w.(procs := w.procs[pid := w.procs[pid].(phase := phase)])
  }

  /** The atomic replacement of the canonical file. */
  function Replace(w: World, pid: nat, table: Table, outcome: Outcome): World
    requires pid in w.procs
  {
    Goto(w.(file := Some(table), history := w.history + [Version(pid, w.file, table)]), pid, Releasing(outcome))
  }

  /** What a commit would write: the candidate as validation returns it, when that passes review. */
  ghost predicate Reviewed(job: Job)
    requires job.Commit?
  {
    var validated := Validated(job.candidate);
    validated.Some? && validated.value.classId == job.classId && TokenOf(validated) == job.expectedCandidate
  }

  ghost function CommitStep(w: World, pid: nat, c: Choice): World
    requires pid in w.procs && w.procs[pid].job.Commit?
  {
    var job := w.procs[pid].job;
    match w.procs[pid].phase
    case Waiting =>
      var validated := Validated(job.candidate);
      if validated.None? then Goto(w, pid, Finished(CandidateInvalid))
      else if validated.value.classId != job.classId then Goto(w, pid, Finished(CandidateClassMismatch))
      else if TokenOf(validated) != job.expectedCandidate then Goto(w, pid, Finished(CandidateChanged))
      else Goto(w, pid, Prepared)
    case Prepared =>
      if w.lock.Some? then Goto(w, pid, Finished(Conflict))
      else if !c.ok then Goto(w, pid, Finished(WriteError))
      else Goto(w.(lock := Some(pid)), pid, Locked)
    case Locked =>
      // An unreadable or invalid roster is an error, never treated as absent.
      var current := LoadCurrent(job.classId, w.file);
      if !c.ok || current.None? then Goto(w, pid, Releasing(ReadError))
      else if TokenOf(current.value) != job.expectedCurrent then Goto(w, pid, Releasing(Conflict))
      else Goto(w, pid, Cleared(current.value.Some?))
    case Cleared(overwrite) =>
      if w.file.Some? && !overwrite then Goto(w, pid, Releasing(WriteError))
      else if !c.ok || Validated(job.candidate).None? then Goto(w, pid, Releasing(WriteError))
      else Replace(w, pid, TableOf(Validated(job.candidate).value), Committed)
    case Releasing(pending) =>
      Goto(if c.unlocked then w.(lock := None) else w, pid, Finished(pending))
    case _ => w
  }

  /** `_check_writable_roster`: looser than validation. */
  ghost predicate Writable(r: Roster) {
    (forall c :: Required(c) ==> c in r.columns) && forall s :: s in r.students ==> s.classId == r.classId
  }

  ghost function PlainStep(w: World, pid: nat, c: Choice): World
    requires pid in w.procs && w.procs[pid].job.PlainWrite?
  {
    var job := w.procs[pid].job;
    match w.procs[pid].phase
    case Waiting => Goto(w, pid, Prepared)
    case Prepared =>
      if w.lock.Some? || !c.ok then Goto(w, pid, Finished(WriteError))
      else Goto(w.(lock := Some(pid)), pid, Cleared(job.overwrite))
    case Cleared(overwrite) =>
      if (w.file.Some? && !overwrite) || !Writable(job.roster) || !c.ok then Goto(w, pid, Releasing(WriteError))
      else Replace(w, pid, TableOf(job.roster), Written)
    case Releasing(pending) =>
      Goto(if c.unlocked then w.(lock := None) else w, pid, Finished(pending))
    case _ => w
  }

  datatype Event = Begin(pid: nat, job: Job) | Act(pid: nat, choice: Choice) | Crash(pid: nat) | ClearLock

  predicate Live(p: Proc) { !p.phase.Finished? && !p.phase.Crashed? }

  /** A lock is only cleared by hand when its holder no longer runs. */
  predicate Enabled(w: World, e: Event) {
    match e
    case Begin(pid, _) => pid !in w.procs
    case Act(pid, _) => pid in w.procs && Live(w.procs[pid])
    case Crash(pid) => pid in w.procs && Live(w.procs[pid])
    case ClearLock => w.lock.Some? && (w.lock.value in w.procs ==> !Live(w.procs[w.lock.value]))
  }

  ghost function Step(w: World, e: Event): World
    requires Enabled(w, e)
  {
    match e
    case Begin(pid, job) => w.(procs := w.procs[pid := Proc(job, Waiting)])
    case Act(pid, c) => if w.procs[pid].job.Commit? then CommitStep(w, pid, c) else PlainStep(w, pid, c)
    case Crash(pid) => Goto(w, pid, Crashed)
    case ClearLock => w.(lock := None)
  }

  ghost predicate Run(trace: seq<World>, events: seq<Event>) {
    && |trace| == |events| + 1
    && (forall i :: 0 <= i < |events| ==> Enabled(trace[i], events[i]) && trace[i + 1] == Step(trace[i], events[i]))
  }

  /** A run may begin with any roster file, or none. */
  predicate Initial(w: World) { w.lock.None? && w.procs == map[] && w.history == [] }

  // --------------------------------------------------------------------- invariant

  predicate Critical(p: Proc) { p.phase.Locked? || p.phase.Cleared? || p.phase.Releasing? }

  /** The file loads, and its state has this token. */
  ghost predicate IsState(classId: string, file: Option<Table>, token: StateToken) {
    LoadCurrent(classId, file).Some? && TokenOf(LoadCurrent(classId, file).value) == token
  }

  ghost predicate Facts(w: World, pid: nat)
    requires pid in w.procs
  {
    var p := w.procs[pid];
    && (Critical(p) ==> w.lock == Some(pid))
    && (p.job.Commit? && Live(p) && !p.phase.Waiting? ==> Reviewed(p.job))
    && (p.job.Commit? && p.phase.Cleared? ==> IsState(p.job.classId, w.file, p.job.expectedCurrent))
    && (p.job.Commit? && (p.phase == Releasing(Committed) || p.phase == Finished(Committed)) ==>
          exists k :: 0 <= k < |w.history| && w.history[k].writer == pid)
  }

  /** A replacement made by a guarded commit replaced exactly the reviewed state. */
  ghost predicate Guarded(w: World, k: nat)
    requires k < |w.history|
  {
    var v := w.history[k];
    && v.writer in w.procs
    && (w.procs[v.writer].job.Commit? ==>
          && Reviewed(w.procs[v.writer].job) && v.after == TableOf(Validated(w.procs[v.writer].job.candidate).value)
          && IsState(w.procs[v.writer].job.classId, v.before, w.procs[v.writer].job.expectedCurrent))
  }

  /** Every replacement took over from the one before; the file is the last one's table. */
  ghost predicate HistoryLinked(w: World) {
    && (forall k :: 0 < k < |w.history| ==> w.history[k].before == Some(w.history[k - 1].after))
    && (w.history != [] ==> w.file == Some(w.history[|w.history| - 1].after))
  }

  ghost predicate Inv(w: World) {
    && (forall pid :: pid in w.procs ==> Facts(w, pid))
    && (forall k :: 0 <= k < |w.history| ==> Guarded(w, k))
    && HistoryLinked(w)
  }

  // ----------------------------------------------------------------- one step keeps it

  lemma GotoKeepsInv(w: World, pid: nat, phase: Phase, lock: Option<nat>)
    requires Inv(w) && pid in w.procs
    requires var w' := Goto(w.(lock := lock), pid, phase);
             Facts(w', pid) && (lock == w.lock || (w.lock.None? && lock == Some(pid))
                                || (w.lock == Some(pid) && lock.None?))
    ensures Inv(Goto(w.(lock := lock), pid, phase))
  {
    var w' := Goto(w.(lock := lock), pid, phase);
    forall k | k in w'.procs ensures Facts(w', k) {
      if k != pid { assert Facts(w, k); }
    }
    forall k | 0 <= k < |w'.history| ensures Guarded(w', k) { assert Guarded(w, k); }
  }

  lemma ReplaceKeepsInv(w: World, pid: nat, table: Table, outcome: Outcome)
    requires Inv(w) && pid in w.procs && w.procs[pid].phase.Cleared?
    requires w.procs[pid].job.Commit? ==>
               outcome == Committed && Reviewed(w.procs[pid].job)
                 && table == TableOf(Validated(w.procs[pid].job.candidate).value)
    ensures Inv(Replace(w, pid, table, outcome))
  {
    hide Reviewed, IsState, TableOf, Validated;
    var w' := Replace(w, pid, table, outcome);
    var n := |w.history|;
    assert Facts(w, pid);
    assert w'.history[n] == Version(pid, w.file, table);
    forall k | k in w'.procs ensures Facts(w', k) {
      if k != pid { OtherSurvives(w, w', pid, k); }
    }
    forall k | 0 <= k < |w'.history| ensures Guarded(w', k) {
      if k < n { assert Guarded(w, k); }
    }
  }

  lemma OtherSurvives(w: World, w': World, pid: nat, k: nat)
    requires Inv(w) && pid in w.procs && k in w.procs && k != pid && w.procs[pid].phase.Cleared?
    requires k in w'.procs && w'.procs[k] == w.procs[k] && w'.lock == w.lock && w.history <= w'.history
    ensures Facts(w', k)
  {
    assert Facts(w, pid) && Facts(w, k);
    if w.procs[k].job.Commit? && (w.procs[k].phase == Releasing(Committed) || w.procs[k].phase == Finished(Committed)) {
      var i :| 0 <= i < |w.history| && w.history[i].writer == k;
      assert w'.history[i].writer == k;
    }
  }

  /** A commit replaces the file only when cleared to; every other step moves its phase and perhaps the lock. */
  lemma CommitMoves(w: World, pid: nat, c: Choice)
    requires pid in w.procs && w.procs[pid].job.Commit? && Live(w.procs[pid]) && Facts(w, pid)
    ensures var p, w' := w.procs[pid], CommitStep(w, pid, c);
            || (&& p.phase.Cleared? && Validated(p.job.candidate).Some?
                && w' == Replace(w, pid, TableOf(Validated(p.job.candidate).value), Committed))
            || (&& w' == Goto(w.(lock := w'.lock), pid, w'.procs[pid].phase)
                && Facts(w', pid)
                && (w'.lock == w.lock || (w.lock.None? && w'.lock == Some(pid))
                    || (w.lock == Some(pid) && w'.lock.None?)))
  {
    hide Validated, LoadCurrent, TokenOf, TableOf, Writable;
    assert w.(lock := w.lock) == w;
  }

  lemma CommitKeepsInv(w: World, pid: nat, c: Choice)
    requires Inv(w) && pid in w.procs && w.procs[pid].job.Commit? && Live(w.procs[pid])
    ensures Inv(CommitStep(w, pid, c))
  {
    assert Facts(w, pid);
    hide Inv, CommitStep, Replace, Goto, Validated, TableOf, Reviewed;
    CommitMoves(w, pid, c);
    var p, w' := w.procs[pid], CommitStep(w, pid, c);
    var table := if Validated(p.job.candidate).Some? then TableOf(Validated(p.job.candidate).value) else Table([], []);
    if p.phase.Cleared? && w' == Replace(w, pid, table, Committed) && Validated(p.job.candidate).Some? {
      ReplaceKeepsInv(w, pid, table, Committed);
    } else {
      GotoKeepsInv(w, pid, w'.procs[pid].phase, w'.lock);
    }
  }

  lemma PlainKeepsInv(w: World, pid: nat, c: Choice)
    requires Inv(w) && pid in w.procs && w.procs[pid].job.PlainWrite? && Live(w.procs[pid])
    ensures Inv(PlainStep(w, pid, c))
  {
    var p := w.procs[pid];
    assert Facts(w, pid);
    hide Inv, Guarded, HistoryLinked, TableOf, Writable;
    var w' := PlainStep(w, pid, c);
    assert w.(lock := w.lock) == w;
    if p.phase.Cleared? && w'.history != w.history {
      ReplaceKeepsInv(w, pid, TableOf(p.job.roster), Written);
    } else {
      assert w' == Goto(w.(lock := w'.lock), pid, w'.procs[pid].phase);
      GotoKeepsInv(w, pid, w'.procs[pid].phase, w'.lock);
    }
  }

  lemma StepKeepsInv(w: World, e: Event)
    requires Inv(w) && Enabled(w, e)
    ensures Inv(Step(w, e))
  {
    match e
    case Act(pid, c) =>
      if w.procs[pid].job.Commit? { CommitKeepsInv(w, pid, c); } else { PlainKeepsInv(w, pid, c); }
    case _ => QuietKeepsInv(w, e);
  }

  lemma QuietKeepsInv(w: World, e: Event)
    requires Inv(w) && Enabled(w, e) && !e.Act?
    ensures Inv(Step(w, e))
  {
    var w' := Step(w, e);
    forall k | k in w'.procs ensures Facts(w', k) {
      if k in w.procs { assert Facts(w, k); }
    }
    forall k | 0 <= k < |w'.history| ensures Guarded(w', k) { assert Guarded(w, k); }
  }

  lemma {:induction false} InvariantOverRuns(trace: seq<World>, events: seq<Event>, i: nat)
    requires Run(trace, events) && Initial(trace[0]) && i < |trace|
    ensures Inv(trace[i])
  {
    hide Step, Enabled, Facts, Guarded;
    if i > 0 {
      InvariantOverRuns(trace, events, i - 1);
      StepKeepsInv(trace[i - 1], events[i - 1]);
    }
  }

  /** Histories grow and no process changes its job. */
  ghost predicate Grows(w: World, w': World) {
    w.history <= w'.history && forall pid :: pid in w.procs ==> pid in w'.procs && w'.procs[pid].job == w.procs[pid].job
  }

  lemma CommitGrows(w: World, pid: nat, c: Choice)
    requires pid in w.procs && w.procs[pid].job.Commit?
    ensures Grows(w, CommitStep(w, pid, c))
  {
    hide Validated, LoadCurrent, TokenOf, TableOf;
  }

  lemma PlainGrows(w: World, pid: nat, c: Choice)
    requires pid in w.procs && w.procs[pid].job.PlainWrite?
    ensures Grows(w, PlainStep(w, pid, c))
  {
    hide TableOf, Writable;
  }

  lemma EventGrowsHistory(w: World, e: Event)
    requires Enabled(w, e)
    ensures Grows(w, Step(w, e))
  {
    hide CommitStep, PlainStep;
    if e.Act? {
      if w.procs[e.pid].job.Commit? { CommitGrows(w, e.pid, e.choice); } else { PlainGrows(w, e.pid, e.choice); }
    }
  }

  // ------------------------------------------------------------------------ theorem

  /** Jobs never change, and replacements are never forgotten. */
  lemma {:induction false} HistoryOnlyGrows(trace: seq<World>, events: seq<Event>, i: nat, j: nat)
    requires Run(trace, events) && i <= j < |trace|
    ensures trace[i].history <= trace[j].history
    ensures forall pid :: pid in trace[i].procs ==>
        pid in trace[j].procs && trace[j].procs[pid].job == trace[i].procs[pid].job
    decreases j
  {
    hide Step, Enabled;
    if i < j {
      HistoryOnlyGrows(trace, events, i, j - 1);
      EventGrowsHistory(trace[j - 1], events[j - 1]);
    }
  }

  /**
   A plan made at time `i` names the file's state by its token. If a commit under that token
   has succeeded by time `j`, then the file it replaced held the planned roster: whatever
   anyone wrote in between, no other roster was overwritten unseen. What it wrote is the
   validated candidate, under the token the commit reports; the file then holds that roster,
   and has that token, exactly when the first header survives decoding. From then on both
   stay in the file's recorded history.
   */
  lemma CommitReplacesThePlanned(trace: seq<World>, events: seq<Event>, i: nat, j: nat, pid: nat)
    requires Run(trace, events) && Initial(trace[0]) && i <= j < |trace|
    requires pid in trace[j].procs && trace[j].procs[pid].job.Commit?
    requires trace[j].procs[pid].phase == Finished(Committed)
    requires IsState(trace[j].procs[pid].job.classId, trace[i].file, trace[j].procs[pid].job.expectedCurrent)
    ensures exists k | 0 <= k < |trace[j].history| :: Replaces(trace[j].history[k], pid, trace[j].procs[pid].job,
                                                               trace[i].file)
    ensures HistoryLinked(trace[j])
  {
    hide Run, IsState, Reviewed;
    InvariantOverRuns(trace, events, j);
    var w := trace[j];
    assert Facts(w, pid);
    var k :| 0 <= k < |w.history| && w.history[k].writer == pid;
    assert Guarded(w, k);
    CommittedVersion(w.history[k], pid, w.procs[pid].job, trace[i].file);
  }

  /**
   The file in which `candidate` was written holds it, under its own token, exactly when the
   first header survives.
   */
  ghost predicate HoldsIfUnmarked(classId: string, file: Option<Table>, candidate: Roster) {
    && file.Some? && candidate.columns != [] && LoadTable(file.value) == FileMeaning(candidate)
    && (LoadCurrent(classId, file) == Some(Some(candidate)) <==> !Marked(candidate))
    && (IsState(classId, file, TokenOf(Some(candidate))) <==> !Marked(candidate))
  }

  lemma WrittenHoldsIfUnmarked(classId: string, candidate: Roster)
    requires RosterValid(candidate) && candidate.classId == classId
    ensures HoldsIfUnmarked(classId, Some(TableOf(candidate)), candidate)
  {
    hide RosterValid, TableOf, LoadTable, FileMeaning, Unmarked;
    WrittenRosterLoads(candidate);
  }

  /** The version replaced loads as what `planned` loaded as; the new one is the reviewed candidate's. */
  ghost predicate Replaces(v: Version, pid: nat, job: Job, planned: Option<Table>)
    requires job.Commit?
  {
    && v.writer == pid
    && LoadCurrent(job.classId, v.before) == LoadCurrent(job.classId, planned)
    && Validated(job.candidate).Some? && HoldsIfUnmarked(job.classId, Some(v.after), Validated(job.candidate).value)
    && TokenOf(Validated(job.candidate)) == job.expectedCandidate
  }

  lemma CommittedVersion(v: Version, pid: nat, job: Job, planned: Option<Table>)
    requires job.Commit? && Reviewed(job) && v.writer == pid && v.after == TableOf(Validated(job.candidate).value)
    requires IsState(job.classId, v.before, job.expectedCurrent) && IsState(job.classId, planned, job.expectedCurrent)
    ensures Replaces(v, pid, job, planned)
  {
    hide Validated, TableOf, LoadTable, TokenOf, HoldsIfUnmarked, RosterValid;
    SameTokenSameState(job.classId, v.before, planned);
    ValidatedIsValid(job.candidate);
    WrittenHoldsIfUnmarked(job.classId, Validated(job.candidate).value);
  }

  /** A commit that does not succeed leaves the file exactly as the last replacement left it. */
  lemma OnlyReplacementsChangeTheFile(w: World, e: Event)
    requires Enabled(w, e) && Step(w, e).file != w.file
    ensures e.Act? && Step(w, e).history == w.history + [Version(e.pid, w.file, Step(w, e).file.value)]
    ensures var o := Step(w, e).procs[e.pid].phase; o == Releasing(Committed) || o == Releasing(Written)
  {
    hide Validated, LoadCurrent, TokenOf, TableOf, Writable;
  }

  /** The five required columns are there, and every student is of the roster's class. */
  ghost predicate Complete(r: Roster) {
    && "class_id" in r.columns && "student_id" in r.columns && "last_name" in r.columns
    && "first_name" in r.columns && "period" in r.columns
    && forall k :: 0 <= k < |r.students| ==> r.students[k].classId == r.classId
  }

  /**
   A plain write that holds the lock replaces the file exactly when the replacement works, the file
   is not there or may be overwritten, the five required columns are among the roster's, and all its
   students are of its class; it then holds the roster's table, and in every other case what it held.
   */
  lemma PlainWriteExactly(w: World, pid: nat, c: Choice)
    requires pid in w.procs && w.procs[pid].job.PlainWrite? && w.procs[pid].phase.Cleared?
    ensures var p, w' := w.procs[pid], Step(w, Act(pid, c));
            var r, done := p.job.roster, c.ok && (w.file.None? || p.phase.overwrite) && Complete(p.job.roster);
            && w'.procs[pid].phase == Releasing(if done then Written else WriteError)
            && w'.file == (if done then Some(TableOf(r)) else w.file)
            && w'.history == if done then w.history + [Version(pid, w.file, TableOf(r))] else w.history
  {
    hide TableOf;
    var r := w.procs[pid].job.roster;
    RequiredIsListed();
    assert Writable(r) <==> Complete(r) by {
      assert forall s :: s in r.students <==> exists k :: 0 <= k < |r.students| && r.students[k] == s;
    }
  }

  /** A plain write waits for nothing: it takes a free lock or fails, and remembers whether it may overwrite. */
  lemma PlainTakesLock(w: World, pid: nat, c: Choice)
    requires pid in w.procs && w.procs[pid].job.PlainWrite? && w.procs[pid].phase.Prepared?
    ensures var p, v := w.procs[pid], Step(w, Act(pid, c));
            && v.file == w.file && v.history == w.history
            && (if w.lock.None? && c.ok then
                  v.lock == Some(pid) && v.procs[pid].phase == Cleared(p.job.overwrite)
                else v.lock == w.lock && v.procs[pid].phase == Finished(WriteError))
  {
  }

  // ------------------------------------------------------- the commit run on its own

  /** Which of a call's file operations work. */
  datatype Faults = Faults(lockCreated: bool, fileRead: bool, replaced: bool, lockRemoved: bool)

  /** A commit about to begin, alone with whoever may hold the lock. */
  ghost function Begun(job: Job, file: Option<Table>, locked: bool): World {
    World(file, if locked then Some(1) else None, map[0 := Proc(job, Waiting)], [])
  }

  /** Which of the faults concerns the operation a phase is about to make. */
  function ChoiceAt(phase: Phase, io: Faults): Choice {
    Choice(match phase
           case Prepared => io.lockCreated
           case Locked => io.fileRead
           case Cleared(_) => io.replaced
           case _ => true, io.lockRemoved)
  }

  /** At most `n` steps of the commit, until it has ended. */
  ghost function Alone(w: World, io: Faults, n: nat): World
    decreases n
  {
    if n == 0 || 0 !in w.procs || !w.procs[0].job.Commit? || !Live(w.procs[0]) then w
    else Alone(CommitStep(w, 0, ChoiceAt(w.procs[0].phase, io)), io, n - 1)
  }

  /** Where the commit's five steps lead. */
  lemma CommitEnds(job: Job, file: Option<Table>, locked: bool, io: Faults)
    requires job.Commit?
    ensures var validated, current := Validated(job.candidate), LoadCurrent(job.classId, file);
            var v := Alone(Begun(job, file, locked), io, 5);
            var taken := Reviewed(job) && !locked && io.lockCreated;
            var outcome :=
              if validated.None? then CandidateInvalid
              else if validated.value.classId != job.classId then CandidateClassMismatch
              else if TokenOf(validated) != job.expectedCandidate then CandidateChanged
              else if locked then Conflict
              else if !io.lockCreated then WriteError
              else if !io.fileRead || current.None? then ReadError
              else if TokenOf(current.value) != job.expectedCurrent then Conflict
              else if !io.replaced then WriteError
              else Committed;
            && 0 in v.procs && v.procs[0].phase == Finished(outcome)
            && v.file == (if outcome.Committed? then Some(TableOf(validated.value)) else file)
            && (v.lock.Some? <==> locked || (taken && !io.lockRemoved))
  {
    hide Validated, LoadCurrent, TokenOf, TableOf;
    NoFileIsAState(job.classId, file);
    var w0 := Begun(job, file, locked);
    var w1 := CommitStep(w0, 0, ChoiceAt(w0.procs[0].phase, io));
    var w2 := if Live(w1.procs[0]) then CommitStep(w1, 0, ChoiceAt(w1.procs[0].phase, io)) else w1;
    var w3 := if Live(w2.procs[0]) then CommitStep(w2, 0, ChoiceAt(w2.procs[0].phase, io)) else w2;
    var w4 := if Live(w3.procs[0]) then CommitStep(w3, 0, ChoiceAt(w3.procs[0].phase, io)) else w3;
    var w5 := if Live(w4.procs[0]) then CommitStep(w4, 0, ChoiceAt(w4.procs[0].phase, io)) else w4;
    FiveSteps(w0, w1, w2, w3, w4, w5, io);
  }

  lemma NoFileIsAState(classId: string, file: Option<Table>)
    ensures var current := LoadCurrent(classId, file);
            current.Some? ==> (current.value.None? <==> file.None?)
  {
  }

  lemma FiveSteps(w0: World, w1: World, w2: World, w3: World, w4: World, w5: World, io: Faults)
    requires OneStep(w0, w1, io) && OneStep(w1, w2, io) && OneStep(w2, w3, io) && OneStep(w3, w4, io)
    requires OneStep(w4, w5, io)
    ensures Alone(w0, io, 5) == w5
  {
    hide CommitStep;
    StepThenAlone(w4, w5, io, 0);
    StepThenAlone(w3, w4, io, 1);
    StepThenAlone(w2, w3, io, 2);
    StepThenAlone(w1, w2, io, 3);
    StepThenAlone(w0, w1, io, 4);
  }

  ghost predicate OneStep(w: World, v: World, io: Faults) {
    if 0 in w.procs && w.procs[0].job.Commit? && Live(w.procs[0]) then
      v == CommitStep(w, 0, ChoiceAt(w.procs[0].phase, io))
    else v == w
  }

  lemma StepThenAlone(w: World, v: World, io: Faults, n: nat)
    requires OneStep(w, v, io)
    ensures Alone(w, io, n + 1) == Alone(v, io, n)
  {
    hide CommitStep;
  }

  class RosterFile {
    var file: Option<Table>
    var locked: bool

    /**
     `commit_roster_import`, nobody else writing: a run of the commit's steps. It succeeds exactly when the candidate is
     the reviewed one, the lock is free, the file still is the reviewed state and no file
     operation fails; it changes the file only when it succeeds, and never leaves a lock it
     could remove.
     */
    method CommitRosterImport(classId: string, candidate: Roster, expectedCurrent: StateToken,
                              expectedCandidate: StateToken, io: Faults)
      returns (outcome: Outcome)
      modifies this
      ensures var job := Commit(classId, candidate, expectedCurrent, expectedCandidate);
              && (outcome.Committed? <==>
                    && Reviewed(job) && !old(locked) && IsState(classId, old(file), expectedCurrent)
                    && io.lockCreated && io.fileRead && io.replaced)
              && (outcome.Committed? ==> file == Some(TableOf(Validated(candidate).value)))
              && (!outcome.Committed? ==> file == old(file))
              && (locked <==> old(locked) || (Reviewed(job) && io.lockCreated && !io.lockRemoved))
              && (outcome.Conflict? <==>
                    && Reviewed(job)
                    && (old(locked) || (&& io.lockCreated && io.fileRead && LoadCurrent(classId, old(file)).Some?
                                        && !IsState(classId, old(file), expectedCurrent))))
      ensures var job := Commit(classId, candidate, expectedCurrent, expectedCandidate);
              var v := Alone(Begun(job, old(file), old(locked)), io, 5);
              0 in v.procs && v.procs[0].phase == Finished(outcome) && v.file == file && (v.lock.Some? <==> locked)
    {
      CommitEnds(Commit(classId, candidate, expectedCurrent, expectedCandidate), file, locked, io);
      hide Validated, LoadCurrent, TokenOf, TableOf, RosterValid, Alone;
      var validated := ValidateRosterInstance(candidate);
      if validated.Failure? { return CandidateInvalid; }
      var roster := validated.value;
      if roster.classId != classId { return CandidateClassMismatch; }
      if TokenOf(Some(roster)) != expectedCandidate { return CandidateChanged; }
      if locked { return Conflict; }
      if !io.lockCreated { return WriteError; }
      locked := true;
      var current := LoadCurrentState(classId, file);
      if !io.fileRead || current.None? {
        outcome := ReadError;
      } else if TokenOf(current.value) != expectedCurrent {
        outcome := Conflict;
      } else if !io.replaced {
        outcome := WriteError;
      } else {
        file := Some(TableOf(roster));
        outcome := Committed;
      }
      locked := !io.lockRemoved;
    }

    /**
     Plan, then commit at once: without faults it always succeeds, and the file then holds the
     candidate exactly when the candidate's first header survives decoding.
     */
    method PlanThenCommit(classId: string, candidate: Roster, io: Faults)
      returns (plan: Result<Plan, PlanError>, outcome: Outcome)
      requires !locked && io.lockCreated && io.fileRead && io.replaced
      modifies this
      ensures plan.Success? <==> Plannable(classId, candidate, old(file))
      ensures plan.Success? ==> outcome.Committed? && HoldsIfUnmarked(classId, file, plan.value.candidate)
      ensures plan.Failure? ==> file == old(file)
    {
      hide Validated, LoadTable, TokenOf, TableOf, RosterValid, Sorts, Apply, UnionIds, HoldsIfUnmarked;
      plan := PlanRosterImport(classId, candidate, file);
      if plan.Failure? { return plan, CandidateInvalid; }
      ValidatedIsValid(candidate);
      WrittenHoldsIfUnmarked(classId, plan.value.candidate);
      outcome := CommitRosterImport(classId, candidate, plan.value.currentToken, plan.value.candidateToken, io);
    }
  }
}
