/**
 The compare-and-swap store behind registrations and period calendars: an immutable
 revision is created exclusively, then a pointer is replaced atomically. Generic in the
 record type, its revision number and its transition relation.
 */
module RevisionStore {
  import opened Foundations

  datatype Rules<!T> = Rules(rev: T -> int, step: (T, T) -> bool)

  /** A transition strictly raises the revision. */
  ghost predicate Raising<T(!new)>(u: Rules<T>) {
    forall a, b :: u.step(a, b) ==> u.rev(a) < u.rev(b)
  }

  // --------------------------------------------------------------------- state

  datatype Store<T> = Store(revisions: map<int, File<T>>, pointer: Option<int>)

  datatype Job<T> = Write(candidate: T, expected: Option<int>) | Read

  datatype Outcome<T> =
    | Written
    | Conflict
    | IntegrityError
    | WriteError
    | ReadError
    | InvalidTransition
    | Loaded(record: Option<T>)

  datatype Phase<T> =
    | Waiting
    | Prepared
    | Locked
    | Pointed(current: Option<int>)   // pointer read
    | Ready
    | Filling
    | Verifying
    | Publishing                      // revision verified, pointer not yet replaced
    | Confirming                      // pointer replaced
    | Releasing(pending: Outcome<T>)
    | Loading(number: int)            // a reader between pointer and revision
    | Finished(outcome: Outcome<T>)
    | Crashed

  /** `created` remembers whether the process ever created its revision file. */
  datatype Proc<T> = Proc(job: Job<T>, phase: Phase<T>, created: bool)

  /** `history` lists the revisions in the order they were selected. */
  datatype World<T> = World(store: Store<T>, lock: Option<nat>, procs: map<nat, Proc<T>>, history: seq<T>)

  datatype Choice = Choice(ok: bool, residue: Residue)

  datatype Effect<T> = Nothing | Put(number: int, file: File<T>) | Drop(number: int) | Select(record: T)

  datatype LockEffect = Keep | Take | Free

  datatype Move<T> = Move(proc: Proc<T>, effect: Effect<T>, lock: LockEffect)

  // --------------------------------------------------------------------- moves

  function Goto<T>(p: Proc<T>, phase: Phase<T>): Move<T> { Move(p.(phase := phase), Nothing, Keep) }

  function Stop<T>(p: Proc<T>, outcome: Outcome<T>): Move<T> { Goto(p, Releasing(outcome)) }

  predicate Loads<T>(u: Rules<T>, s: Store<T>, n: int) {
    n in s.revisions && s.revisions[n].Complete? && u.rev(s.revisions[n].value) == n
  }

  /** `_validate_write_state` once the pointer has been read. */
  function Verdict<T(==)>(u: Rules<T>, s: Store<T>, candidate: T, expected: Option<int>, current: Option<int>)
    : Option<Outcome<T>>
  {
    if exists n :: n in s.revisions && !Loads(u, s, n) then Some(ReadError)
    else if expected.None? then
      if current.Some? then Some(Conflict)
      else if s.revisions != map[] then Some(IntegrityError)
      else None
    else if current.None? then Some(Conflict)
    else if current != expected then Some(Conflict)
    else if !Loads(u, s, current.value) then Some(ReadError)
    else if !u.step(s.revisions[current.value].value, candidate) then Some(InvalidTransition)
    else if u.rev(candidate) in s.revisions then Some(Conflict)
    else if exists n :: n in s.revisions && n > current.value then Some(IntegrityError)
    else None
  }

  function WriteMove<T(==)>(u: Rules<T>, w: World<T>, p: Proc<T>, c: Choice): Move<T>
    requires p.job.Write?
  {
    var r := p.job.candidate;
    var n := u.rev(r);
    match p.phase
    case Waiting =>
      if p.job.expected.None? && n != 1 then Goto(p, Finished(Conflict))
      // An initial registration needs its producer directory; every write makes its own.
      else if !c.ok then Goto(p, Finished(WriteError))
      else Goto(p, Prepared)
    case Prepared =>
      if w.lock.Some? then Goto(p, Finished(Conflict))
      else if c.ok then Move(p.(phase := Locked), Nothing, Take)
      // A lock file that was created but failed to close is removed on the way out, if it can be.
      else Move(p.(phase := Finished(WriteError)), Nothing, if c.residue.Removed? then Keep else Take)
    case Locked => if c.ok then Goto(p, Pointed(w.store.pointer)) else Stop(p, ReadError)
    case Pointed(current) =>
      if !c.ok then Stop(p, ReadError)
      else
        var verdict := Verdict(u, w.store, r, p.job.expected, current);
        if verdict.Some? then Stop(p, verdict.value) else Goto(p, Ready)
    case Ready =>
      if n in w.store.revisions then Stop(p, Conflict)
      else if !c.ok then Stop(p, WriteError)
      else Move(p.(phase := Filling, created := true), Put(n, Partial), Keep)
    case Filling =>
      if c.ok then Move(p.(phase := Verifying), Put(n, Complete(r)), Keep)
      else Move(p.(phase := Releasing(WriteError)),
        match c.residue
        case Removed => Drop(n)
        case LeftPartial => Nothing
        case LeftComplete => Put(n, Complete(r)), Keep)
    case Verifying =>
      if c.ok then Goto(p, Publishing)
      else Move(p.(phase := Releasing(WriteError)), if c.residue.Removed? then Drop(n) else Nothing, Keep)
    // A failed replacement leaves the new revision behind as an orphan.
    case Publishing =>
      if c.ok then Move(p.(phase := Confirming), Select(r), Keep) else Stop(p, WriteError)
    case Confirming => if c.ok then Stop(p, Written) else Stop(p, IntegrityError)
    case Releasing(pending) =>
      Move(p.(phase := Finished(pending)), Nothing, if c.residue.Removed? then Free else Keep)
    case _ => Goto(p, p.phase)
  }

  /** `load_current`: the pointer, then the revision it names, in two separate reads. */
  function ReadMove<T(==)>(u: Rules<T>, w: World<T>, p: Proc<T>, c: Choice): Move<T> {
    match p.phase
    case Waiting =>
      if !c.ok then Goto(p, Finished(ReadError))
      else if w.store.pointer.None? then Goto(p, Finished(Loaded(None)))
      else Goto(p, Loading(w.store.pointer.value))
    case Loading(n) =>
      if !c.ok then Goto(p, Finished(ReadError))
      else if n !in w.store.revisions then Goto(p, Finished(IntegrityError))
      else if !Loads(u, w.store, n) then Goto(p, Finished(ReadError))
      else Goto(p, Finished(Loaded(Some(w.store.revisions[n].value))))
    case _ => Goto(p, p.phase)
  }

  function NextMove<T(==)>(u: Rules<T>, w: World<T>, p: Proc<T>, c: Choice): Move<T> {
    if p.job.Write? then WriteMove(u, w, p, c) else ReadMove(u, w, p, c)
  }

  function ApplyMove<T>(u: Rules<T>, w: World<T>, pid: nat, m: Move<T>): World<T> {
    var store := match m.effect
      case Nothing => w.store
      case Put(n, file) => w.store.(revisions := w.store.revisions[n := file])
      case Drop(n) => w.store.(revisions := w.store.revisions - {n})
      case Select(r) => w.store.(pointer := Some(u.rev(r)));
    var lock := match m.lock
      case Keep => w.lock
      case Take => Some(pid)
      case Free => None;
    World(store, lock, w.procs[pid := m.proc], if m.effect.Select? then w.history + [m.effect.record] else w.history)
  }

  // -------------------------------------------------------------------- events

  datatype Event<T> = Begin(pid: nat, job: Job<T>) | Act(pid: nat, choice: Choice) | Crash(pid: nat) | ClearLock

  predicate Live<T>(p: Proc<T>) { !p.phase.Finished? && !p.phase.Crashed? }

  predicate Enabled<T>(w: World<T>, e: Event<T>) {
    match e
    case Begin(pid, _) => pid !in w.procs
    case Act(pid, _) => pid in w.procs && Live(w.procs[pid])
    case Crash(pid) => pid in w.procs && Live(w.procs[pid])
    case ClearLock => w.lock.Some? && (w.lock.value in w.procs ==> !Live(w.procs[w.lock.value]))
  }

  function Apply<T(==)>(u: Rules<T>, w: World<T>, e: Event<T>): World<T>
    requires Enabled(w, e)
  {
    match e
    case Begin(pid, job) => w.(procs := w.procs[pid := Proc(job, Waiting, false)])
    case Act(pid, c) => ApplyMove(u, w, pid, NextMove(u, w, w.procs[pid], c))
    case Crash(pid) => w.(procs := w.procs[pid := w.procs[pid].(phase := Crashed)])
    case ClearLock => w.(lock := None)
  }

  ghost predicate Run<T>(u: Rules<T>, trace: seq<World<T>>, events: seq<Event<T>>) {
    && |trace| == |events| + 1
    && (forall i :: 0 <= i < |events| ==>
          Enabled(trace[i], events[i]) && trace[i + 1] == Apply(u, trace[i], events[i]))
  }

  predicate Initial<T(==)>(w: World<T>) {
    w == World(Store(map[], None), None, map[], [])
  }

  // ----------------------------------------------------------------- invariant

  ghost predicate Selected<T>(u: Rules<T>, h: seq<T>, n: int) {
    exists i :: 0 <= i < |h| && u.rev(h[i]) == n
  }

  /** Selected revisions follow one another by the transition relation, starting from revision 1. */
  ghost predicate HistoryValid<T>(u: Rules<T>, h: seq<T>) {
    && (h != [] ==> u.rev(h[0]) == 1)
    && (forall i :: 0 < i < |h| ==> u.step(h[i - 1], h[i]))
  }

  ghost predicate PointerAgrees<T>(u: Rules<T>, w: World<T>) {
    && w.store.pointer == (if w.history == [] then None else Some(u.rev(w.history[|w.history| - 1])))
    && (forall i :: 0 <= i < |w.history| ==>
          u.rev(w.history[i]) in w.store.revisions && w.store.revisions[u.rev(w.history[i])] == Complete(w.history[i]))
  }

  /** Not yet selected: everything the pointer's history does not account for. */
  ghost predicate Beyond<T>(u: Rules<T>, w: World<T>, n: int) {
    n in w.store.revisions && !Selected(u, w.history, n)
  }

  ghost predicate Surplus<T>(u: Rules<T>, w: World<T>) {
    && (forall n :: Beyond(u, w, n) && w.store.pointer.Some? ==> n > w.store.pointer.value)
    && (forall m, n :: Beyond(u, w, m) && Beyond(u, w, n) ==> m == n)
    && (forall n :: n in w.store.revisions && w.store.revisions[n].Complete? ==>
          u.rev(w.store.revisions[n].value) == n)
  }

  /** The candidate is the successor of what is selected, and its writer expected that. */
  ghost predicate Extends<T>(u: Rules<T>, w: World<T>, p: Proc<T>)
    requires p.job.Write?
  {
    && p.job.expected == w.store.pointer
    && (if w.history == [] then u.rev(p.job.candidate) == 1
        else u.step(w.history[|w.history| - 1], p.job.candidate))
  }

  ghost predicate Facts<T>(u: Rules<T>, w: World<T>, p: Proc<T>) {
    && (p.job.Read? && p.phase.Loading? ==> Selected(u, w.history, p.phase.number))
    && (p.job.Read? ==> p.phase != Finished(IntegrityError))
    && (p.job.Read? && p.phase.Finished? && p.phase.outcome.Loaded? && p.phase.outcome.record.Some? ==>
          p.phase.outcome.record.value in w.history)
    && (p.job.Write? ==>
        (p.phase.Waiting? || p.phase.Prepared? || p.phase.Locked? || p.phase.Pointed? || p.phase.Ready? ==> !p.created)
        && ((p.phase.Releasing? && p.phase.pending.Conflict?) || (p.phase.Finished? && p.phase.outcome.Conflict?) ==>
            !p.created)
        && (var n := u.rev(p.job.candidate);
            && (!p.phase.Waiting? && !p.phase.Finished? && !p.phase.Crashed? && p.job.expected.None? ==> n == 1)
            && match p.phase
            case Pointed(current) => current == w.store.pointer
            case Ready => Extends(u, w, p) && forall k :: !Beyond(u, w, k)
            case Filling => Extends(u, w, p) && Beyond(u, w, n) && w.store.revisions[n] == Partial
            case Verifying => Extends(u, w, p) && Beyond(u, w, n) && w.store.revisions[n] == Complete(p.job.candidate)
            case Publishing => Extends(u, w, p) && Beyond(u, w, n) && w.store.revisions[n] == Complete(p.job.candidate)
            case Confirming => p.job.candidate in w.history
            case Releasing(o) => o.Written? ==> p.job.candidate in w.history
            case Finished(o) => o.Written? ==> p.job.candidate in w.history
            case _ => true))
  }

  predicate Critical<T>(p: Proc<T>) {
    p.job.Write? && Live(p) && !p.phase.Waiting? && !p.phase.Prepared?
  }

  ghost predicate LockHeld<T>(w: World<T>) {
    forall pid :: pid in w.procs && Critical(w.procs[pid]) ==> w.lock == Some(pid)
  }

  ghost predicate Inv<T>(u: Rules<T>, w: World<T>) {
    && HistoryValid(u, w.history) && PointerAgrees(u, w) && Surplus(u, w) && LockHeld(w)
    && (forall pid :: pid in w.procs ==> Facts(u, w, w.procs[pid]))
  }

  // -------------------------------------------------------- one step keeps it all

  lemma {:induction false} HistoryRises<T(!new)>(u: Rules<T>, h: seq<T>, i: nat, j: nat)
    requires Raising(u) && HistoryValid(u, h) && i < j < |h|
    ensures u.rev(h[i]) < u.rev(h[j])
    decreases j
  {
    assert u.step(h[j - 1], h[j]);
    if i < j - 1 { HistoryRises(u, h, i, j - 1); }
  }

  /** The revision a fitting candidate carries has never been selected. */
  lemma CandidateIsNew<T(!new)>(u: Rules<T>, w: World<T>, p: Proc<T>)
    requires Raising(u) && HistoryValid(u, w.history) && p.job.Write? && Extends(u, w, p)
    ensures !Selected(u, w.history, u.rev(p.job.candidate))
    ensures w.history != [] ==> u.rev(w.history[|w.history| - 1]) < u.rev(p.job.candidate)
  {
    forall i | 0 <= i < |w.history| ensures u.rev(w.history[i]) != u.rev(p.job.candidate) {
      if i < |w.history| - 1 { HistoryRises(u, w.history, i, |w.history| - 1); }
    }
  }

  /** What a step changes in the store, and the right to change it. */
  ghost predicate LegalEffect<T(!new)>(u: Rules<T>, w: World<T>, p: Proc<T>, e: Effect<T>) {
    match e
    case Nothing => true
    case Put(n, Partial) =>
      p.job.Write? && n == u.rev(p.job.candidate) && Extends(u, w, p) && forall k :: !Beyond(u, w, k)
    case Put(n, Complete(r)) => p.job.Write? && r == p.job.candidate && n == u.rev(r) && Beyond(u, w, n)
    case Drop(n) => Beyond(u, w, n)
    case Select(r) =>
      && p.job.Write? && r == p.job.candidate && Extends(u, w, p) && Beyond(u, w, u.rev(r))
      && w.store.revisions[u.rev(r)] == Complete(r)
  }

  /** The store invariant: everything but the processes. */
  ghost predicate StoreInv<T(!new)>(u: Rules<T>, w: World<T>) {
    HistoryValid(u, w.history) && PointerAgrees(u, w) && Surplus(u, w)
  }

  lemma LegalKeepsStore<T(!new)>(u: Rules<T>, w: World<T>, pid: nat, p: Proc<T>, m: Move<T>)
    requires Raising(u) && StoreInv(u, w) && LegalEffect(u, w, p, m.effect)
    ensures StoreInv(u, ApplyMove(u, w, pid, m))
  {
    match m.effect
    case Nothing => SameStore(u, w, ApplyMove(u, w, pid, m));
    case Put(n, file) =>
      if file.Partial? { CandidateIsNew(u, w, p); }
      PutKeepsStore(u, w, n, file, ApplyMove(u, w, pid, m));
    case Drop(n) => DropKeepsStore(u, w, n, ApplyMove(u, w, pid, m));
    case Select(r) =>
      CandidateIsNew(u, w, p);
      SelectKeepsStore(u, w, p, ApplyMove(u, w, pid, m));
  }

  lemma SameStore<T(!new)>(u: Rules<T>, w: World<T>, w': World<T>)
    requires StoreInv(u, w) && w'.store == w.store && w'.history == w.history
    ensures StoreInv(u, w')
  {
    assert forall n :: Beyond(u, w, n) <==> Beyond(u, w', n);
  }

  lemma PutKeepsStore<T(!new)>(u: Rules<T>, w: World<T>, n: int, file: File<T>, w': World<T>)
    requires StoreInv(u, w) && w'.history == w.history
    requires w'.store == w.store.(revisions := w.store.revisions[n := file])
    requires !Selected(u, w.history, n) && (file.Complete? ==> u.rev(file.value) == n)
    requires (forall k :: Beyond(u, w, k) ==> k == n)
    requires w.store.pointer.Some? ==> n > w.store.pointer.value
    ensures StoreInv(u, w')
  {
    assert forall k :: Beyond(u, w', k) <==> Beyond(u, w, k) || k == n;
    assert forall i :: 0 <= i < |w.history| ==> u.rev(w.history[i]) != n;
  }

  lemma DropKeepsStore<T(!new)>(u: Rules<T>, w: World<T>, n: int, w': World<T>)
    requires StoreInv(u, w) && Beyond(u, w, n) && w'.history == w.history
    requires w'.store == w.store.(revisions := w.store.revisions - {n})
    ensures StoreInv(u, w')
  {
    assert forall k :: Beyond(u, w', k) ==> Beyond(u, w, k);
    assert forall i :: 0 <= i < |w.history| ==> u.rev(w.history[i]) != n;
  }

  lemma SelectKeepsStore<T(!new)>(u: Rules<T>, w: World<T>, p: Proc<T>, w': World<T>)
    requires StoreInv(u, w) && p.job.Write? && Extends(u, w, p)
    requires Beyond(u, w, u.rev(p.job.candidate))
    requires w.store.revisions[u.rev(p.job.candidate)] == Complete(p.job.candidate)
    requires w'.history == w.history + [p.job.candidate]
    requires w'.store == w.store.(pointer := Some(u.rev(p.job.candidate)))
    ensures StoreInv(u, w')
    ensures forall k :: !Beyond(u, w', k)
  {
    var h, h' := w.history, w'.history;
    forall i | 0 < i < |h'| ensures u.step(h'[i - 1], h'[i]) {
      if i < |h| { assert u.step(h[i - 1], h[i]); }
    }
    SelectedGrows(u, h, p.job.candidate);
    assert forall k :: Beyond(u, w', k) ==> Beyond(u, w, k);
  }

  lemma SelectedGrows<T(!new)>(u: Rules<T>, h: seq<T>, r: T)
    ensures forall n :: Selected(u, h, n) ==> Selected(u, h + [r], n)
    ensures Selected(u, h + [r], u.rev(r))
  {
    forall n | Selected(u, h, n) ensures Selected(u, h + [r], n) {
      var i :| 0 <= i < |h| && u.rev(h[i]) == n;
      assert u.rev((h + [r])[i]) == n;
    }
    assert u.rev((h + [r])[|h|]) == u.rev(r);
  }

  /** A verdict of "go ahead" means the candidate fits and nothing lies beyond the pointer. */
  lemma ApprovedFits<T(!new)>(u: Rules<T>, w: World<T>, p: Proc<T>)
    requires Raising(u) && StoreInv(u, w) && p.job.Write?
    requires p.job.expected.None? ==> u.rev(p.job.candidate) == 1
    requires Verdict(u, w.store, p.job.candidate, p.job.expected, w.store.pointer).None?
    ensures Extends(u, w, p) && forall k :: !Beyond(u, w, k)
  {
    if w.history != [] {
      assert w.store.revisions[w.store.pointer.value] == Complete(w.history[|w.history| - 1]);
    }
  }

  /** What one move of a live process guarantees, given the invariant. */
  ghost predicate GoodMove<T(!new)>(u: Rules<T>, w: World<T>, pid: nat, p: Proc<T>, m: Move<T>) {
    && m.proc.job == p.job
    && LegalEffect(u, w, p, m.effect)
    && Facts(u, ApplyMove(u, w, pid, m), m.proc)
    && (!m.effect.Nothing? ==> Critical(p))
    && (m.lock.Take? ==> w.lock.None?)
    && (m.lock.Free? ==> Critical(p) && !Critical(m.proc))
    && (Critical(m.proc) && !m.lock.Take? ==> Critical(p))
  }

  lemma ReadStep<T(!new)>(u: Rules<T>, w: World<T>, pid: nat, p: Proc<T>, c: Choice)
    requires StoreInv(u, w) && Facts(u, w, p) && p.job.Read? && Live(p)
    ensures GoodMove(u, w, pid, p, ReadMove(u, w, p, c))
  {
    if w.store.pointer.Some? {
      assert u.rev(w.history[|w.history| - 1]) == w.store.pointer.value;
    }
  }

  lemma WriteStep<T(!new)>(u: Rules<T>, w: World<T>, pid: nat, p: Proc<T>, c: Choice)
    requires Raising(u) && StoreInv(u, w) && Facts(u, w, p) && p.job.Write? && Live(p)
    ensures GoodMove(u, w, pid, p, WriteMove(u, w, p, c))
  {
    hide HistoryValid, PointerAgrees, Surplus, Selected;
    var m := WriteMove(u, w, p, c);
    var w' := ApplyMove(u, w, pid, m);
    match p.phase
    case Pointed(_) =>
      if m.proc.phase.Ready? {
        ApprovedFits(u, w, p);
        assert forall k :: Beyond(u, w', k) <==> Beyond(u, w, k);
      }
    case Ready => if m.proc.phase.Filling? { CandidateIsNew(u, w, p); }
    case Publishing =>
      if m.effect.Select? { assert w'.history[|w.history|] == p.job.candidate; }
    case _ =>
  }

  lemma OtherFactsSurvive<T(!new)>(u: Rules<T>, w: World<T>, pid: nat, m: Move<T>, k: nat)
    requires LockHeld(w) && pid in w.procs && k in w.procs && k != pid
    requires GoodMove(u, w, pid, w.procs[pid], m) && Facts(u, w, w.procs[k])
    ensures Facts(u, ApplyMove(u, w, pid, m), w.procs[k])
  {
    var w' := ApplyMove(u, w, pid, m);
    if m.effect.Select? { SelectedGrows(u, w.history, m.effect.record); }
    if m.effect.Nothing? {
      assert forall n :: Beyond(u, w', n) <==> Beyond(u, w, n);
    } else {
      assert !Critical(w.procs[k]);
    }
  }

  lemma GoodMoveKeepsInv<T(!new)>(u: Rules<T>, w: World<T>, pid: nat, m: Move<T>)
    requires Raising(u) && Inv(u, w) && pid in w.procs && Live(w.procs[pid]) && GoodMove(u, w, pid, w.procs[pid], m)
    ensures Inv(u, ApplyMove(u, w, pid, m))
  {
    hide Facts, StoreInv, Critical;
    var w' := ApplyMove(u, w, pid, m);
    assert StoreInv(u, w') by { StoreInvOf(u, w); LegalKeepsStore(u, w, pid, w.procs[pid], m); }
    StoreInvOf(u, w');
    forall k | k in w'.procs ensures Facts(u, w', w'.procs[k]) {
      if k != pid { OtherFactsSurvive(u, w, pid, m, k); }
    }
    MoveKeepsLock(u, w, pid, m);
  }

  lemma StoreInvOf<T(!new)>(u: Rules<T>, w: World<T>)
    ensures StoreInv(u, w) <==> HistoryValid(u, w.history) && PointerAgrees(u, w) && Surplus(u, w)
  {
  }

  lemma MoveKeepsLock<T(!new)>(u: Rules<T>, w: World<T>, pid: nat, m: Move<T>)
    requires LockHeld(w) && pid in w.procs && GoodMove(u, w, pid, w.procs[pid], m)
    ensures LockHeld(ApplyMove(u, w, pid, m))
  {
  }

  lemma EventKeepsInv<T(!new)>(u: Rules<T>, w: World<T>, e: Event<T>)
    requires Raising(u) && Inv(u, w) && Enabled(w, e)
    ensures Inv(u, Apply(u, w, e))
  {
    if e.Act? {
      var p := w.procs[e.pid];
      StoreInvOf(u, w);
      if p.job.Write? { WriteStep(u, w, e.pid, p, e.choice); } else { ReadStep(u, w, e.pid, p, e.choice); }
      GoodMoveKeepsInv(u, w, e.pid, NextMove(u, w, p, e.choice));
    } else {
      QuietEventKeepsInv(u, w, e);
    }
  }

  lemma QuietEventKeepsInv<T(!new)>(u: Rules<T>, w: World<T>, e: Event<T>)
    requires Inv(u, w) && Enabled(w, e) && !e.Act?
    ensures Inv(u, Apply(u, w, e))
  {
    hide HistoryValid, PointerAgrees, Surplus, Selected;
    var w' := Apply(u, w, e);
    StoreInvOf(u, w);
    SameStore(u, w, w');
    StoreInvOf(u, w');
    assert forall n :: Beyond(u, w', n) <==> Beyond(u, w, n);
  }

  /** In every reachable state, whatever crashed or failed on the way. */
  lemma {:induction false} InvariantOverRuns<T(!new)>(u: Rules<T>, trace: seq<World<T>>, events: seq<Event<T>>, i: nat)
    requires Raising(u) && Run(u, trace, events) && Initial(trace[0]) && i < |trace|
    ensures Inv(u, trace[i])
  {
    hide Apply, Enabled;
    if i > 0 {
      InvariantOverRuns(u, trace, events, i - 1);
      EventKeepsInv(u, trace[i - 1], events[i - 1]);
    } else {
      assert Inv(u, trace[0]);
    }
  }
}
