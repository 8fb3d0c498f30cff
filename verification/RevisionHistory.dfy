/** What every run of the revision store guarantees. */
module RevisionHistory {
  import opened Foundations
  import opened RevisionStore

  ghost predicate TransitiveStep<T(!new)>(u: Rules<T>) {
    forall a, b, c :: u.step(a, b) && u.step(b, c) ==> u.step(a, c)
  }

  /** Any two selected revisions, not just neighbours, satisfy the transition relation. */
  lemma {:induction false} AnyTwoSelected<T(!new)>(u: Rules<T>, h: seq<T>, i: nat, j: nat)
    requires TransitiveStep(u) && HistoryValid(u, h) && i < j < |h|
    ensures u.step(h[i], h[j])
    decreases j
  {
    assert u.step(h[j - 1], h[j]);
    if i < j - 1 {
      AnyTwoSelected(u, h, i, j - 1);
      var a, b, c := h[i], h[j - 1], h[j];
      assert u.step(a, b) && u.step(b, c);
    }
  }

  /** A revision nothing has selected, and that no live writer is still working on. */
  ghost predicate Orphan<T(!new)>(u: Rules<T>, w: World<T>, n: int) {
    Beyond(u, w, n) && forall pid :: pid in w.procs ==> !Working(w.procs[pid])
  }

  /** Past validation and not yet failed. */
  predicate Working<T>(p: Proc<T>) {
    p.job.Write? && (p.phase.Filling? || p.phase.Verifying? || p.phase.Publishing? || p.phase.Confirming?
                     || (p.phase.Releasing? && p.phase.pending.Written?))
  }

  /** Stored beyond the pointer, or without one. */
  predicate Unselected<T>(s: Store<T>, n: int) {
    n in s.revisions && (s.pointer.Some? ==> n > s.pointer.value)
  }

  /**
   In every reachable state, crashes and failed cleanups included: the current pointer selects a
   complete stored revision, at most one revision lies beyond it (or exists without it),
   and any two selected revisions satisfy the transition.
   */
  lemma StoreStaysSound<T(!new)>(u: Rules<T>, trace: seq<World<T>>, events: seq<Event<T>>, i: nat)
    requires Raising(u) && TransitiveStep(u) && Run(u, trace, events) && Initial(trace[0]) && i < |trace|
    ensures var s := trace[i].store;
            && (s.pointer.Some? ==> Loads(u, s, s.pointer.value))
            && (forall m, n | Unselected(s, m) && Unselected(s, n) :: m == n)
            && (s.pointer.Some? ==> forall n :: n in s.revisions && n <= s.pointer.value ==> Loads(u, s, n))
            && (forall m, n :: m in s.revisions && n in s.revisions && s.pointer.Some? && m < n <= s.pointer.value ==>
                  u.step(s.revisions[m].value, s.revisions[n].value))
  {
    InvariantOverRuns(u, trace, events, i);
    var w := trace[i];
    var s := w.store;
    if s.pointer.Some? { assert w.history != []; }
    forall m, n | m in s.revisions && n in s.revisions && s.pointer.Some? && m < n <= s.pointer.value
      ensures s.revisions[m].Complete? && s.revisions[n].Complete?
      ensures u.step(s.revisions[m].value, s.revisions[n].value)
    {
      assert !Beyond(u, w, m) && !Beyond(u, w, n);
      var a :| 0 <= a < |w.history| && u.rev(w.history[a]) == m;
      var b :| 0 <= b < |w.history| && u.rev(w.history[b]) == n;
      if b < a { HistoryRises(u, w.history, b, a); }
      AnyTwoSelected(u, w.history, a, b);
    }
    forall n | n in s.revisions && s.pointer.Some? && n <= s.pointer.value ensures Loads(u, s, n) {
      assert !Beyond(u, w, n);
    }
    forall m, n | Unselected(s, m) && Unselected(s, n) ensures m == n {
      BeyondPointer(u, w, m);
      BeyondPointer(u, w, n);
    }
  }

  lemma BeyondPointer<T(!new)>(u: Rules<T>, w: World<T>, n: int)
    requires Raising(u) && StoreInv(u, w) && n in w.store.revisions
    requires w.store.pointer.Some? ==> n > w.store.pointer.value
    ensures Beyond(u, w, n)
  {
    forall i | 0 <= i < |w.history| ensures u.rev(w.history[i]) != n {
      if i < |w.history| - 1 { HistoryRises(u, w.history, i, |w.history| - 1); }
    }
  }

  // ------------------------------------------------------- orphans block writers

  lemma OrphanMove<T(!new)>(u: Rules<T>, w: World<T>, p: Proc<T>, c: Choice, n: int)
    requires Raising(u) && StoreInv(u, w) && Facts(u, w, p) && Beyond(u, w, n) && !Working(p)
    ensures var m := NextMove(u, w, p, c);
            m.effect.Nothing? && !Working(m.proc) && (m.proc.phase == Finished(Written) ==>
                                                      p.phase == Finished(Written))
  {
    hide HistoryValid, PointerAgrees, Surplus, Selected;
    if p.job.Write? {
      assert !p.phase.Ready?;
      if p.phase.Pointed? && NextMove(u, w, p, c).proc.phase.Ready? { ApprovedFits(u, w, p); }
    }
  }

  lemma OrphanStep<T(!new)>(u: Rules<T>, w: World<T>, e: Event<T>, n: int)
    requires Raising(u) && Inv(u, w) && Enabled(w, e) && Orphan(u, w, n)
    ensures Apply(u, w, e).store == w.store && Orphan(u, Apply(u, w, e), n)
    ensures forall pid :: pid in Apply(u, w, e).procs && Apply(u, w, e).procs[pid].phase == Finished(Written) ==>
              pid in w.procs && w.procs[pid].phase == Finished(Written)
  {
    hide Facts, NextMove, Verdict;
    var w' := Apply(u, w, e);
    if e.Act? { OrphanMove(u, w, w.procs[e.pid], e.choice, n); }
    assert w'.store == w.store && w'.history == w.history;
  }

  /** While an orphan exists every write fails and changes nothing. */
  lemma {:induction false} OrphanBlocksWrites<T(!new)>(u: Rules<T>, trace: seq<World<T>>, events: seq<Event<T>>,
                                                       i: nat, j: nat, n: int)
    requires Raising(u) && Run(u, trace, events) && Initial(trace[0]) && i <= j < |trace| && Orphan(u, trace[i], n)
    ensures trace[j].store == trace[i].store && Orphan(u, trace[j], n)
    ensures forall pid :: pid in trace[j].procs && trace[j].procs[pid].phase == Finished(Written) ==>
              pid in trace[i].procs && trace[i].procs[pid].phase == Finished(Written)
    decreases j
  {
    hide Apply, Enabled, Orphan;
    if i < j {
      OrphanBlocksWrites(u, trace, events, i, j - 1, n);
      InvariantOverRuns(u, trace, events, j - 1);
      OrphanStep(u, trace[j - 1], events[j - 1], n);
    }
  }

  // ------------------------------------------------------------ compare and swap

  /** Only a writer that expected the current pointer moves it, and it moves to its own candidate. */
  lemma PointerMovesByExpectation<T(!new)>(u: Rules<T>, w: World<T>, e: Event<T>)
    requires Raising(u) && Inv(u, w) && Enabled(w, e) && Apply(u, w, e).history != w.history
    ensures e.Act? && w.procs[e.pid].job.Write?
    ensures w.procs[e.pid].job.expected == w.store.pointer
    ensures Apply(u, w, e).history == w.history + [w.procs[e.pid].job.candidate]
  {
    assert e.Act?;
    assert Facts(u, w, w.procs[e.pid]);
  }

  lemma {:induction false} HistoryOnlyGrows<T(!new)>(u: Rules<T>, trace: seq<World<T>>, events: seq<Event<T>>, i: nat,
                                                     j: nat)
    requires Raising(u) && Run(u, trace, events) && Initial(trace[0]) && i <= j < |trace|
    ensures trace[i].history <= trace[j].history
    decreases j
  {
    hide Apply, Enabled, Inv;
    if i < j {
      HistoryOnlyGrows(u, trace, events, i, j - 1);
      InvariantOverRuns(u, trace, events, j - 1);
      if trace[j].history != trace[j - 1].history {
        PointerMovesByExpectation(u, trace[j - 1], events[j - 1]);
      }
    }
  }

  /** No lost update: whatever was selected stays stored, unchanged, for ever. */
  lemma SelectedStaysStored<T(!new)>(u: Rules<T>, trace: seq<World<T>>, events: seq<Event<T>>, i: nat, j: nat, r: T)
    requires Raising(u) && Run(u, trace, events) && Initial(trace[0]) && i <= j < |trace| && r in trace[i].history
    ensures r in trace[j].history
    ensures u.rev(r) in trace[j].store.revisions && trace[j].store.revisions[u.rev(r)] == Complete(r)
  {
    HistoryOnlyGrows(u, trace, events, i, j);
    InvariantOverRuns(u, trace, events, j);
    var k :| 0 <= k < |trace[i].history| && trace[i].history[k] == r;
    assert trace[j].history[k] == r;
  }

  /**
   An unlocked read is two reads with writers working in between, yet it never reports a
   torn store and only ever returns a revision that was selected.
   */
  lemma ReadsAreNeverTorn<T(!new)>(u: Rules<T>, trace: seq<World<T>>, events: seq<Event<T>>, i: nat, pid: nat)
    requires Raising(u) && Run(u, trace, events) && Initial(trace[0]) && i < |trace|
    requires pid in trace[i].procs && trace[i].procs[pid].job.Read? && trace[i].procs[pid].phase.Finished?
    ensures var o := trace[i].procs[pid].phase.outcome;
            && o != IntegrityError
            && (o.Loaded? && o.record.Some? ==> o.record.value in trace[i].history)
  {
    InvariantOverRuns(u, trace, events, i);
    assert Facts(u, trace[i], trace[i].procs[pid]);
  }

  /** `record` was the selection at some time from `s` to `j`; `None` stands for no selection yet. */
  ghost predicate SelectedSometime<T>(trace: seq<World<T>>, s: nat, j: nat, record: Option<T>) {
    exists a :: s <= a <= j < |trace| && Selection(trace[a].history) == record
  }

  ghost function Selection<T>(h: seq<T>): Option<T> {
    if h == [] then None else Some(h[|h| - 1])
  }

  /** One of `pid`'s steps from `s` to before `j` met a fault. */
  ghost predicate MetFault<T>(events: seq<Event<T>>, s: nat, j: nat, pid: nat) {
    exists k :: s <= k < j <= |events| && events[k].Act? && events[k].pid == pid && !events[k].choice.ok
  }

  ghost predicate NumberSelected<T(!new)>(u: Rules<T>, trace: seq<World<T>>, s: nat, j: nat, n: int) {
    exists r :: SelectedSometime(trace, s, j, Some(r)) && u.rev(r) == n
  }

  /** How far a reader that began after time `s` has come by time `j`. */
  ghost predicate ReadSoFar<T(!new)>(u: Rules<T>, trace: seq<World<T>>, events: seq<Event<T>>, s: nat, j: nat, pid: nat,
                               p: Proc<T>)
  {
    match p.phase
    case Waiting => true
    case Crashed => true
    case Loading(n) => NumberSelected(u, trace, s, j, n)
    case Finished(o) =>
      (match o
       case Loaded(record) => SelectedSometime(trace, s, j, record)
       case ReadError => MetFault(events, s, j, pid)
       case _ => false)
    case _ => false
  }

  lemma SometimeStays<T(!new)>(u: Rules<T>, trace: seq<World<T>>, events: seq<Event<T>>, s: nat, j: nat, pid: nat,
                               p: Proc<T>)
    requires ReadSoFar(u, trace, events, s, j, pid, p) && s <= j && j + 1 < |trace| && |trace| == |events| + 1
    ensures ReadSoFar(u, trace, events, s, j + 1, pid, p)
  {
    forall record | SelectedSometime(trace, s, j, record) ensures SelectedSometime(trace, s, j + 1, record) {
      var a :| s <= a <= j && Selection(trace[a].history) == record;
      assert s <= a <= j + 1;
    }
    if MetFault(events, s, j, pid) {
      var k :| s <= k < j && events[k].Act? && events[k].pid == pid && !events[k].choice.ok;
      assert s <= k < j + 1;
    }
  }

  lemma SelectedNumber<T(!new)>(u: Rules<T>, trace: seq<World<T>>, events: seq<Event<T>>, s: nat, j: nat, n: int)
    requires Raising(u) && Run(u, trace, events) && Initial(trace[0]) && s <= j < |trace|
    requires NumberSelected(u, trace, s, j, n)
    ensures Loads(u, trace[j].store, n)
    ensures SelectedSometime(trace, s, j, Some(trace[j].store.revisions[n].value))
  {
    hide Apply, Enabled;
    var r :| SelectedSometime(trace, s, j, Some(r)) && u.rev(r) == n;
    var a :| s <= a <= j && Selection(trace[a].history) == Some(r);
    SelectedStaysStored(u, trace, events, a, j, r);
  }

  lemma ReaderMoves<T(!new)>(u: Rules<T>, trace: seq<World<T>>, events: seq<Event<T>>, s: nat, j: nat, pid: nat,
                             c: Choice)
    requires Raising(u) && Run(u, trace, events) && Initial(trace[0]) && s <= j && j + 1 < |trace|
    requires events[j] == Act(pid, c) && pid in trace[j].procs && trace[j].procs[pid].job.Read?
    requires Live(trace[j].procs[pid]) && ReadSoFar(u, trace, events, s, j, pid, trace[j].procs[pid])
    ensures ReadSoFar(u, trace, events, s, j + 1, pid, ReadMove(u, trace[j], trace[j].procs[pid], c).proc)
  {
    hide Run, Inv, SelectedSometime, MetFault, NumberSelected;
    var w := trace[j];
    var p' := ReadMove(u, w, w.procs[pid], c).proc;
    InvariantOverRuns(u, trace, events, j);
    PointerIsSelection(u, w);
    assert |trace| == |events| + 1 by { assert Run(u, trace, events); RunLength(u, trace, events); }
    SelectionNow(trace, s, j);
    if !c.ok {
      FaultNow(events, s, j, pid);
      assert p'.phase == Finished(ReadError);
      assert MetFault(events, s, j + 1, pid);
    } else {
      if w.procs[pid].phase.Loading? {
        SelectedNumber(u, trace, events, s, j, w.procs[pid].phase.number);
      } else if w.history != [] {
        NumberNow(u, trace, s, j, w.history[|w.history| - 1]);
      }
      SometimeStays(u, trace, events, s, j, pid, p');
    }
  }

  lemma RunLength<T(!new)>(u: Rules<T>, trace: seq<World<T>>, events: seq<Event<T>>)
    requires Run(u, trace, events)
    ensures |trace| == |events| + 1
  {
  }

  lemma FaultNow<T(!new)>(events: seq<Event<T>>, s: nat, j: nat, pid: nat)
    requires s <= j < |events| && events[j].Act? && events[j].pid == pid && !events[j].choice.ok
    ensures MetFault(events, s, j + 1, pid)
  {
  }

  lemma SelectionNow<T(!new)>(trace: seq<World<T>>, s: nat, j: nat)
    requires s <= j < |trace|
    ensures SelectedSometime(trace, s, j, Selection(trace[j].history))
  {
  }

  lemma NumberNow<T(!new)>(u: Rules<T>, trace: seq<World<T>>, s: nat, j: nat, r: T)
    requires SelectedSometime(trace, s, j, Some(r))
    ensures NumberSelected(u, trace, s, j, u.rev(r))
  {
  }

  lemma PointerIsSelection<T(!new)>(u: Rules<T>, w: World<T>)
    requires Inv(u, w)
    ensures w.store.pointer == if w.history == [] then None else Some(u.rev(w.history[|w.history| - 1]))
  {
  }

  lemma {:induction false} ReaderSoFar<T(!new)>(u: Rules<T>, trace: seq<World<T>>, events: seq<Event<T>>, s: nat,
                                                j: nat, pid: nat)
    requires Raising(u) && Run(u, trace, events) && Initial(trace[0]) && s <= j < |trace|
    requires pid !in trace[s].procs && pid in trace[j].procs && trace[j].procs[pid].job.Read?
    ensures ReadSoFar(u, trace, events, s, j, pid, trace[j].procs[pid])
    decreases j
  {
    hide ReadMove, WriteMove, SelectedSometime, MetFault, NumberSelected;
    var w, e := trace[j - 1], events[j - 1];
    if pid in w.procs {
      var p := w.procs[pid];
      assert p.job.Read? by { ReaderKeepsJob(u, w, e, pid); }
      ReaderSoFar(u, trace, events, s, j - 1, pid);
      if e.Act? && e.pid == pid {
        ReaderMoves(u, trace, events, s, j - 1, pid, e.choice);
      } else {
        SometimeStays(u, trace, events, s, j - 1, pid, p);
      }
    }
  }

  lemma ReaderKeepsJob<T(!new)>(u: Rules<T>, w: World<T>, e: Event<T>, pid: nat)
    requires Enabled(w, e) && pid in w.procs
    ensures pid in Apply(u, w, e).procs && Apply(u, w, e).procs[pid].job == w.procs[pid].job
  {
  }

  /**
   An unlocked read answers with what was selected at one moment while it ran, whatever the
   writers did between its two reads; it fails only if one of its own reads met a fault.
   */
  lemma ReadsAreCurrentOnce<T(!new)>(u: Rules<T>, trace: seq<World<T>>, events: seq<Event<T>>, s: nat, i: nat,
                                     pid: nat)
    requires Raising(u) && Run(u, trace, events) && Initial(trace[0]) && s <= i < |trace|
    requires pid !in trace[s].procs && pid in trace[i].procs && trace[i].procs[pid].job.Read?
    requires trace[i].procs[pid].phase.Finished?
    ensures match trace[i].procs[pid].phase.outcome
            case Loaded(None) => exists a :: s <= a <= i && trace[a].history == []
            case Loaded(Some(r)) =>
              exists a :: s <= a <= i && trace[a].history != [] && trace[a].history[|trace[a].history| - 1] == r
            case ReadError =>
              exists k :: s <= k < i && events[k].Act? && events[k].pid == pid && !events[k].choice.ok
            case _ => false
  {
    hide Apply, Enabled;
    ReaderSoFar(u, trace, events, s, i, pid);
  }
}
