/** Concrete runs of the publication protocol, put together one step at a time. */
module PublicationRuns {
  import opened Foundations
  import opened PublicationRecords
  import opened PublicationAdmission
  import opened PublicationProtocol
  import opened PublicationListings

  /**
   What a run starts from, the rule it keeps about ids, whether it is free of faults and
   crashes, and the readers every file of which loads when they open it.
   */
  datatype Stage = Stage(
    start: World,
    strict: bool,
    clean: bool,
    undisturbed: set<nat>,
    home: map<string, SeriesId>,
    manifests: map<string, string>)

  predicate Faultless(e: Event) { !e.Crash? && (e.Act? ==> e.choice.ok) }

  /** An event the stage allows in world `w`. */
  predicate Allowed(g: Stage, w: World, e: Event) {
    && (g.clean ==> Faultless(e))
    && ((e.Act? || e.Crash?) && e.pid in g.undisturbed ==>
          Faultless(e) && (e.pid in w.procs ==> !MeetsUnreadable(w, w.procs[e.pid])))
  }

  ghost predicate RunOf(g: Stage, trace: seq<World>, events: seq<Event>, v: World) {
    && Run(trace, events, g.strict) && trace[0] == g.start && trace[|events|] == v
    && (forall i :: 0 <= i < |events| ==> Allowed(g, trace[i], events[i]))
  }

  ghost predicate Reaches(g: Stage, v: World) {
    exists trace, events :: RunOf(g, trace, events, v)
  }

  lemma Here(g: Stage)
    ensures Reaches(g, g.start)
  {
    assert RunOf(g, [g.start], [], g.start);
  }

  lemma Extend(g: Stage, v: World, e: Event)
    requires Reaches(g, v) && Enabled(v, e, g.strict) && Allowed(g, v, e)
    ensures Enabled(v, e, false) && Reaches(g, Apply(v, e))
  {
    hide Allowed, Apply;
    var trace, events :| RunOf(g, trace, events, v);
    var trace', events' := trace + [Apply(v, e)], events + [e];
    forall i | 0 <= i < |events'|
      ensures Enabled(trace'[i], events'[i], g.strict) && trace'[i + 1] == Apply(trace'[i], events'[i])
      ensures Allowed(g, trace'[i], events'[i])
    {
      if i < |events| {
        assert trace'[i] == trace[i] && trace'[i + 1] == trace[i + 1] && events'[i] == events[i];
      }
    }
    assert RunOf(g, trace', events', Apply(v, e));
  }

  const GOOD_IO := Choice(true, Removed, [])
  const BAD_IO := Choice(false, Removed, [])

  const NOTHING: Files := Files(map[], map[])

  /** An empty registry beside the manifests producers have written. */
  function Empty(manifests: map<string, string>): World {
    World(NOTHING, map[], map[], map[], manifests, Registrations(map[], map[]))
  }

  /** The first record of an intervention series: no registration, no predecessor. */
  predicate IsRoot(r: PublicationRecord) { r.kind.InterventionRecordSet? && r.supersedes.None? }

  predicate Verifies(manifests: map<string, string>, r: PublicationRecord) {
    r.manifestPath in manifests && manifests[r.manifestPath] == r.manifestDigest
  }

  function At(g: Stage, locks: map<SeriesId, nat>, procs: map<nat, Proc>, f: Files): World {
    World(f, locks, procs, g.home, g.manifests, Registrations(map[], map[]))
  }

  function Publisher(r: PublicationRecord, phase: Phase): Proc { Proc(Publish(r), r.Series(), phase) }

  function With(f: Files, r: PublicationRecord): Files { f.(records := f.records[r.publicationId := Complete(r)]) }

  /** One step of `pid`, leaving the locks, files and its own entry as given. */
  lemma Step(g: Stage, locks: map<SeriesId, nat>, procs: map<nat, Proc>, f: Files, pid: nat, p: Proc, c: Choice,
             locks': map<SeriesId, nat>, p': Proc, f': Files)
    requires Reaches(g, At(g, locks, procs[pid := p], f)) && Live(p) && (g.clean ==> c.ok)
    requires pid in g.undisturbed ==> c.ok && !MeetsUnreadable(At(g, locks, procs[pid := p], f), p)
    requires var m := NextMove(At(g, locks, procs[pid := p], f), p, c);
             && m.proc == p' && ApplyEffect(f, m.effect) == f'
             && locks' == (match m.lock
                           case Keep => locks
                           case Take => locks[p'.series := pid]
                           case Free => locks - {p'.series})
    ensures Reaches(g, At(g, locks', procs[pid := p'], f'))
  {
    Extend(g, At(g, locks, procs[pid := p], f), Act(pid, c));
    assert procs[pid := p][pid := p'] == procs[pid := p'];
  }

  lemma Moves(g: Stage, locks: map<SeriesId, nat>, procs: map<nat, Proc>, f: Files, pid: nat, p: Proc, c: Choice,
              to: Phase)
    requires Reaches(g, At(g, locks, procs[pid := p], f)) && Live(p) && c.ok
    requires pid in g.undisturbed ==> !MeetsUnreadable(At(g, locks, procs[pid := p], f), p)
    requires NextMove(At(g, locks, procs[pid := p], f), p, c) == Goto(p, to)
    ensures Reaches(g, At(g, locks, procs[pid := p.(phase := to)], f))
  {
    Step(g, locks, procs, f, pid, p, c, locks, p.(phase := to), f);
  }

  /** A publisher begins; the id is its series' from then on. */
  lemma PublisherJoins(g: Stage, locks: map<SeriesId, nat>, procs: map<nat, Proc>, f: Files, pid: nat,
                       r: PublicationRecord)
    requires Reaches(g, At(g, locks, procs, f)) && pid !in procs
    requires g.strict && r.publicationId in g.home ==> g.home[r.publicationId] == r.Series()
    ensures var home := if r.publicationId in g.home then g.home else g.home[r.publicationId := r.Series()];
            var g' := g.(home := home);
            Reaches(g', At(g', locks, procs[pid := Publisher(r, Waiting)], f))
  {
    Extend(g, At(g, locks, procs, f), Begin(pid, Publish(r), r.Series()));
    var home := if r.publicationId in g.home then g.home else g.home[r.publicationId := r.Series()];
    SameStart(g, g.(home := home), At(g.(home := home), locks, procs[pid := Publisher(r, Waiting)], f));
  }

  /** What a stage reaches does not depend on the home it has come to. */
  lemma SameStart(g: Stage, g': Stage, v: World)
    requires Reaches(g, v) && g' == g.(home := g'.home)
    ensures Reaches(g', v)
  {
    var trace, events :| RunOf(g, trace, events, v);
    assert RunOf(g', trace, events, v);
  }

  lemma Joins(g: Stage, locks: map<SeriesId, nat>, procs: map<nat, Proc>, f: Files, pid: nat, job: Job,
              series: SeriesId)
    requires Reaches(g, At(g, locks, procs, f)) && pid !in procs && !job.Publish?
    ensures Reaches(g, At(g, locks, procs[pid := Proc(job, series, Waiting)], f))
  {
    Extend(g, At(g, locks, procs, f), Begin(pid, job, series));
  }

  /** A publisher's way from its prechecks to the lock, and on to the checks it repeats there. */
  lemma PublisherLocks(g: Stage, locks: map<SeriesId, nat>, procs: map<nat, Proc>, f: Files, pid: nat,
                       r: PublicationRecord)
    requires r.kind.InterventionRecordSet? && Verifies(g.manifests, r) && r.Series() !in locks && pid !in g.undisturbed
    requires r.publicationId !in f.records
    requires Reaches(g, At(g, locks, procs[pid := Publisher(r, Waiting)], f))
    ensures Reaches(g, At(g, locks[r.Series() := pid], procs[pid := Publisher(r, Scanning)], f))
  {
    hide Reaches;
    var held := locks[r.Series() := pid];
    Moves(g, locks, procs, f, pid, Publisher(r, Waiting), GOOD_IO, Matched);
    Moves(g, locks, procs, f, pid, Publisher(r, Matched), GOOD_IO, Prepared);
    Step(g, locks, procs, f, pid, Publisher(r, Prepared), GOOD_IO, held, Publisher(r, Locked), f);
    Moves(g, held, procs, f, pid, Publisher(r, Locked), GOOD_IO, Bound);
    Moves(g, held, procs, f, pid, Publisher(r, Bound), GOOD_IO, Vetted);
    Moves(g, held, procs, f, pid, Publisher(r, Vetted), GOOD_IO, Scanning);
  }

  /** It lists an empty collection, and may go on. */
  lemma PublisherLists(g: Stage, locks: map<SeriesId, nat>, procs: map<nat, Proc>, pid: nat, r: PublicationRecord)
    requires IsRoot(r) && Verifies(g.manifests, r) && r.Series() !in locks && pid !in g.undisturbed
    requires Reaches(g, At(g, locks, procs[pid := Publisher(r, Waiting)], NOTHING))
    ensures Reaches(g, At(g, locks[r.Series() := pid], procs[pid := Publisher(r, Ready)], NOTHING))
  {
    hide Reaches;
    var held := locks[r.Series() := pid];
    PublisherLocks(g, locks, procs, NOTHING, pid, r);
    Moves(g, held, procs, NOTHING, pid, Publisher(r, Scanning), GOOD_IO, Checking([], 0));
    Moves(g, held, procs, NOTHING, pid, Publisher(r, Checking([], 0)), GOOD_IO, Collecting([], 0, []));
    Moves(g, held, procs, NOTHING, pid, Publisher(r, Collecting([], 0, [])), GOOD_IO, Ready);
  }

  /** The same where the collection holds just the record it supersedes. */
  lemma PublisherListsOne(g: Stage, locks: map<SeriesId, nat>, procs: map<nat, Proc>, f: Files, pid: nat,
                          a: PublicationRecord, r: PublicationRecord)
    requires IsRoot(a) && ValidSupersession(a, r) && r.kind.InterventionRecordSet? && Verifies(g.manifests, r)
    requires f.records == map[a.publicationId := Complete(a)] && r.publicationId != a.publicationId
    requires r.Series() !in locks && pid !in g.undisturbed
    requires Reaches(g, At(g, locks, procs[pid := Publisher(r, Waiting)], f))
    ensures Reaches(g, At(g, locks[r.Series() := pid], procs[pid := Publisher(r, Ready)], f))
  {
    hide Reaches, ValidSupersession;
    var held := locks[r.Series() := pid];
    SuccessorAdmitted(a, r);
    PublisherLocks(g, locks, procs, f, pid, r);
    PublisherChecksOne(g, held, procs, f, pid, a, r);
    var names := [a.publicationId];
    Moves(g, held, procs, f, pid, Publisher(r, Collecting(names, 1, [a])), GOOD_IO, Ready);
  }

  lemma PublisherChecksOne(g: Stage, locks: map<SeriesId, nat>, procs: map<nat, Proc>, f: Files, pid: nat,
                           a: PublicationRecord, r: PublicationRecord)
    requires a.Series() == r.Series() && pid !in g.undisturbed
    requires f.records == map[a.publicationId := Complete(a)]
    requires Reaches(g, At(g, locks, procs[pid := Publisher(r, Scanning)], f))
    ensures Reaches(g, At(g, locks, procs[pid := Publisher(r, Collecting([a.publicationId], 1, [a]))], f))
  {
    hide Reaches;
    var names := [a.publicationId];
    assert Names(names, f.records);
    Moves(g, locks, procs, f, pid, Publisher(r, Scanning), Choice(true, Removed, names), Checking(names, 0));
    hide Names;
    Moves(g, locks, procs, f, pid, Publisher(r, Checking(names, 0)), GOOD_IO, Checking(names, 1));
    Moves(g, locks, procs, f, pid, Publisher(r, Checking(names, 1)), GOOD_IO, Collecting(names, 0, []));
    assert [] + [a] == [a];
    Moves(g, locks, procs, f, pid, Publisher(r, Collecting(names, 0, [])), GOOD_IO, Collecting(names, 1, [a]));
  }

  lemma SuccessorAdmitted(a: PublicationRecord, r: PublicationRecord)
    requires IsRoot(a) && ValidSupersession(a, r)
    ensures a.Series() == r.Series() && SeriesAccepted([a]) && Admission([a], r).None?
  {
    assert IsChain([a]);
    AdmittedIffContinues([a], [a], r);
  }

  lemma PublisherCreates(g: Stage, locks: map<SeriesId, nat>, procs: map<nat, Proc>, f: Files, pid: nat,
                         r: PublicationRecord)
    requires r.publicationId !in f.records && pid !in g.undisturbed
    requires Reaches(g, At(g, locks, procs[pid := Publisher(r, Ready)], f))
    ensures Reaches(g, At(g, locks, procs[pid := Publisher(r, Filling)],
                          f.(records := f.records[r.publicationId := Partial])))
  {
    hide Reaches;
    Step(g, locks, procs, f, pid, Publisher(r, Ready), GOOD_IO, locks, Publisher(r, Filling),
         f.(records := f.records[r.publicationId := Partial]));
  }

  lemma PublisherFills(g: Stage, locks: map<SeriesId, nat>, procs: map<nat, Proc>, f: Files, pid: nat,
                       r: PublicationRecord)
    requires r.publicationId !in f.records && pid !in g.undisturbed
    requires Reaches(g, At(g, locks, procs[pid := Publisher(r, Ready)], f))
    ensures Reaches(g, At(g, locks, procs[pid := Publisher(r, Verifying)], With(f, r)))
  {
    hide Reaches;
    PublisherCreates(g, locks, procs, f, pid, r);
    var half := f.(records := f.records[r.publicationId := Partial]);
    assert half.records[r.publicationId := Complete(r)] == With(f, r).records;
    Step(g, locks, procs, half, pid, Publisher(r, Filling), GOOD_IO, locks, Publisher(r, Verifying), With(f, r));
  }

  /** From the start of a publisher to the file it has yet to verify. */
  lemma PublisherWrites(g: Stage, locks: map<SeriesId, nat>, procs: map<nat, Proc>, pid: nat, r: PublicationRecord)
    requires IsRoot(r) && Verifies(g.manifests, r) && r.Series() !in locks && pid !in g.undisturbed
    requires Reaches(g, At(g, locks, procs[pid := Publisher(r, Waiting)], NOTHING))
    ensures Reaches(g, At(g, locks[r.Series() := pid], procs[pid := Publisher(r, Verifying)], With(NOTHING, r)))
  {
    hide Reaches, IsRoot, With;
    PublisherLists(g, locks, procs, pid, r);
    PublisherFills(g, locks[r.Series() := pid], procs, NOTHING, pid, r);
  }

  lemma PublisherFinishes(g: Stage, locks: map<SeriesId, nat>, procs: map<nat, Proc>, f: Files, pid: nat,
                          r: PublicationRecord)
    requires Verifies(g.manifests, r) && r.Series() !in locks && pid !in g.undisturbed
    requires Reaches(g, At(g, locks[r.Series() := pid], procs[pid := Publisher(r, Verifying)], f))
    ensures Reaches(g, At(g, locks, procs[pid := Publisher(r, Finished(Written))], f))
  {
    hide Reaches;
    var held := locks[r.Series() := pid];
    Moves(g, held, procs, f, pid, Publisher(r, Verifying), GOOD_IO, Releasing(Written));
    assert held - {r.Series()} == locks;
    Step(g, held, procs, f, pid, Publisher(r, Releasing(Written)), GOOD_IO, locks, Publisher(r, Finished(Written)), f);
  }

  /** The publisher fails its verification and removes its file again. */
  lemma PublisherUndoes(g: Stage, locks: map<SeriesId, nat>, procs: map<nat, Proc>, f: Files, pid: nat,
                        r: PublicationRecord)
    requires !g.clean && pid !in g.undisturbed && r.publicationId !in f.records
    requires Reaches(g, At(g, locks, procs[pid := Publisher(r, Verifying)], With(f, r)))
    ensures Reaches(g, At(g, locks, procs[pid := Publisher(r, Releasing(WriteError))], f))
  {
    hide Reaches;
    var full := With(f, r);
    Step(g, locks, procs, full, pid, Publisher(r, Verifying), BAD_IO, locks, Publisher(r, RollingBack(WriteError)),
         full);
    assert full.records - {r.publicationId} == f.records;
    Step(g, locks, procs, full, pid, Publisher(r, RollingBack(WriteError)), GOOD_IO, locks,
         Publisher(r, Releasing(WriteError)), f);
  }

  lemma PublisherGivesUp(g: Stage, locks: map<SeriesId, nat>, procs: map<nat, Proc>, f: Files, pid: nat,
                         r: PublicationRecord)
    requires pid !in g.undisturbed && Reaches(g, At(g, locks, procs[pid := Publisher(r, Releasing(WriteError))], f))
    ensures Reaches(g, At(g, locks - {r.Series()}, procs[pid := Publisher(r, Finished(WriteError))], f))
  {
    hide Reaches;
    Step(g, locks, procs, f, pid, Publisher(r, Releasing(WriteError)), GOOD_IO, locks - {r.Series()},
         Publisher(r, Finished(WriteError)), f);
  }

  /** The withdrawer `d`'s steps, once it has located `series` as the one to lock. */
  function Withdrawer(d: PublicationWithdrawal, series: SeriesId, phase: Phase): Proc {
    Proc(Withdraw(d), series, phase)
  }

  lemma WithdrawerLocates(g: Stage, locks: map<SeriesId, nat>, procs: map<nat, Proc>, f: Files, pid: nat,
                          d: PublicationWithdrawal, series: SeriesId)
    requires Reaches(g, At(g, locks, procs, f)) && pid !in procs && pid !in g.undisturbed && Withdrawable(f, d)
    requires f.records[d.publicationId].value.Series() == series
    ensures Reaches(g, At(g, locks, procs[pid := Withdrawer(d, series, Prepared)], f))
  {
    hide Reaches;
    Joins(g, locks, procs, f, pid, Withdraw(d), series);
    Moves(g, locks, procs, f, pid, Withdrawer(d, series, Waiting), GOOD_IO, Prepared);
  }

  lemma WithdrawerLocks(g: Stage, locks: map<SeriesId, nat>, procs: map<nat, Proc>, f: Files, pid: nat,
                        d: PublicationWithdrawal, series: SeriesId)
    requires Reaches(g, At(g, locks, procs[pid := Withdrawer(d, series, Prepared)], f)) && series !in locks
    requires pid !in g.undisturbed
    ensures Reaches(g, At(g, locks[series := pid], procs[pid := Withdrawer(d, series, Locked)], f))
  {
    hide Reaches;
    Step(g, locks, procs, f, pid, Withdrawer(d, series, Prepared), GOOD_IO, locks[series := pid],
         Withdrawer(d, series, Locked), f);
  }

  lemma WithdrawerCreates(g: Stage, locks: map<SeriesId, nat>, procs: map<nat, Proc>, f: Files, pid: nat,
                          d: PublicationWithdrawal, series: SeriesId)
    requires Reaches(g, At(g, locks, procs[pid := Withdrawer(d, series, Locked)], f))
    requires Withdrawable(f, d) && d.publicationId !in f.withdrawals && pid !in g.undisturbed
    ensures Reaches(g, At(g, locks, procs[pid := Withdrawer(d, series, Filling)],
                          f.(withdrawals := f.withdrawals[d.publicationId := Partial])))
  {
    hide Reaches;
    Moves(g, locks, procs, f, pid, Withdrawer(d, series, Locked), GOOD_IO, Ready);
    Step(g, locks, procs, f, pid, Withdrawer(d, series, Ready), GOOD_IO, locks, Withdrawer(d, series, Filling),
         f.(withdrawals := f.withdrawals[d.publicationId := Partial]));
  }

  lemma WithdrawerFills(g: Stage, locks: map<SeriesId, nat>, procs: map<nat, Proc>, f: Files, pid: nat,
                        d: PublicationWithdrawal, series: SeriesId)
    requires pid !in g.undisturbed
    requires Reaches(g, At(g, locks, procs[pid := Withdrawer(d, series, Filling)],
                           f.(withdrawals := f.withdrawals[d.publicationId := Partial])))
    ensures Reaches(g, At(g, locks, procs[pid := Withdrawer(d, series, Verifying)],
                          f.(withdrawals := f.withdrawals[d.publicationId := Complete(d)])))
  {
    hide Reaches;
    var half := f.(withdrawals := f.withdrawals[d.publicationId := Partial]);
    assert half.withdrawals[d.publicationId := Complete(d)] == f.withdrawals[d.publicationId := Complete(d)];
    Step(g, locks, procs, half, pid, Withdrawer(d, series, Filling), GOOD_IO, locks, Withdrawer(d, series, Verifying),
         f.(withdrawals := f.withdrawals[d.publicationId := Complete(d)]));
  }
}
