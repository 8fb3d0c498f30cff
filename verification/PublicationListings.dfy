/**
 An unlocked listing opens the collection file by file while others write. As long as no listed
 id is given to a second publisher, it either returns its series as it stood when the names were
 enumerated, with the file then being filled completed, or it has met a file, of whatever
 series, that does not load.
 */
module PublicationListings {
  import opened Foundations
  import opened PublicationRecords
  import opened PublicationProtocol
  import opened PublicationHistory
  import opened PublicationServices
  import opened PublicationOutcomes

  /** The file the reader opens next does not load. */
  predicate MeetsUnreadable(w: World, p: Proc) {
    || (p.phase.Checking? && p.phase.next < |p.phase.names| && !Loads(w.files.records, p.phase.names[p.phase.next]))
    || (p.phase.Collecting? && p.phase.next < |p.phase.names| && !Loads(w.files.records, p.phase.names[p.phase.next]))
  }

  /** Between `m` and `n` the reader opened a file that did not load. */
  ghost predicate HasMet(trace: seq<World>, events: seq<Event>, reader: nat, m: nat, n: nat) {
    exists k :: m <= k < n && Meets(trace, events, reader, k)
  }

  ghost predicate Meets(trace: seq<World>, events: seq<Event>, reader: nat, k: nat) {
    && k < |events| && k < |trace| && events[k].Act? && events[k].pid == reader
    && reader in trace[k].procs && MeetsUnreadable(trace[k], trace[k].procs[reader])
  }

  /** The reader's own operations between `m` and `n` meet no fault, and it does not crash. */
  ghost predicate ReadsCleanly(events: seq<Event>, reader: nat, m: nat, n: nat) {
    forall k :: m <= k < n && k < |events| ==>
      && (events[k].Act? && events[k].pid == reader ==> events[k].choice.ok)
      && (events[k].Crash? ==> events[k].pid != reader)
  }

  /** Whatever the second files can still load of series `s` is as the first have it. */
  ghost predicate SameSeries(f: Files, g: Files, s: SeriesId) {
    forall id :: id in f.records ==> SameFile(f, g, s, id)
  }

  ghost predicate SameFile(f: Files, g: Files, s: SeriesId, id: string)
    requires id in f.records
  {
    Loads(g.records, id)
    && (g.records[id].value.Series() == s || (f.records[id].Complete? && f.records[id].value.Series() == s)) ==>
      g.records[id] == f.records[id]
  }

  // --------------------------------------------------------------- one job for an id

  predicate Publishes(p: Proc, id: string) { p.job.Publish? && p.job.candidate.publicationId == id }

  ghost predicate OneJob(w: World, id: string) {
    forall a, b :: a in w.procs && b in w.procs && Publishes(w.procs[a], id) && Publishes(w.procs[b], id) ==> a == b
  }

  /** Ids come from a fresh supply: none of these is given to two publishers. */
  ghost predicate OneJobEach(w: World, names: seq<string>) {
    forall id :: id in names ==> OneJob(w, id)
  }

  /** Its file has been created, or never will be. */
  predicate PastReady(p: Proc) {
    p.phase.Filling? || p.phase.Verifying? || p.phase.RollingBack? || p.phase.Releasing? || p.phase.Finished?
      || p.phase.Crashed?
  }

  /** A publisher of this id that leaves its file empty or holding its own candidate. */
  predicate Creates(p: Proc, id: string, file: File<PublicationRecord>) {
    Publishes(p, id) && PastReady(p) && (file == Partial || file == Complete(p.job.candidate))
  }

  ghost predicate HasCreator(w: World, id: string, file: File<PublicationRecord>) {
    exists pid :: pid in w.procs && Creates(w.procs[pid], id, file)
  }

  /** Every file was created by a publisher of its id, and holds that publisher's candidate or nothing. */
  ghost predicate AllCreated(w: World) {
    forall id :: id in w.files.records ==> HasCreator(w, id, w.files.records[id])
  }

  lemma PublishMoveCreates(w: World, p: Proc, c: Choice)
    requires p.job.Publish? && Live(p)
    ensures var m := PublishMove(w, p, c);
            && m.proc.job == p.job && (PastReady(p) ==> PastReady(m.proc))
            && var f := ApplyEffect(w.files, m.effect);
               (forall id :: id in f.records ==>
                  (id in w.files.records && f.records[id] == w.files.records[id]) || Creates(m.proc, id, f.records[id]))
  {
  }

  lemma CreatorsStay(w: World, e: Event)
    requires Enabled(w, e, false) && AllCreated(w)
    ensures AllCreated(Apply(w, e))
  {
    hide PublishMove, WithdrawMove, ListMove;
    var w' := Apply(w, e);
    if e.Act? {
      var p := w.procs[e.pid];
      if p.job.Publish? { PublishMoveCreates(w, p, e.choice); }
      if p.job.Withdraw? { WithdrawMoveEffects(w, p, e.choice, ""); }
      if p.job.List? { ListMoveEffects(w, p, e.choice); }
    }
    forall id | id in w'.files.records ensures HasCreator(w', id, w'.files.records[id]) {
      var file := w'.files.records[id];
      if id in w.files.records && w.files.records[id] == file {
        assert HasCreator(w, id, file);
        var pid :| pid in w.procs && Creates(w.procs[pid], id, file);
        assert pid in w'.procs && Creates(w'.procs[pid], id, file);
      } else {
        assert e.Act? && Creates(w'.procs[e.pid], id, file);
      }
    }
  }

  lemma ListMoveEffects(w: World, p: Proc, c: Choice)
    requires p.job.List?
    ensures ListMove(w, p, c).effect.Nothing? && ListMove(w, p, c).proc.job == p.job
  {
  }

  lemma {:induction false} CreatorsOverRuns(trace: seq<World>, events: seq<Event>, i: nat)
    requires Run(trace, events, false) && Initial(trace[0]) && i < |trace|
    ensures AllCreated(trace[i])
  {
    hide Apply, Enabled;
    if i > 0 {
      CreatorsOverRuns(trace, events, i - 1);
      CreatorsStay(trace[i - 1], events[i - 1]);
    }
  }

  lemma JobStays(w: World, e: Event, pid: nat)
    requires Enabled(w, e, false) && pid in w.procs
    ensures pid in Apply(w, e).procs && Apply(w, e).procs[pid].job == w.procs[pid].job
  {
    hide PublishMove, WithdrawMove, ListMove;
    if e.Act? && e.pid == pid {
      var p := w.procs[pid];
      if p.job.Publish? { PublishMoveCreates(w, p, e.choice); }
      if p.job.Withdraw? { WithdrawMoveEffects(w, p, e.choice, ""); }
      if p.job.List? { ListMoveEffects(w, p, e.choice); }
    }
  }

  lemma {:induction false} JobIsForever(trace: seq<World>, events: seq<Event>, m: nat, n: nat, pid: nat)
    requires Run(trace, events, false) && m <= n < |trace| && pid in trace[m].procs
    ensures pid in trace[n].procs && trace[n].procs[pid].job == trace[m].procs[pid].job
    decreases n
  {
    hide Apply, Enabled;
    if m < n {
      JobIsForever(trace, events, m, n - 1, pid);
      JobStays(trace[n - 1], events[n - 1], pid);
    }
  }

  lemma OneJobBefore(trace: seq<World>, events: seq<Event>, m: nat, n: nat, id: string)
    requires Run(trace, events, false) && m <= n < |trace| && OneJob(trace[n], id)
    ensures OneJob(trace[m], id)
  {
    hide Run;
    forall a, b | && a in trace[m].procs && b in trace[m].procs
                  && Publishes(trace[m].procs[a], id) && Publishes(trace[m].procs[b], id)
      ensures a == b
    {
      JobIsForever(trace, events, m, n, a);
      JobIsForever(trace, events, m, n, b);
    }
  }

  /** The one publisher of `id` can only make its file `v`, or take it away. */
  ghost predicate Tied(w: World, id: string, v: File<PublicationRecord>) {
    && (id in w.files.records ==> w.files.records[id] == Partial || w.files.records[id] == v)
    && (exists pid :: pid in w.procs && Publishes(w.procs[pid], id))
    && (forall pid :: pid in w.procs && Publishes(w.procs[pid], id) ==>
          PastReady(w.procs[pid]) && (w.procs[pid].phase.Filling? ==> v == Complete(w.procs[pid].job.candidate)))
  }

  lemma PublishMoveTied(w: World, p: Proc, c: Choice, id: string, v: File<PublicationRecord>)
    requires p.job.Publish? && Live(p) && (id in w.files.records ==>
        w.files.records[id] == Partial || w.files.records[id] == v)
    requires Publishes(p, id) ==> PastReady(p) && (p.phase.Filling? ==> v == Complete(p.job.candidate))
    ensures var m := PublishMove(w, p, c);
            var f := ApplyEffect(w.files, m.effect);
            && m.proc.job == p.job
            && (id in f.records ==> f.records[id] == Partial || f.records[id] == v)
            && (Publishes(p, id) ==> PastReady(m.proc) && !m.proc.phase.Filling?)
  {
  }

  lemma TiedStays(w: World, e: Event, id: string, v: File<PublicationRecord>)
    requires Enabled(w, e, false) && Tied(w, id, v) && OneJob(Apply(w, e), id)
    ensures Tied(Apply(w, e), id, v)
  {
    hide PublishMove, WithdrawMove, ListMove;
    var w' := Apply(w, e);
    var pid :| pid in w.procs && Publishes(w.procs[pid], id);
    JobStays(w, e, pid);
    assert Publishes(w'.procs[pid], id);
    if e.Act? {
      var p := w.procs[e.pid];
      if p.job.Publish? { PublishMoveTied(w, p, e.choice, id, v); }
      if p.job.Withdraw? { WithdrawMoveEffects(w, p, e.choice, ""); }
      if p.job.List? { ListMoveEffects(w, p, e.choice); }
    }
  }

  lemma {:induction false} TiedForever(trace: seq<World>, events: seq<Event>, m: nat, n: nat, id: string,
                                       v: File<PublicationRecord>)
    requires Run(trace, events, false) && m <= n < |trace| && Tied(trace[m], id, v) && OneJob(trace[n], id)
    ensures Tied(trace[n], id, v)
    decreases n
  {
    hide Apply, Enabled, Tied, OneJob;
    if m < n {
      OneJobBefore(trace, events, n - 1, n, id);
      TiedForever(trace, events, m, n - 1, id, v);
      TiedStays(trace[n - 1], events[n - 1], id, v);
    }
  }

  // ---------------------------------------------- the series a listing has begun to read

  /** A live publisher of series `s` has created its file and not yet filled it. */
  predicate FillsIn(p: Proc, s: SeriesId) { p.job.Publish? && p.phase.Filling? && p.series == s }

  /** The files, once the file of series `s` that is just now being filled, if there is one, is complete. */
  ghost function Completed(w: World, s: SeriesId): Files {
    if exists pid :: pid in w.procs && FillsIn(w.procs[pid], s) then
      var pid :| pid in w.procs && FillsIn(w.procs[pid], s);
      var r := w.procs[pid].job.candidate;
      ApplyEffect(w.files, PutRecord(r.publicationId, Complete(r)))
    else w.files
  }

  /** At most one publisher of a series is filling a file; `Completed` completes that one. */
  lemma CompletedIs(w: World, s: SeriesId, pid: nat)
    requires Inv(w) && pid in w.procs && FillsIn(w.procs[pid], s)
    ensures var r := w.procs[pid].job.candidate;
            && Completed(w, s) == ApplyEffect(w.files, PutRecord(r.publicationId, Complete(r)))
            && r.publicationId in w.files.records && w.files.records[r.publicationId] == Partial
            && r.Series() == s && Fits(w.files, s, r)
  {
    hide Keyed, EverySeriesIsAChain, Fits;
    assert Facts(w.files, w.procs[pid]) && AtHome(w.home, w.procs[pid]);
    forall other | other in w.procs && FillsIn(w.procs[other], s) ensures other == pid {
      assert Critical(w.procs[other]) && Critical(w.procs[pid]);
    }
  }

  lemma CompletedHasChain(w: World, s: SeriesId)
    requires Inv(w)
    ensures HasChain(Completed(w, s).records, s) && Completed(w, s).records.Keys == w.files.records.Keys
  {
    hide Keyed, ChainOf, LocksHeld, ProcsSound;
    ChainInReach(w, s);
    var q :| ChainOf(w.files.records, s, q);
    if pid :| pid in w.procs && FillsIn(w.procs[pid], s) {
      CompletedIs(w, s, pid);
      var r := w.procs[pid].job.candidate;
      AppendToChain(w.files, s, q, r);
      assert ChainOf(Completed(w, s).records, s, q + [r]);
    }
  }

  /** When the names are enumerated, every file of the series is tied to what it is or is about to be. */
  lemma TiedAtListing(w: World, s: SeriesId, id: string)
    requires Inv(w) && AllCreated(w) && OneJob(w, id)
    requires id in w.files.records && id in w.home && w.home[id] == s
    ensures id in Completed(w, s).records && Tied(w, id, Completed(w, s).records[id])
  {
    hide Keyed, EverySeriesIsAChain, LocksHeld, Inv;
    assert HasCreator(w, id, w.files.records[id]);
    var pid :| pid in w.procs && Creates(w.procs[pid], id, w.files.records[id]);
    HomeOfJob(w, pid);
    assert forall k :: k in w.procs && Publishes(w.procs[k], id) ==> k == pid;
    if w.procs[pid].phase.Filling? {
      CompletedIs(w, s, pid);
    } else if other :| other in w.procs && FillsIn(w.procs[other], s) {
      CompletedIs(w, s, other);
      assert !Publishes(w.procs[other], id);
    }
  }

  lemma HomeOfJob(w: World, pid: nat)
    requires Inv(w) && pid in w.procs && w.procs[pid].job.Publish?
    ensures AtHome(w.home, w.procs[pid])
  {
  }

  lemma LoadedIsAtHome(w: World, id: string)
    requires Inv(w) && id in w.files.records
    ensures id in w.home
    ensures w.files.records[id].Complete? ==> w.files.records[id].value.Series() == w.home[id]
  {
  }

  lemma HomeStays(w: World, e: Event, id: string)
    requires Enabled(w, e, false) && id in w.home
    ensures id in Apply(w, e).home && Apply(w, e).home[id] == w.home[id]
  {
  }

  lemma {:induction false} HomeIsForever(trace: seq<World>, events: seq<Event>, m: nat, n: nat, id: string)
    requires Run(trace, events, false) && m <= n < |trace| && id in trace[m].home
    ensures id in trace[n].home && trace[n].home[id] == trace[m].home[id]
    decreases n
  {
    hide Apply, Enabled;
    if m < n {
      HomeIsForever(trace, events, m, n - 1, id);
      HomeStays(trace[n - 1], events[n - 1], id);
    }
  }

  /** Whatever of the series can still be loaded is what was, or was about to be, when the names were enumerated. */
  lemma ListedFilesStay(trace: seq<World>, events: seq<Event>, m: nat, n: nat, s: SeriesId, names: seq<string>)
    requires Run(trace, events, true) && Initial(trace[0]) && m <= n < |trace|
    requires Names(names, trace[m].files.records) && OneJobEach(trace[n], names)
    ensures SameSeries(Completed(trace[m], s), trace[n].files, s)
  {
    hide Run, Inv, Tied, OneJob, Completed, AllCreated;
    InitialIsSound(trace[0]);
    InvariantOverRuns(trace, events, m);
    InvariantOverRuns(trace, events, n);
    WeakenRun(trace, events);
    CreatorsOverRuns(trace, events, m);
    CompletedHasChain(trace[m], s);
    var f, g := Completed(trace[m], s), trace[n].files;
    forall id | id in f.records ensures SameFile(f, g, s, id) {
      LoadedIsAtHome(trace[m], id);
      HomeIsForever(trace, events, m, n, id);
      if id in g.records { LoadedIsAtHome(trace[n], id); }
      assert id in names;
      if trace[m].home[id] == s {
        OneJobBefore(trace, events, m, n, id);
        TiedAtListing(trace[m], s, id);
        TiedForever(trace, events, m, n, id, f.records[id]);
        TiedFile(trace[n], id, f.records[id]);
      } else {
        CompletedElsewhere(trace[m], s, id);
      }
    }
  }

  lemma TiedFile(w: World, id: string, v: File<PublicationRecord>)
    requires Tied(w, id, v)
    ensures Loads(w.files.records, id) ==> w.files.records[id] == v
  {
  }

  lemma CompletedElsewhere(w: World, s: SeriesId, id: string)
    requires Inv(w) && id in w.files.records && id in w.home && w.home[id] != s
    ensures id in Completed(w, s).records && Completed(w, s).records[id] == w.files.records[id]
    ensures w.files.records[id].Complete? ==> w.files.records[id].value.Series() != s
  {
    hide Keyed, EverySeriesIsAChain, LocksHeld, Inv;
    LoadedIsAtHome(w, id);
    if pid :| pid in w.procs && FillsIn(w.procs[pid], s) {
      CompletedIs(w, s, pid);
      HomeOfJob(w, pid);
    }
  }

  /** The reader's progress, measured against the files `f` it enumerated. */
  ghost predicate Tracks(f: Files, s: SeriesId, p: Proc, met: bool) {
    && p.job.List? && p.series == s
    && match p.phase
       case Checking(names, next) => !met && Names(names, f.records) && next <= |names|
       case Collecting(names, next, got) => !met && Names(names, f.records) && Listing(f, s, names, next, got)
       case Finished(Listed(got)) => !met && ListsSeries(f, s, got)
       case Finished(_) => met
       case _ => false
  }

  lemma CollectsOneMore(f: Files, g: Files, s: SeriesId, names: seq<string>, next: nat, got: seq<PublicationRecord>)
    requires Names(names, f.records) && Listing(f, s, names, next, got) && next < |names|
    requires SameSeries(f, g, s) && Loads(g.records, names[next])
    ensures var r := g.records[names[next]].value;
            Listing(f, s, names, next + 1, if r.Series() == s then got + [r] else got)
  {
    var id := names[next];
    var r := g.records[id].value;
    assert id in f.records && SameFile(f, g, s, id);
    if r.Series() == s {
      PublicationProtocol.ListingStep(f, s, names, next, got);
    } else {
      assert names[..next + 1] == names[..next] + [id];
    }
  }

  lemma EndsTheListing(f: Files, s: SeriesId, names: seq<string>, got: seq<PublicationRecord>)
    requires Names(names, f.records) && Listing(f, s, names, |names|, got)
    requires HasChain(f.records, s)
    ensures ListsSeries(f, s, got) && SeriesAccepted(got)
  {
    assert names[..|names|] == names;
    var q :| ChainOf(f.records, s, q);
    ListedSeriesIsTheChain(f, s, got, q);
  }

  lemma ReaderTracks(f: Files, w: World, s: SeriesId, p: Proc, c: Choice)
    requires Tracks(f, s, p, false) && Live(p) && c.ok && SameSeries(f, w.files, s) && HasChain(f.records, s)
    ensures Tracks(f, s, ListMove(w, p, c).proc, MeetsUnreadable(w, p))
  {
    hide SameSeries, HasChain, SeriesAccepted;
    match p.phase
    case Checking(names, next) =>
      if next >= |names| { assert names[..0] == []; }
    case Collecting(names, next, got) =>
      if next >= |names| { EndsTheListing(f, s, names, got); }
      else if Loads(w.files.records, names[next]) { CollectsOneMore(f, w.files, s, names, next, got); }
  }

  lemma OnlyTheReaderMoves(w: World, e: Event, reader: nat)
    requires Enabled(w, e, false) && reader in w.procs && w.procs[reader].job.List?
    requires e.Crash? ==> e.pid != reader
    ensures reader in Apply(w, e).procs
    ensures Apply(w, e).procs[reader] ==
              if e.Act? && e.pid == reader then ListMove(w, w.procs[reader], e.choice).proc else w.procs[reader]
  {
  }

  lemma MetOneMore(trace: seq<World>, events: seq<Event>, reader: nat, m: nat, n: nat)
    requires m <= n
    ensures HasMet(trace, events, reader, m, n + 1) <==>
              HasMet(trace, events, reader, m, n) || Meets(trace, events, reader, n)
  {
    hide Meets;
    if HasMet(trace, events, reader, m, n) {
      var k :| m <= k < n && Meets(trace, events, reader, k);
      assert m <= k < n + 1 && Meets(trace, events, reader, k);
    }
  }

  lemma TracksOneMore(trace: seq<World>, events: seq<Event>, reader: nat, m: nat, n: nat, s: SeriesId, f: Files)
    requires Run(trace, events, true) && m <= n && n + 1 < |trace| && ReadsCleanly(events, reader, m, n + 1)
    requires reader in trace[n].procs && Tracks(f, s, trace[n].procs[reader], HasMet(trace, events, reader, m, n))
    requires SameSeries(f, trace[n].files, s) && HasChain(f.records, s)
    ensures reader in trace[n + 1].procs
    ensures Tracks(f, s, trace[n + 1].procs[reader], HasMet(trace, events, reader, m, n + 1))
  {
    hide HasMet, SameSeries, HasChain, Apply, ListMove, Names, Listing, ListsSeries, MeetsUnreadable;
    var w, e := trace[n], events[n];
    StrictIsEnabled(w, e);
    OnlyTheReaderMoves(w, e, reader);
    MetOneMore(trace, events, reader, m, n);
    if e.Act? && e.pid == reader {
      assert Live(w.procs[reader]);
      ReaderTracks(f, w, s, w.procs[reader], e.choice);
    }
  }

  lemma {:induction false} TracksOverRuns(trace: seq<World>, events: seq<Event>, reader: nat, m: nat, n: nat,
                                          s: SeriesId, names: seq<string>)
    requires Run(trace, events, true) && Initial(trace[0]) && m <= n < |trace| && OneJobEach(trace[n], names)
    requires reader in trace[m].procs && trace[m].procs[reader] == Proc(List, s, Checking(names, 0))
    requires Names(names, trace[m].files.records) && ReadsCleanly(events, reader, m, n)
    ensures reader in trace[n].procs
    ensures Tracks(Completed(trace[m], s), s, trace[n].procs[reader], HasMet(trace, events, reader, m, n))
    decreases n
  {
    hide Apply, Enabled, SameSeries, HasChain, Listing, ListsSeries, Inv, OneJob, Completed;
    InitialIsSound(trace[0]);
    InvariantOverRuns(trace, events, m);
    CompletedHasChain(trace[m], s);
    if m < n {
      WeakenRun(trace, events);
      forall id | id in names ensures OneJob(trace[n - 1], id) { OneJobBefore(trace, events, n - 1, n, id); }
      TracksOverRuns(trace, events, reader, m, n - 1, s, names);
      ListedFilesStay(trace, events, m, n - 1, s, names);
      TracksOneMore(trace, events, reader, m, n - 1, s, Completed(trace[m], s));
    }
  }

  lemma ChainInReach(w: World, s: SeriesId)
    requires Inv(w)
    ensures HasChain(w.files.records, s)
  {
  }

  /**
   A reader that enumerated the collection at time `m` and has finished at time `n` with no
   fault of its own, none of the ids it listed given to a second publisher, has failed exactly
   when some file it opened did not load at that moment. Otherwise it returns the series as it
   stood at `m`, together with the record then being filled if there was one - whatever was
   added, withdrawn or rolled back meanwhile, in its own series as in others.
   */
  lemma ListingFailsExactly(trace: seq<World>, events: seq<Event>, reader: nat, m: nat, n: nat, s: SeriesId,
                            names: seq<string>)
    requires Run(trace, events, true) && Initial(trace[0]) && m <= n < |trace| && OneJobEach(trace[n], names)
    requires reader in trace[m].procs && trace[m].procs[reader] == Proc(List, s, Checking(names, 0))
    requires Names(names, trace[m].files.records) && ReadsCleanly(events, reader, m, n)
    requires reader in trace[n].procs && trace[n].procs[reader].phase.Finished?
    ensures var outcome := trace[n].procs[reader].phase.outcome;
            && (!outcome.Listed? <==> HasMet(trace, events, reader, m, n))
            && (outcome.Listed? ==> ListsSeries(Completed(trace[m], s), s, outcome.records))
  {
    hide Run, Names, ReadsCleanly, HasMet, ListsSeries, OneJobEach, Completed;
    TracksOverRuns(trace, events, reader, m, n, s, names);
  }

  /**
   The exact condition for a replay among concurrent writers. After a writer has finished
   `Written`, a repeat with unchanged manifest bytes whose reads meet no fault, none of the
   ids it lists given to a second publisher, is answered with the same record exactly when no
   file its listing opened failed to load at that moment, and nobody is just then writing a
   withdrawal of the record.
   */
  lemma ReplaySucceedsExactly(trace: seq<World>, events: seq<Event>, writer: nat, i: nat, reader: nat, m: nat, n: nat,
                              b: nat, c: nat, q: ManifestRequest, digest: string, predecessor: Option<string>,
                              names: seq<string>)
    requires Run(trace, events, true) && Initial(trace[0]) && i <= m <= n <= b <= c < |trace|
             && OneJobEach(trace[n], names)
    requires writer in trace[i].procs && trace[i].procs[writer].job.Publish?
    requires trace[i].procs[writer].phase == Finished(Written)
    requires Replays(trace[i].procs[writer].job.candidate, q, digest, predecessor)
    requires reader in trace[m].procs && trace[m].procs[reader] == Proc(List, q.Series(), Checking(names, 0))
    requires Names(names, trace[m].files.records) && ReadsCleanly(events, reader, m, n)
    requires reader in trace[n].procs && trace[n].procs[reader].phase.Finished?
    ensures var r := trace[i].procs[writer].job.candidate;
            var next := AfterListing(trace[n].procs[reader].phase.outcome, q, digest, predecessor);
            var lookup := ReadWithdrawal(trace[b].files, true, trace[c].files, true, r.publicationId);
            var met := HasMet(trace, events, reader, m, n);
            && (next == ReadWithdrawalOf(r) <==> !met) && (met ==> next.Return? && next.result.Failed?)
            && AttachWithdrawal(lookup, r)
               == if HalfWithdrawn(trace[c].files, r.publicationId) then Failed(IntegrityFailure)
                  else Existing(r, WithdrawalIn(trace[c].files, r.publicationId))
  {
    hide Run, Names, ReadsCleanly, HasMet, Replays, Settled, OneJobEach, Completed;
    var r := trace[i].procs[writer].job.candidate;
    WrittenIsForever(trace, events, i, m, writer);
    LookupExactly(trace, events, m, b, c, r, true, true);
    ListingFailsExactly(trace, events, reader, m, n, q.Series(), names);
    var outcome := trace[n].procs[reader].phase.outcome;
    if outcome.Listed? {
      InitialIsSound(trace[0]);
      InvariantOverRuns(trace, events, m);
      ReplayOfSettled(trace[m], outcome.records, r, q, digest, predecessor);
    }
  }

  lemma ReplayOfSettled(w: World, got: seq<PublicationRecord>, r: PublicationRecord, q: ManifestRequest, digest: string,
                        predecessor: Option<string>)
    requires Inv(w) && Settled(w, r) && Replays(r, q, digest, predecessor)
    requires ListsSeries(Completed(w, q.Series()), q.Series(), got)
    ensures AfterListing(Listed(got), q, digest, predecessor) == ReadWithdrawalOf(r)
  {
    hide Replays, Reconcile, Completed, Inv;
    ReplaySeries(r, q, digest, predecessor);
    var f := Completed(w, q.Series());
    SettledIsCompleted(w, q.Series(), r);
    CompletedHasChain(w, q.Series());
    assert r in got;
    var chain :| ChainOf(f.records, q.Series(), chain);
    ListedSeriesIsTheChain(f, q.Series(), got, chain);
    assert SeriesAccepted(got);
    ReplayIsFound(got, r, q, digest, predecessor);
  }

  lemma SettledIsCompleted(w: World, s: SeriesId, r: PublicationRecord)
    requires Inv(w) && Settled(w, r)
    ensures r.publicationId in Completed(w, s).records && Completed(w, s).records[r.publicationId] == Complete(r)
  {
    hide Inv;
    if pid :| pid in w.procs && FillsIn(w.procs[pid], s) { CompletedIs(w, s, pid); }
  }

  // --------------------------------------------------- an id is tried once by its service

  /** Without a second publisher of its id, a record is settled when its writer ends or can never be loaded again. */
  lemma EndedIsSettledOrGone(trace: seq<World>, events: seq<Event>, writer: nat, i: nat, n: nat)
    requires Run(trace, events, true) && Initial(trace[0]) && i <= n < |trace|
    requires writer in trace[i].procs && trace[i].procs[writer].job.Publish? && trace[i].procs[writer].phase.Finished?
    requires OneJob(trace[n], trace[i].procs[writer].job.candidate.publicationId)
    ensures var r := trace[i].procs[writer].job.candidate;
            Settled(trace[i], r) || !Loads(trace[n].files.records, r.publicationId)
  {
    hide Run, Tied;
    WeakenRun(trace, events);
    CreatorsOverRuns(trace, events, i);
    var w, r := trace[i], trace[i].procs[writer].job.candidate;
    var id := r.publicationId;
    OneJobBefore(trace, events, i, n, id);
    assert forall k :: k in w.procs && Publishes(w.procs[k], id) ==> k == writer;
    assert id in w.files.records ==> HasCreator(w, id, w.files.records[id]);
    if !(id in w.files.records && w.files.records[id] == Complete(r)) {
      assert Tied(w, id, Partial) by { OnlyEmpty(w, writer, id); }
      TiedForever(trace, events, i, n, id, Partial);
      TiedFile(trace[n], id, Partial);
    }
  }

  lemma OnlyEmpty(w: World, writer: nat, id: string)
    requires writer in w.procs && Publishes(w.procs[writer], id) && w.procs[writer].phase.Finished?
    requires forall k :: k in w.procs && Publishes(w.procs[k], id) ==> k == writer
    requires id in w.files.records ==> HasCreator(w, id, w.files.records[id])
    requires id in w.files.records ==> w.files.records[id] != Complete(w.procs[writer].job.candidate)
    ensures Tied(w, id, Partial)
  {
  }

  /**
   The allocation loop tries another id only for an id that somebody else has used. With ids
   from a fresh supply every attempt that reaches its writer is the last: a failed write is
   answered, by the record it stored or by a failure, and then its record is stored for good
   or can never be loaded.
   */
  lemma FreshIdIsTriedOnce(trace: seq<World>, events: seq<Event>, writer: nat, i: nat, reader: nat,
                           q: ManifestRequest, digest: string, predecessor: Option<string>, t: Times, own: Rereads)
    requires Run(trace, events, true) && Initial(trace[0]) && InOrder(i, t, |trace|)
    requires writer in trace[i].procs && trace[i].procs[writer].job.Publish? && trace[i].procs[writer].phase.Finished?
    requires !trace[i].procs[writer].phase.outcome.Written?
    requires Replays(trace[i].procs[writer].job.candidate, q, digest, predecessor)
    requires OneJob(trace[t.again], trace[i].procs[writer].job.candidate.publicationId)
    requires reader in trace[t.listed].procs && trace[t.listed].procs[reader].phase.Waiting?
    requires trace[t.listed].procs[reader].job.List? && trace[t.listed].procs[reader].series == q.Series()
    requires reader in trace[t.done].procs && trace[t.done].procs[reader].phase.Finished?
    ensures var r := trace[i].procs[writer].job.candidate;
            var listing := trace[t.done].procs[reader].phase.outcome;
            && AnswerToError(trace, trace[i].procs[writer].phase.outcome, r.publicationId, q, digest, predecessor,
                             listing, t, own).Some?
            && (Settled(trace[t.again], r) || !Loads(trace[t.again].files.records, r.publicationId))
  {
    hide Run, Replays, Settled, OneJob, Reconciled, Loads;
    var r := trace[i].procs[writer].job.candidate;
    EndedIsSettledOrGone(trace, events, writer, i, t.again);
    if Settled(trace[i], r) {
      WeakenRun(trace, events);
      SettledForever(trace, events, i, t.listed, r);
      SettledForever(trace, events, i, t.again, r);
      FailedPublishIsReconciled(trace, events, writer, i, reader, q, digest, predecessor, t, own);
    }
  }
}
