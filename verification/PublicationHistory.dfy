/**
 What every run of the publication protocol guarantees: safety of the stored series,
 durability of completed writes, and a current publication that never goes back.
 */
module PublicationHistory {
  import opened Foundations
  import opened PublicationRecords
  import opened PublicationProtocol

  // -------------------------------------------------------------------- safety

  ghost predicate LogicalRevisionsUnique(f: Files) {
    forall a, b |
      && a in f.records && b in f.records && f.records[a].Complete? && f.records[b].Complete?
      && f.records[a].value.Series() == f.records[b].value.Series()
      && f.records[a].value.recordSetRevision == f.records[b].value.recordSetRevision
      :: a == b
  }

  ghost predicate NoOrphanWithdrawal(f: Files) {
    forall id :: id in f.withdrawals ==> id in f.records && f.records[id].Complete?
  }

  /** `got` lists the complete records of `s`, each once. */
  ghost predicate ListsSeries(f: Files, s: SeriesId, got: seq<PublicationRecord>) {
    && Distinct(got)
    && (forall x :: x in got ==>
        x.publicationId in f.records && f.records[x.publicationId] == Complete(x) && x.Series() == s)
    && (forall id :: id in f.records && f.records[id].Complete? && f.records[id].value.Series() == s ==>
          f.records[id].value in got)
  }

  lemma ListedSeriesIsTheChain(f: Files, s: SeriesId, got: seq<PublicationRecord>, q: seq<PublicationRecord>)
    requires ListsSeries(f, s, got) && ChainOf(f.records, s, q)
    ensures multiset(got) == multiset(q)
  {
    forall x | x in q ensures x in got { assert f.records[x.publicationId].value == x; }
    forall x | x in got ensures x in q { assert f.records[x.publicationId].value == x; }
    forall i, j | 0 <= i < j < |q| ensures q[i] != q[j] { assert q[i].publicationId != q[j].publicationId; }
    SameMembersSameContents(got, q);
  }

  lemma UniqueRevisions(f: Files, home: map<string, SeriesId>)
    requires Keyed(f, home) && EverySeriesIsAChain(f)
    ensures LogicalRevisionsUnique(f)
  {
    forall a, b |
      && a in f.records && b in f.records && f.records[a].Complete? && f.records[b].Complete?
      && f.records[a].value.Series() == f.records[b].value.Series()
      && f.records[a].value.recordSetRevision == f.records[b].value.recordSetRevision
      ensures a == b
    {
      var s := f.records[a].value.Series();
      assert HasChain(f.records, s);
      var q :| ChainOf(f.records, s, q);
      var i :| 0 <= i < |q| && q[i] == f.records[a].value;
      var j :| 0 <= j < |q| && q[j] == f.records[b].value;
      if i < j { ChainRises(q, i, j); } else if j < i { ChainRises(q, j, i); }
    }
  }

  /**
   Main safety result, for any number of writers over any number of series: in every
   reachable state each series' complete records, however listed, pass the series
   validator; no logical revision is bound twice; no withdrawal outlives its record.
   */
  lemma PublicationsStaySound(trace: seq<World>, events: seq<Event>, i: nat)
    requires Run(trace, events, true) && Initial(trace[0]) && i < |trace|
    ensures forall s, got :: ListsSeries(trace[i].files, s, got) ==> SeriesAccepted(got)
    ensures LogicalRevisionsUnique(trace[i].files) && NoOrphanWithdrawal(trace[i].files)
  {
    InitialIsSound(trace[0]);
    InvariantOverRuns(trace, events, i);
    var f := trace[i].files;
    UniqueRevisions(f, trace[i].home);
    forall s, got | ListsSeries(f, s, got) ensures SeriesAccepted(got) {
      assert HasChain(f.records, s);
      var q :| ChainOf(f.records, s, q);
      ListedSeriesIsTheChain(f, s, got, q);
    }
  }

  // ---------------------------------------------------------------- durability

  /** A live writer may still undo what it has created. */
  predicate Undoable(p: Proc) {
    Live(p) && (p.phase.Filling? || p.phase.Verifying? || p.phase.RollingBack?)
  }

  predicate UndoableRecord(p: Proc, id: string) {
    Undoable(p) && p.job.Publish? && p.job.candidate.publicationId == id
  }

  predicate UndoableWithdrawal(p: Proc, id: string) {
    Undoable(p) && p.job.Withdraw? && p.job.withdrawal.publicationId == id
  }

  /** Stored, and no live writer can still remove it. */
  ghost predicate Settled(w: World, r: PublicationRecord) { RecordSettled(w, r.publicationId, Complete(r)) }

  ghost predicate RecordSettled(w: World, id: string, file: File<PublicationRecord>) {
    && id in w.files.records && w.files.records[id] == file
    && (forall pid :: pid in w.procs ==> !UndoableRecord(w.procs[pid], id))
  }

  ghost predicate WithdrawalSettled(w: World, id: string, file: File<PublicationWithdrawal>) {
    && id in w.files.withdrawals && w.files.withdrawals[id] == file
    && (forall pid :: pid in w.procs ==> !UndoableWithdrawal(w.procs[pid], id))
  }

  lemma PublishMoveEffects(w: World, p: Proc, c: Choice, id: string)
    requires p.job.Publish? && Live(p) && id in w.files.records && !UndoableRecord(p, id)
    ensures var m := PublishMove(w, p, c); var f := ApplyEffect(w.files, m.effect);
            && id in f.records && f.records[id] == w.files.records[id]
            && f.withdrawals == w.files.withdrawals
            && m.proc.job == p.job && !UndoableRecord(m.proc, id)
  {
  }

  lemma WithdrawMoveEffects(w: World, p: Proc, c: Choice, id: string)
    requires p.job.Withdraw? && Live(p)
    ensures var m := WithdrawMove(w, p, c); var f := ApplyEffect(w.files, m.effect);
            && f.records == w.files.records && m.proc.job == p.job
            && (id in w.files.withdrawals && !UndoableWithdrawal(p, id) ==>
                  id in f.withdrawals && f.withdrawals[id] == w.files.withdrawals[id]
                    && !UndoableWithdrawal(m.proc, id))
  {
  }

  lemma RecordSettledStays(w: World, e: Event, id: string, file: File<PublicationRecord>)
    requires Enabled(w, e, false) && RecordSettled(w, id, file)
    ensures RecordSettled(Apply(w, e), id, file)
  {
    if e.Act? {
      var p := w.procs[e.pid];
      if p.job.Publish? { PublishMoveEffects(w, p, e.choice, id); }
      if p.job.Withdraw? { WithdrawMoveEffects(w, p, e.choice, id); }
    }
  }

  lemma WithdrawalSettledStays(w: World, e: Event, id: string, file: File<PublicationWithdrawal>)
    requires Enabled(w, e, false) && WithdrawalSettled(w, id, file)
    ensures WithdrawalSettled(Apply(w, e), id, file)
  {
    if e.Act? {
      var p := w.procs[e.pid];
      if p.job.Publish? { PublishKeepsWithdrawals(w, p, e.choice); }
      if p.job.Withdraw? { WithdrawMoveEffects(w, p, e.choice, id); }
    }
  }

  lemma PublishKeepsWithdrawals(w: World, p: Proc, c: Choice)
    requires p.job.Publish? && Live(p)
    ensures ApplyEffect(w.files, PublishMove(w, p, c).effect).withdrawals == w.files.withdrawals
    ensures PublishMove(w, p, c).proc.job == p.job
  {
  }

  /** A settled file is never removed or replaced by anything that happens later. */
  lemma {:induction false} RecordSettledForever(trace: seq<World>, events: seq<Event>, i: nat, j: nat, id: string,
                                                file: File<PublicationRecord>)
    requires Run(trace, events, false) && i <= j < |trace| && RecordSettled(trace[i], id, file)
    ensures RecordSettled(trace[j], id, file)
    decreases j
  {
    hide RecordSettled, Apply, Enabled;
    if i < j {
      RecordSettledForever(trace, events, i, j - 1, id, file);
      RecordSettledStays(trace[j - 1], events[j - 1], id, file);
    }
  }

  lemma SettledForever(trace: seq<World>, events: seq<Event>, i: nat, j: nat, r: PublicationRecord)
    requires Run(trace, events, false) && i <= j < |trace| && Settled(trace[i], r)
    ensures Settled(trace[j], r)
  {
    RecordSettledForever(trace, events, i, j, r.publicationId, Complete(r));
  }

  lemma {:induction false} WithdrawalSettledForever(trace: seq<World>, events: seq<Event>, i: nat, j: nat, id: string,
                                                    file: File<PublicationWithdrawal>)
    requires Run(trace, events, false) && i <= j < |trace| && WithdrawalSettled(trace[i], id, file)
    ensures WithdrawalSettled(trace[j], id, file)
    decreases j
  {
    hide Apply, Enabled;
    if i < j {
      WithdrawalSettledForever(trace, events, i, j - 1, id, file);
      WithdrawalSettledStays(trace[j - 1], events[j - 1], id, file);
    }
  }

  predicate ClaimsWritten(p: Proc) {
    p.phase == Releasing(Written) || p.phase == Finished(Written)
  }

  ghost predicate ClaimsHonest(w: World) {
    forall pid :: pid in w.procs && ClaimsWritten(w.procs[pid]) ==> Vouched(w, w.procs[pid].job)
  }

  /** What a writer that reports success has written is settled. */
  ghost predicate Vouched(w: World, job: Job) {
    match job
    case Publish(r) => Settled(w, r)
    case Withdraw(d) => WithdrawalSettled(w, d.publicationId, Complete(d))
    case List => true
  }

  lemma OnlyHolderIsUndoable(w: World, pid: nat, k: nat, id: string)
    requires Inv(w) && pid in w.procs && k in w.procs
    requires || (UndoableRecord(w.procs[pid], id) && UndoableRecord(w.procs[k], id))
             || (UndoableWithdrawal(w.procs[pid], id) && UndoableWithdrawal(w.procs[k], id))
    ensures pid == k
  {
    assert AtHome(w.home, w.procs[pid]) && AtHome(w.home, w.procs[k]);
    assert Critical(w.procs[pid]) && Critical(w.procs[k]);
  }

  lemma NewClaim(w: World, e: Event, pid: nat)
    requires Enabled(w, e, true) && pid in Apply(w, e).procs && ClaimsWritten(Apply(w, e).procs[pid])
    ensures pid in w.procs && Apply(w, e).procs[pid].job == w.procs[pid].job
    ensures !ClaimsWritten(w.procs[pid]) ==>
              e.Act? && e.pid == pid && Live(w.procs[pid]) && ClaimsWritten(NextMove(w, w.procs[pid], e.choice).proc)
  {
  }

  lemma ClaimsStayHonest(w: World, e: Event)
    requires Inv(w) && ClaimsHonest(w) && Enabled(w, e, true)
    ensures ClaimsHonest(Apply(w, e))
  {
    hide Inv, Apply, Enabled, RecordSettled, WithdrawalSettled, NextMove;
    StrictIsEnabled(w, e);
    var w' := Apply(w, e);
    forall pid | pid in w'.procs && ClaimsWritten(w'.procs[pid]) ensures Vouched(w', w'.procs[pid].job) {
      NewClaim(w, e, pid);
      var job := w.procs[pid].job;
      if !ClaimsWritten(w.procs[pid]) {
        VerifiedIsSettled(w, pid, e.choice);
      } else if job.Publish? {
        RecordSettledStays(w, e, job.candidate.publicationId, Complete(job.candidate));
      } else if job.Withdraw? {
        WithdrawalSettledStays(w, e, job.withdrawal.publicationId, Complete(job.withdrawal));
      }
    }
  }

  lemma StrictIsEnabled(w: World, e: Event)
    requires Enabled(w, e, true)
    ensures Enabled(w, e, false)
  {
  }

  lemma VerifiedIsSettled(w: World, pid: nat, c: Choice)
    requires Inv(w) && pid in w.procs && Live(w.procs[pid])
    requires !ClaimsWritten(w.procs[pid]) && ClaimsWritten(NextMove(w, w.procs[pid], c).proc)
    ensures Vouched(Apply(w, Act(pid, c)), w.procs[pid].job)
  {
    var p := w.procs[pid];
    if p.job.Publish? { VerifiedRecordIsSettled(w, pid, c); }
    if p.job.Withdraw? { VerifiedWithdrawalIsSettled(w, pid, c); }
  }

  /** What a writer has yet to verify is stored, and is its own. */
  lemma VerifyingIsStored(w: World, pid: nat)
    requires Inv(w) && pid in w.procs && w.procs[pid].phase.Verifying?
    ensures var job := w.procs[pid].job;
            && (job.Publish? ==>
                  var id := job.candidate.publicationId;
                  id in w.files.records && w.files.records[id] == Complete(job.candidate))
            && (job.Withdraw? ==>
                  var id := job.withdrawal.publicationId;
                  id in w.files.withdrawals && w.files.withdrawals[id] == Complete(job.withdrawal))
  {
    hide Keyed, EverySeriesIsAChain, LocksHeld;
    assert Facts(w.files, w.procs[pid]);
  }

  lemma RollsBackAFailure(w: World, pid: nat)
    requires Inv(w) && pid in w.procs && !w.procs[pid].job.List?
    ensures w.procs[pid].phase.RollingBack? ==> w.procs[pid].phase.failure != Written
  {
    hide Keyed, EverySeriesIsAChain, LocksHeld;
    assert Facts(w.files, w.procs[pid]);
  }

  lemma VerifiedRecordIsSettled(w: World, pid: nat, c: Choice)
    requires Inv(w) && pid in w.procs && Live(w.procs[pid]) && w.procs[pid].job.Publish?
    requires !ClaimsWritten(w.procs[pid]) && ClaimsWritten(PublishMove(w, w.procs[pid], c).proc)
    ensures Settled(Apply(w, Act(pid, c)), w.procs[pid].job.candidate)
  {
    hide Inv;
    RollsBackAFailure(w, pid);
    var p := w.procs[pid];
    var r := p.job.candidate;
    assert p.phase.Verifying?;
    VerifyingIsStored(w, pid);
    var w' := Apply(w, Act(pid, c));
    forall k | k in w'.procs ensures !UndoableRecord(w'.procs[k], r.publicationId) {
      if k != pid && UndoableRecord(w.procs[k], r.publicationId) {
        OnlyHolderIsUndoable(w, pid, k, r.publicationId);
      }
    }
  }

  lemma VerifiedWithdrawalIsSettled(w: World, pid: nat, c: Choice)
    requires Inv(w) && pid in w.procs && Live(w.procs[pid]) && w.procs[pid].job.Withdraw?
    requires !ClaimsWritten(w.procs[pid]) && ClaimsWritten(WithdrawMove(w, w.procs[pid], c).proc)
    ensures var d := w.procs[pid].job.withdrawal;
            WithdrawalSettled(Apply(w, Act(pid, c)), d.publicationId, Complete(d))
  {
    hide Inv;
    RollsBackAFailure(w, pid);
    var p := w.procs[pid];
    var d := p.job.withdrawal;
    assert p.phase.Verifying?;
    VerifyingIsStored(w, pid);
    var w' := Apply(w, Act(pid, c));
    forall k | k in w'.procs ensures !UndoableWithdrawal(w'.procs[k], d.publicationId) {
      if k != pid && UndoableWithdrawal(w.procs[k], d.publicationId) {
        OnlyHolderIsUndoable(w, pid, k, d.publicationId);
      }
    }
  }

  /** A writer that reports success has stored its record for good. */
  lemma {:induction false} WrittenIsForever(trace: seq<World>, events: seq<Event>, i: nat, j: nat, pid: nat)
    requires Run(trace, events, true) && Initial(trace[0]) && i <= j < |trace|
    requires pid in trace[i].procs && trace[i].procs[pid].job.Publish? && trace[i].procs[pid].phase == Finished(Written)
    ensures Settled(trace[j], trace[i].procs[pid].job.candidate)
  {
    AlwaysHonest(trace, events, i);
    SettledForever(trace, events, i, j, trace[i].procs[pid].job.candidate);
  }

  /** The same for a withdrawal. */
  lemma WithdrawnIsForever(trace: seq<World>, events: seq<Event>, i: nat, j: nat, pid: nat)
    requires Run(trace, events, true) && Initial(trace[0]) && i <= j < |trace|
    requires pid in trace[i].procs && trace[i].procs[pid].job.Withdraw?
             && trace[i].procs[pid].phase == Finished(Written)
    ensures var d := trace[i].procs[pid].job.withdrawal;
            WithdrawalSettled(trace[j], d.publicationId, Complete(d))
  {
    AlwaysHonest(trace, events, i);
    var d := trace[i].procs[pid].job.withdrawal;
    WeakenRun(trace, events);
    WithdrawalSettledForever(trace, events, i, j, d.publicationId, Complete(d));
  }

  lemma {:induction false} AlwaysHonest(trace: seq<World>, events: seq<Event>, i: nat)
    requires Run(trace, events, true) && Initial(trace[0]) && i < |trace|
    ensures ClaimsHonest(trace[i])
  {
    if i > 0 {
      AlwaysHonest(trace, events, i - 1);
      InitialIsSound(trace[0]);
      InvariantOverRuns(trace, events, i - 1);
      ClaimsStayHonest(trace[i - 1], events[i - 1]);
    }
  }

  // ------------------------------------------------------- current publication

  /** No live process is inside the critical section of the series. */
  ghost predicate Quiet(w: World, s: SeriesId) {
    forall pid :: pid in w.procs && Critical(w.procs[pid]) ==> w.procs[pid].series != s
  }

  /** The unique head, unless a withdrawal file exists for it. */
  function CurrentPublication(f: Files, q: seq<PublicationRecord>): Option<PublicationRecord> {
    if q == [] || q[|q| - 1].publicationId in f.withdrawals then None else Some(q[|q| - 1])
  }

  lemma QuietMeansSettled(w: World, s: SeriesId, q: seq<PublicationRecord>, r: PublicationRecord)
    requires Inv(w) && Quiet(w, s) && ChainOf(w.files.records, s, q) && r in q
    ensures Settled(w, r)
    ensures r.publicationId in w.files.withdrawals ==>
              WithdrawalSettled(w, r.publicationId, w.files.withdrawals[r.publicationId])
  {
    forall pid | pid in w.procs
      ensures !UndoableRecord(w.procs[pid], r.publicationId) && !UndoableWithdrawal(w.procs[pid], r.publicationId)
    {
      assert AtHome(w.home, w.procs[pid]);
      if Undoable(w.procs[pid]) && !w.procs[pid].job.List? { assert Critical(w.procs[pid]); }
    }
  }

  /** Between completed writes a series only ever gains records at its end. */
  lemma HistoryOnlyGrows(trace: seq<World>, events: seq<Event>, i: nat, j: nat, s: SeriesId,
                         q: seq<PublicationRecord>, t: seq<PublicationRecord>)
    requires Run(trace, events, true) && Initial(trace[0]) && i <= j < |trace| && Quiet(trace[i], s)
    requires ChainOf(trace[i].files.records, s, q) && ChainOf(trace[j].files.records, s, t)
    ensures q <= t
  {
    InitialIsSound(trace[0]);
    InvariantOverRuns(trace, events, i);
    WeakenRun(trace, events);
    forall x | x in q ensures x in t {
      QuietMeansSettled(trace[i], s, q, x);
      SettledForever(trace, events, i, j, x);
      assert trace[j].files.records[x.publicationId].value == x;
    }
    ChainPrefix(q, t);
  }

  lemma WeakenRun(trace: seq<World>, events: seq<Event>)
    requires Run(trace, events, true)
    ensures Run(trace, events, false)
  {
  }

  /**
   The current publication of a series moves only to higher record-set revisions, and
   one that has been superseded or withdrawn is never current again.
   */
  lemma CurrentNeverGoesBack(trace: seq<World>, events: seq<Event>, i: nat, j: nat, s: SeriesId,
                             q: seq<PublicationRecord>, t: seq<PublicationRecord>)
    requires Run(trace, events, true) && Initial(trace[0]) && i <= j < |trace|
    requires Quiet(trace[i], s) && Quiet(trace[j], s)
    requires ChainOf(trace[i].files.records, s, q) && ChainOf(trace[j].files.records, s, t)
    ensures var before := CurrentPublication(trace[i].files, q);
            var after := CurrentPublication(trace[j].files, t);
            && (before.Some? && after.Some? && before != after ==>
                  after.value.recordSetRevision > before.value.recordSetRevision)
            && (forall r :: r in q && before != Some(r) ==> after != Some(r))
  {
    HistoryOnlyGrows(trace, events, i, j, s, q, t);
    InitialIsSound(trace[0]);
    InvariantOverRuns(trace, events, i);
    WeakenRun(trace, events);
    forall r | r in q && r.publicationId in trace[i].files.withdrawals
      ensures r.publicationId in trace[j].files.withdrawals
    {
      QuietMeansSettled(trace[i], s, q, r);
      WithdrawalSettledForever(trace, events, i, j, r.publicationId, trace[i].files.withdrawals[r.publicationId]);
    }
    LaterChainLaterCurrent(trace[i].files, trace[j].files, q, t);
  }

  lemma LaterChainLaterCurrent(f: Files, g: Files, q: seq<PublicationRecord>, t: seq<PublicationRecord>)
    requires IsChain(t) && q <= t
    requires forall r :: r in q && r.publicationId in f.withdrawals ==> r.publicationId in g.withdrawals
    ensures var before := CurrentPublication(f, q);
            var after := CurrentPublication(g, t);
            && (before.Some? && after.Some? && before != after ==>
                  after.value.recordSetRevision > before.value.recordSetRevision)
            && (forall r :: r in q && before != Some(r) ==> after != Some(r))
  {
    forall k | 0 <= k < |q|
      ensures q[k] == t[k] && (k < |t| - 1 ==> t[|t| - 1].recordSetRevision > q[k].recordSetRevision)
    {
      if k < |t| - 1 { ChainRises(t, k, |t| - 1); }
    }
  }

  // ------------------------------------------------- references to registrations

  ghost predicate ReferencesStand(g: Registrations, r: PublicationRecord) {
    r.kind.AcademicResultSet? ==>
      && r.registrationRevision.Some?
      && (r.work, r.registrationRevision.value) in g.selected
      && g.selected[(r.work, r.registrationRevision.value)] != Cancelled
  }

  predicate PastVetting(p: Proc) {
    p.job.Publish? && !p.phase.Waiting? && !p.phase.Matched? && !p.phase.Prepared? && !p.phase.Finished?
    && !p.phase.Crashed? && !p.phase.Locked? && !p.phase.Bound? && !p.phase.Releasing?
  }

  ghost predicate AllReferencesStand(w: World) {
    && (forall id :: id in w.files.records && w.files.records[id].Complete? ==>
          ReferencesStand(w.registrations, w.files.records[id].value))
    && (forall pid :: pid in w.procs && PastVetting(w.procs[pid]) ==>
          ReferencesStand(w.registrations, w.procs[pid].job.candidate))
  }

  lemma ReferencesKeepStanding(w: World, e: Event)
    requires AllReferencesStand(w) && Enabled(w, e, false)
    ensures AllReferencesStand(Apply(w, e))
  {
    var w' := Apply(w, e);
    if e.Act? {
      var p := w.procs[e.pid];
      if p.job.Withdraw? { WithdrawMoveEffects(w, p, e.choice, ""); }
      if p.job.Publish? { PublishMoveReferences(w, p, e.choice); }
    }
  }

  lemma PublishMoveReferences(w: World, p: Proc, c: Choice)
    requires p.job.Publish? && Live(p)
    requires PastVetting(p) ==> ReferencesStand(w.registrations, p.job.candidate)
    ensures var m := PublishMove(w, p, c); var f := ApplyEffect(w.files, m.effect);
            && m.proc.job == p.job
            && (PastVetting(m.proc) ==> ReferencesStand(w.registrations, p.job.candidate))
            && (forall id :: id in f.records && f.records[id].Complete? ==>
                  (id in w.files.records && w.files.records[id] == f.records[id])
                  || (f.records[id].value == p.job.candidate && ReferencesStand(w.registrations, p.job.candidate)))
  {
  }

  /**
   Every stored academic publication names a registration revision that was selected,
   and not cancelled, at some earlier time - even though the registration may move
   between the writer's check and the write.
   */
  lemma {:induction false} PublishedReferencesStand(trace: seq<World>, events: seq<Event>, i: nat)
    requires Run(trace, events, false) && Initial(trace[0]) && i < |trace|
    ensures AllReferencesStand(trace[i])
  {
    if i > 0 {
      PublishedReferencesStand(trace, events, i - 1);
      ReferencesKeepStanding(trace[i - 1], events[i - 1]);
    }
  }
}
