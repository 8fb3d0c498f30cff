/**
 The publication writers, withdrawal writers and readers as step machines over one
 shared directory tree. Every file operation is one step, any process may take the
 next step, any process may crash between two steps, and every cleanup may fail.
 */
module PublicationProtocol {
  import opened Foundations
  import opened PublicationRecords
  import opened PublicationAdmission

  // --------------------------------------------------------------------- state

  datatype Files = Files(
    records: map<string, File<PublicationRecord>>,
    withdrawals: map<string, File<PublicationWithdrawal>>)

  datatype Lifecycle = Planned | Active | Closed | Cancelled

  /** Revisions that have been selected as current, and the current one per work. */
  datatype Registrations = Registrations(
    selected: map<(ModuleWorkRef, int), Lifecycle>,
    current: map<ModuleWorkRef, int>)

  datatype Job =
    | Publish(candidate: PublicationRecord)
    | Withdraw(withdrawal: PublicationWithdrawal)
    | List

  datatype Outcome =
    | Written
    | Conflict
    | IntegrityError
    | WriteError
    | ReadError
    | ManifestError
    | Listed(records: seq<PublicationRecord>)

  datatype Phase =
    | Waiting
    | Matched                                       // manifest verified before the lock
    | Prepared                                      // prechecks passed, lock not yet taken
    | Locked
    | Bound                                         // manifest verified under the lock
    | Vetted                                        // registration verified under the lock
    | Scanning                                      // about to enumerate the collection
    | Checking(names: seq<string>, next: nat)       // first pass: every file must load
    | Collecting(names: seq<string>, next: nat, got: seq<PublicationRecord>)
    | Ready                                         // validated, about to create the file
    | Filling                                       // file created, content not yet written
    | Verifying
    | RollingBack(failure: Outcome)
    | Releasing(pending: Outcome)
    | Finished(outcome: Outcome)
    | Crashed

  datatype Proc = Proc(job: Job, series: SeriesId, phase: Phase)

  /** `home` records which series first used a publication id. */
  datatype World = World(
    files: Files,
    locks: map<SeriesId, nat>,
    procs: map<nat, Proc>,
    home: map<string, SeriesId>,
    manifests: map<string, string>,
    registrations: Registrations)

  // --------------------------------------------------------------------- steps

  /** The environment's part in one step: does the I/O succeed, in which order are names listed. */
  datatype Choice = Choice(ok: bool, residue: Residue, names: seq<string>)

  datatype Effect =
    | Nothing
    | PutRecord(id: string, record: File<PublicationRecord>)
    | DropRecord(id: string)
    | PutWithdrawal(id: string, withdrawal: File<PublicationWithdrawal>)
    | DropWithdrawal(id: string)

  datatype LockEffect = Keep | Take | Free

  datatype Move = Move(proc: Proc, effect: Effect, lock: LockEffect)

  function Goto(p: Proc, phase: Phase): Move { Move(p.(phase := phase), Nothing, Keep) }

  /** Readers stop at once; writers still have their lock to give back. */
  function Stop(p: Proc, outcome: Outcome): Move {
    Goto(p, if p.job.List? then Finished(outcome) else Releasing(outcome))
  }

  predicate ManifestMatches(w: World, r: PublicationRecord) {
    r.manifestPath in w.manifests && w.manifests[r.manifestPath] == r.manifestDigest
  }

  predicate RegistrationAllows(g: Registrations, r: PublicationRecord) {
    r.kind.InterventionRecordSet? ||
    (&& r.registrationRevision.Some?
     && r.work in g.current && g.current[r.work] == r.registrationRevision.value
     && (r.work, r.registrationRevision.value) in g.selected
     && g.selected[(r.work, r.registrationRevision.value)] != Cancelled)
  }

  ghost predicate Names(names: seq<string>, records: map<string, File<PublicationRecord>>) {
    && (forall i, j :: 0 <= i < j < |names| ==> names[i] != names[j])
    && (forall id :: id in names <==> id in records)
  }

  /** A record loads when it is complete and carries the id its file is named after. */
  predicate Loads(records: map<string, File<PublicationRecord>>, id: string) {
    id in records && records[id].Complete? && records[id].value.publicationId == id
  }

  /** Opening the lock file exclusively; a lock whose first write fails may be left behind. */
  function AcquireMove(w: World, p: Proc, c: Choice): Move {
    if p.series in w.locks then Goto(p, Finished(Conflict))
    else if c.ok then Move(p.(phase := Locked), Nothing, Take)
    else Move(p.(phase := Finished(WriteError)), Nothing, if c.residue.Removed? then Keep else Take)
  }

  function ReleaseMove(p: Proc, c: Choice): Move
    requires p.phase.Releasing?
  {
    Move(p.(phase := Finished(p.phase.pending)), Nothing, if c.residue.Removed? then Free else Keep)
  }

  /** A reader tells a file it could not open from one that is invalid; a publisher's listing fails alike for both. */
  function ListingFailure(job: Job, inHand: bool): Outcome {
    if job.List? && !inHand then ReadError else IntegrityError
  }

  /** Enumerating the collection and loading it, one file per step, in two passes. */
  ghost function ListingMove(w: World, p: Proc, c: Choice): Move
    requires p.phase.Scanning? || p.phase.Checking? || p.phase.Collecting?
  {
    match p.phase
    case Scanning =>
      if c.ok && Names(c.names, w.files.records) then Goto(p, Checking(c.names, 0))
      else Stop(p, ListingFailure(p.job, false))
    case Checking(names, next) =>
      if next >= |names| then Goto(p, Collecting(names, 0, []))
      else if c.ok && Loads(w.files.records, names[next]) then
        Goto(p, Checking(names, next + 1))
      else Stop(p, ListingFailure(p.job, c.ok && names[next] in w.files.records))
    case Collecting(names, next, got) =>
      if next >= |names| then Goto(p, Collecting(names, next, got))
      else if c.ok && Loads(w.files.records, names[next]) then
        var r := w.files.records[names[next]].value;
        Goto(p, Collecting(names, next + 1, if r.Series() == p.series then got + [r] else got))
      else Stop(p, ListingFailure(p.job, c.ok && names[next] in w.files.records))
  }

  ghost predicate SeriesAccepted(got: seq<PublicationRecord>) {
    got == [] || FormsChain(got)
  }

  /** The decision on the listed series. */
  ghost function DecideMove(p: Proc, got: seq<PublicationRecord>): Move {
    if !SeriesAccepted(got) then Stop(p, IntegrityError)
    else if p.job.Publish? then
      match Admission(got, p.job.candidate)
      case None => Goto(p, Ready)
      case Some(RevisionContradicted) => Stop(p, IntegrityError)
      case Some(_) => Stop(p, Conflict)
    else Goto(p, Finished(Listed(got)))
  }

  /** Creating, filling and verifying the record file, or undoing it. */
  function RecordFileMove(w: World, p: Proc, c: Choice): Move
    requires p.job.Publish? && (p.phase.Ready? || p.phase.Filling? || p.phase.Verifying? || p.phase.RollingBack?)
  {
    var r := p.job.candidate;
    var id := r.publicationId;
    match p.phase
    case Ready =>
      if id in w.files.records then Stop(p, Conflict)
      else if !c.ok then Stop(p, WriteError)
      else Move(p.(phase := Filling), PutRecord(id, Partial), Keep)
    case Filling =>
      if c.ok then Move(p.(phase := Verifying), PutRecord(id, Complete(r)), Keep)
      else Move(p.(phase := Releasing(WriteError)),
        match c.residue
        case Removed => DropRecord(id)
        case LeftPartial => Nothing
        case LeftComplete => PutRecord(id, Complete(r)), Keep)
    case Verifying =>
      if !c.ok then Goto(p, RollingBack(WriteError))
      else if !ManifestMatches(w, r) then Goto(p, RollingBack(ManifestError))
      else Goto(p, Releasing(Written))
    case RollingBack(failure) =>
      Move(p.(phase := Releasing(failure)), if c.residue.Removed? then DropRecord(id) else Nothing, Keep)
  }

  ghost function PublishMove(w: World, p: Proc, c: Choice): Move
    requires p.job.Publish?
  {
    var r := p.job.candidate;
    match p.phase
    case Waiting => if c.ok && ManifestMatches(w, r) then Goto(p, Matched) else Goto(p, Finished(ManifestError))
    // Only academic publications have a registration to read.
    case Matched =>
      if !c.ok && r.kind.AcademicResultSet? then Goto(p, Finished(IntegrityError))
      else if !RegistrationAllows(w.registrations, r) then Goto(p, Finished(Conflict))
      else Goto(p, Prepared)
    case Prepared => AcquireMove(w, p, c)
    case Locked => if c.ok && ManifestMatches(w, r) then Goto(p, Bound) else Stop(p, ManifestError)
    case Bound =>
      if !c.ok && r.kind.AcademicResultSet? then Stop(p, IntegrityError)
      else if !RegistrationAllows(w.registrations, r) then Stop(p, Conflict)
      else Goto(p, Vetted)
    case Vetted => if r.publicationId in w.files.records then Stop(p, Conflict) else Goto(p, Scanning)
    case Scanning => ListingMove(w, p, c)
    case Checking(_, _) => ListingMove(w, p, c)
    case Collecting(names, next, got) => if next >= |names| then DecideMove(p, got) else ListingMove(w, p, c)
    case Releasing(_) => ReleaseMove(p, c)
    case Finished(_) => Goto(p, p.phase)
    case Crashed => Goto(p, p.phase)
    case _ => RecordFileMove(w, p, c)
  }

  predicate Withdrawable(files: Files, d: PublicationWithdrawal) {
    && Loads(files.records, d.publicationId)
    && ValidWithdrawal(files.records[d.publicationId].value, d)
  }

  function WithdrawMove(w: World, p: Proc, c: Choice): Move
    requires p.job.Withdraw?
  {
    var d := p.job.withdrawal;
    var id := d.publicationId;
    match p.phase
    case Waiting =>
      if !c.ok || !Loads(w.files.records, id) then Goto(p, Finished(ReadError))
      else if !Withdrawable(w.files, d) then Goto(p, Finished(WriteError))
      else Goto(p.(series := w.files.records[id].value.Series()), Prepared)
    case Prepared => AcquireMove(w, p, c)
    case Locked =>
      if !c.ok || !Loads(w.files.records, id) then Stop(p, ReadError)
      else if id in w.files.withdrawals then Stop(p, if w.files.withdrawals[id].Partial? then ReadError else Conflict)
      else if !Withdrawable(w.files, d) then Stop(p, WriteError)
      else Goto(p, Ready)
    case Ready =>
      if id in w.files.withdrawals then Stop(p, Conflict)
      else if !c.ok then Stop(p, WriteError)
      else Move(p.(phase := Filling), PutWithdrawal(id, Partial), Keep)
    case Filling =>
      if c.ok then Move(p.(phase := Verifying), PutWithdrawal(id, Complete(d)), Keep)
      else Move(p.(phase := Releasing(WriteError)),
        match c.residue
        case Removed => DropWithdrawal(id)
        case LeftPartial => Nothing
        case LeftComplete => PutWithdrawal(id, Complete(d)), Keep)
    case Verifying => if c.ok then Goto(p, Releasing(Written)) else Goto(p, RollingBack(WriteError))
    case RollingBack(failure) =>
      Move(p.(phase := Releasing(failure)), if c.residue.Removed? then DropWithdrawal(id) else Nothing, Keep)
    case Releasing(_) => ReleaseMove(p, c)
    case _ => Goto(p, p.phase)
  }

  ghost function ListMove(w: World, p: Proc, c: Choice): Move
    requires p.job.List?
  {
    match p.phase
    case Waiting => Goto(p, Scanning)
    case Scanning => ListingMove(w, p, c)
    case Checking(_, _) => ListingMove(w, p, c)
    case Collecting(names, next, got) => if next >= |names| then DecideMove(p, got) else ListingMove(w, p, c)
    case _ => Goto(p, p.phase)
  }

  ghost function NextMove(w: World, p: Proc, c: Choice): Move {
    match p.job
    case Publish(_) => PublishMove(w, p, c)
    case Withdraw(_) => WithdrawMove(w, p, c)
    case List => ListMove(w, p, c)
  }

  function ApplyEffect(f: Files, e: Effect): Files {
    match e
    case Nothing => f
    case PutRecord(id, r) => f.(records := f.records[id := r])
    case DropRecord(id) => f.(records := f.records - {id})
    case PutWithdrawal(id, d) => f.(withdrawals := f.withdrawals[id := d])
    case DropWithdrawal(id) => f.(withdrawals := f.withdrawals - {id})
  }

  function ApplyMove(w: World, pid: nat, m: Move): World {
    w.(files := ApplyEffect(w.files, m.effect),
       locks := match m.lock
                case Keep => w.locks
                case Take => w.locks[m.proc.series := pid]
                case Free => w.locks - {m.proc.series},
       procs := w.procs[pid := m.proc])
  }

  // -------------------------------------------------------------------- events

  datatype Event =
    | Begin(pid: nat, job: Job, series: SeriesId)
    | Act(pid: nat, choice: Choice)
    | Crash(pid: nat)
    | ClearLock(series: SeriesId)
    | ChangeManifest(path: string, digest: string)
    | SelectRegistration(work: ModuleWorkRef, revision: int, lifecycle: Lifecycle)

  predicate Live(p: Proc) { !p.phase.Finished? && !p.phase.Crashed? }

  /** `strict` demands that a publication id stays with the series that first used it. */
  predicate Enabled(w: World, e: Event, strict: bool) {
    match e
    case Begin(pid, job, series) =>
      && pid !in w.procs
      && (job.Publish? ==> series == job.candidate.Series())
      && (strict && job.Publish? && job.candidate.publicationId in w.home ==>
            w.home[job.candidate.publicationId] == series)
    case Act(pid, _) => pid in w.procs && Live(w.procs[pid])
    case Crash(pid) => pid in w.procs && Live(w.procs[pid])
    // The operator asserts that the process that took the lock is gone.
    case ClearLock(series) =>
      series in w.locks && (w.locks[series] in w.procs ==> !Live(w.procs[w.locks[series]]))
    case ChangeManifest(_, _) => true
    case SelectRegistration(work, revision, _) =>
      && (work, revision) !in w.registrations.selected
      && (work in w.registrations.current ==> revision > w.registrations.current[work])
  }

  ghost function Apply(w: World, e: Event): World
    requires Enabled(w, e, false)
  {
    match e
    case Begin(pid, job, series) =>
      w.(procs := w.procs[pid := Proc(job, series, Waiting)],
         home := if job.Publish? && job.candidate.publicationId !in w.home
                 then w.home[job.candidate.publicationId := series] else w.home)
    case Act(pid, c) => ApplyMove(w, pid, NextMove(w, w.procs[pid], c))
    case Crash(pid) => w.(procs := w.procs[pid := w.procs[pid].(phase := Crashed)])
    case ClearLock(series) => w.(locks := w.locks - {series})
    case ChangeManifest(path, digest) => w.(manifests := w.manifests[path := digest])
    case SelectRegistration(work, revision, lifecycle) =>
      w.(registrations := Registrations(
        w.registrations.selected[(work, revision) := lifecycle],
        w.registrations.current[work := revision]))
  }

  /** The worlds a run passes through. */
  ghost predicate Run(trace: seq<World>, events: seq<Event>, strict: bool) {
    && |trace| == |events| + 1
    && (forall i :: 0 <= i < |events| ==>
          Enabled(trace[i], events[i], strict) && trace[i + 1] == Apply(trace[i], events[i]))
  }

  predicate Initial(w: World) {
    w.files == Files(map[], map[]) && w.locks == map[] && w.procs == map[] && w.home == map[]
    && w.registrations == Registrations(map[], map[])
  }

  // ----------------------------------------------------------------- invariant

  /** `q` is the chain of series `s`: every complete record of `s`, oldest first. */
  ghost predicate ChainOf(records: map<string, File<PublicationRecord>>, s: SeriesId, q: seq<PublicationRecord>) {
    && IsChain(q)
    && (forall x :: x in q ==>
          x.Series() == s && x.publicationId in records && records[x.publicationId] == Complete(x))
    && (forall id :: id in records && records[id].Complete? && records[id].value.Series() == s ==>
          records[id].value in q)
  }

  ghost predicate EverySeriesIsAChain(f: Files) {
    forall s: SeriesId :: HasChain(f.records, s)
  }

  ghost predicate HasChain(records: map<string, File<PublicationRecord>>, s: SeriesId) {
    exists q :: ChainOf(records, s, q)
  }

  /** Files sit under their own id, in the series that owns the id, and no withdrawal is an orphan. */
  ghost predicate Keyed(f: Files, home: map<string, SeriesId>) {
    && (forall id :: id in f.records ==> id in home)
    && (forall id :: id in f.records && f.records[id].Complete? ==>
          f.records[id].value.publicationId == id && f.records[id].value.Series() == home[id])
    && (forall id :: id in f.withdrawals ==> id in f.records && f.records[id].Complete?)
    && (forall id :: id in f.withdrawals && f.withdrawals[id].Complete? ==>
          id in f.records && f.records[id].Complete? && ValidWithdrawal(f.records[id].value, f.withdrawals[id].value))
  }

  predicate Critical(p: Proc) {
    !p.job.List? && !p.phase.Waiting? && !p.phase.Matched? && !p.phase.Prepared? && !p.phase.Finished?
      && !p.phase.Crashed?
  }

  ghost predicate LocksHeld(w: World) {
    forall pid :: pid in w.procs && Critical(w.procs[pid]) ==>
      w.procs[pid].series in w.locks && w.locks[w.procs[pid].series] == pid
  }

  /** The id a process works on belongs to the series it locks. */
  ghost predicate AtHome(home: map<string, SeriesId>, p: Proc) {
    match p.job
    case Publish(r) => r.publicationId in home && home[r.publicationId] == p.series && r.Series() == p.series
    case Withdraw(d) => !p.phase.Waiting? && Live(p) ==> d.publicationId in home && home[d.publicationId] == p.series
    case List => true
  }

  ghost predicate Listing(f: Files, s: SeriesId, names: seq<string>, next: nat, got: seq<PublicationRecord>) {
    && (forall i, j :: 0 <= i < j < |names| ==> names[i] != names[j])
    && next <= |names|
    && Distinct(got)
    && (forall x :: x in got ==>
          && x.publicationId in names[..next] && x.Series() == s
          && x.publicationId in f.records && f.records[x.publicationId] == Complete(x))
    && (forall id ::
          id in names[..next] && id in f.records && f.records[id].Complete? && f.records[id].value.Series() == s ==>
          f.records[id].value in got)
  }

  /** Every complete record of the series appears among the listed names. */
  ghost predicate Covers(f: Files, s: SeriesId, names: seq<string>) {
    forall id :: id in f.records && f.records[id].Complete? && f.records[id].value.Series() == s ==> id in names
  }

  ghost predicate Fits(f: Files, s: SeriesId, r: PublicationRecord) {
    forall q :: ChainOf(f.records, s, q) ==> Continues(q, r)
  }

  ghost predicate IsNewest(f: Files, s: SeriesId, r: PublicationRecord) {
    && r.publicationId in f.records && f.records[r.publicationId] == Complete(r)
    && (forall q :: ChainOf(f.records, s, q) ==> q != [] && q[|q| - 1] == r)
  }

  /** What a process inside its critical section may rely on. */
  ghost predicate Facts(f: Files, p: Proc) {
    match p.job
    case List => true
    case Publish(r) =>
      (match p.phase
       case Checking(names, next) => Listing(f, p.series, names, 0, []) && Covers(f, p.series, names)
       case Collecting(names, next, got) => Listing(f, p.series, names, next, got) && Covers(f, p.series, names)
       case Ready => Fits(f, p.series, r)
       case Filling =>
         && Fits(f, p.series, r) && r.publicationId in f.records && f.records[r.publicationId] == Partial
         && r.publicationId !in f.withdrawals
       case Verifying => IsNewest(f, p.series, r) && r.publicationId !in f.withdrawals
       case RollingBack(failure) => failure != Written && IsNewest(f, p.series, r) && r.publicationId !in f.withdrawals
       case _ => true)
    case Withdraw(d) =>
      (match p.phase
       case Ready => Withdrawable(f, d)
       case Filling => Withdrawable(f, d) && d.publicationId in f.withdrawals
         && f.withdrawals[d.publicationId] == Partial
       case Verifying => Withdrawable(f, d) && d.publicationId in f.withdrawals
         && f.withdrawals[d.publicationId] == Complete(d)
       case RollingBack(failure) => failure != Written && Withdrawable(f, d) && d.publicationId in f.withdrawals
         && f.withdrawals[d.publicationId] == Complete(d)
       case _ => true)
  }

  ghost predicate ProcsSound(w: World) {
    forall pid :: pid in w.procs ==> AtHome(w.home, w.procs[pid]) && Facts(w.files, w.procs[pid])
  }

  ghost predicate Inv(w: World) {
    Keyed(w.files, w.home) && EverySeriesIsAChain(w.files) && LocksHeld(w) && ProcsSound(w)
  }

  // ------------------------------------------------------------ legal effects

  /** What a step may do to the files of the series `s` whose lock it holds. */
  ghost predicate Legal(f: Files, home: map<string, SeriesId>, s: SeriesId, e: Effect) {
    match e
    case Nothing => true
    case PutRecord(id, Partial) => id in home && home[id] == s && id !in f.records
    case PutRecord(id, Complete(r)) =>
      && id in home && home[id] == s && id == r.publicationId && r.Series() == s
      && id in f.records && f.records[id] == Partial && Fits(f, s, r) && id !in f.withdrawals
    case DropRecord(id) =>
      && id in home && home[id] == s && id in f.records && id !in f.withdrawals
      && (f.records[id].Complete? ==> IsNewest(f, s, f.records[id].value))
    case PutWithdrawal(id, d) =>
      && id in home && home[id] == s && id in f.records && f.records[id].Complete?
      && (d.Complete? ==> ValidWithdrawal(f.records[id].value, d.value))
    case DropWithdrawal(id) => id in home && home[id] == s
  }

  lemma ChainUnique(records: map<string, File<PublicationRecord>>, s: SeriesId,
                    q: seq<PublicationRecord>, t: seq<PublicationRecord>)
    requires ChainOf(records, s, q) && ChainOf(records, s, t)
    ensures q == t
  {
    forall x | x in q ensures x in t { assert records[x.publicationId].value == x; }
    forall x | x in t ensures x in q { assert records[x.publicationId].value == x; }
    ChainsWithSameRecords(q, t);
  }

  /** Only complete records matter to a chain. */
  lemma SameCompleteSameChain(a: map<string, File<PublicationRecord>>, b: map<string, File<PublicationRecord>>,
                              s: SeriesId, q: seq<PublicationRecord>)
    requires forall id :: id in a && a[id].Complete? && a[id].value.Series() == s ==> id in b && b[id] == a[id]
    requires forall id :: id in b && b[id].Complete? && b[id].value.Series() == s ==> id in a && a[id] == b[id]
    ensures ChainOf(a, s, q) <==> ChainOf(b, s, q)
  {
  }

  lemma AppendToChain(f: Files, s: SeriesId, q: seq<PublicationRecord>, r: PublicationRecord)
    requires ChainOf(f.records, s, q) && Continues(q, r) && r.Series() == s
    requires r.publicationId in f.records && f.records[r.publicationId] == Partial
    ensures ChainOf(f.records[r.publicationId := Complete(r)], s, q + [r])
  {
    var g := f.records[r.publicationId := Complete(r)];
    var t := q + [r];
    forall i | 0 <= i < |q| ensures q[i].publicationId != r.publicationId {
      assert q[i] in q;
    }
    ChainAppend(q, r);
    assert forall x :: x in t <==> x in q || x == r;
    forall id | id in g && g[id].Complete? && g[id].value.Series() == s ensures g[id].value in t {
      if id != r.publicationId { assert id in f.records && f.records[id] == g[id]; }
    }
    assert ChainOf(g, s, t);
  }

  lemma RemoveNewest(f: Files, s: SeriesId, q: seq<PublicationRecord>)
    requires ChainOf(f.records, s, q) && q != []
    requires forall id :: id in f.records && f.records[id].Complete? ==> f.records[id].value.publicationId == id
    ensures ChainOf(f.records - {q[|q| - 1].publicationId}, s, q[..|q| - 1])
  {
    var n := |q| - 1;
    assert q == q[..n] + [q[n]];
    forall x | x in q[..n] ensures x.publicationId != q[n].publicationId && x in q {
      var i :| 0 <= i < n && q[i] == x;
    }
  }

  lemma LegalKeepsChain(f: Files, home: map<string, SeriesId>, s: SeriesId, e: Effect, t: SeriesId)
    requires Keyed(f, home) && EverySeriesIsAChain(f) && Legal(f, home, s, e)
    ensures HasChain(ApplyEffect(f, e).records, t)
  {
    hide ChainOf, Continues;
    var f' := ApplyEffect(f, e);
    assert HasChain(f.records, t);
    var q :| ChainOf(f.records, t, q);
    if e.PutRecord? && e.record.Complete? && t == s {
      AppendToChain(f, s, q, e.record.value);
      assert ChainOf(f'.records, t, q + [e.record.value]);
    } else if e.DropRecord? && f.records[e.id].Complete? && t == s {
      assert q[|q| - 1] == f.records[e.id].value;
      RemoveNewest(f, s, q);
      assert ChainOf(f'.records, t, q[..|q| - 1]);
    } else {
      SameCompleteSameChain(f.records, f'.records, t, q);
      assert ChainOf(f'.records, t, q);
    }
  }

  lemma LegalKeepsKeyed(f: Files, home: map<string, SeriesId>, s: SeriesId, e: Effect)
    requires Keyed(f, home) && Legal(f, home, s, e)
    ensures Keyed(ApplyEffect(f, e), home)
  {
  }

  /** Two file states agree on everything the series `s` owns. */
  ghost predicate Agree(f: Files, g: Files, home: map<string, SeriesId>, s: SeriesId) {
    && (forall id :: id in home && home[id] == s ==> (id in f.records <==> id in g.records))
    && (forall id :: id in home && home[id] == s && id in f.records && id in g.records ==>
        f.records[id] == g.records[id])
    && (forall id :: id in home && home[id] == s ==> (id in f.withdrawals <==> id in g.withdrawals))
    && (forall id :: id in home && home[id] == s && id in f.withdrawals && id in g.withdrawals ==>
          f.withdrawals[id] == g.withdrawals[id])
  }

  lemma LegalIsLocal(f: Files, home: map<string, SeriesId>, s: SeriesId, e: Effect, t: SeriesId)
    requires Keyed(f, home) && Legal(f, home, s, e) && (e.Nothing? || s != t)
    ensures Agree(f, ApplyEffect(f, e), home, t)
  {
  }

  lemma AgreeOnChains(f: Files, g: Files, home: map<string, SeriesId>, s: SeriesId, q: seq<PublicationRecord>)
    requires Keyed(f, home) && Keyed(g, home) && Agree(f, g, home, s)
    ensures ChainOf(f.records, s, q) <==> ChainOf(g.records, s, q)
  {
    SameCompleteSameChain(f.records, g.records, s, q);
  }

  /** A process's facts survive any change outside its own series. */
  lemma FactsAreLocal(f: Files, g: Files, home: map<string, SeriesId>, p: Proc)
    requires Keyed(f, home) && Keyed(g, home) && AtHome(home, p) && Agree(f, g, home, p.series)
    requires Facts(f, p)
    ensures Facts(g, p)
  {
    forall q ensures ChainOf(f.records, p.series, q) <==> ChainOf(g.records, p.series, q) {
      AgreeOnChains(f, g, home, p.series, q);
    }
  }

  // ------------------------------------------------------- one step keeps it all

  lemma ListingStep(f: Files, s: SeriesId, names: seq<string>, next: nat, got: seq<PublicationRecord>)
    requires Listing(f, s, names, next, got) && next < |names|
    requires names[next] in f.records && f.records[names[next]].Complete?
    requires f.records[names[next]].value.publicationId == names[next]
    ensures var r := f.records[names[next]].value;
            Listing(f, s, names, next + 1, if r.Series() == s then got + [r] else got)
  {
    var r := f.records[names[next]].value;
    assert names[..next + 1] == names[..next] + [names[next]];
    NotListedYet(f, s, names, next, got);
    ghost var seen, more := names[..next], names[..next + 1];
    assert forall id :: id in more <==> id in seen || id == names[next];
  }

  lemma NotListedYet(f: Files, s: SeriesId, names: seq<string>, next: nat, got: seq<PublicationRecord>)
    requires Listing(f, s, names, next, got) && next < |names|
    ensures forall x :: x in got ==> x.publicationId != names[next]
  {
    forall x | x in got ensures x.publicationId != names[next] {
      var k :| 0 <= k < next && names[..next][k] == x.publicationId;
    }
  }

  /** A finished listing made under the lock is the series' chain, in some order. */
  lemma ListingIsTheChain(f: Files, s: SeriesId, names: seq<string>, got: seq<PublicationRecord>,
                          q: seq<PublicationRecord>)
    requires Listing(f, s, names, |names|, got) && Covers(f, s, names) && ChainOf(f.records, s, q)
    ensures multiset(got) == multiset(q)
  {
    assert names[..|names|] == names;
    forall x | x in q ensures x in got { assert f.records[x.publicationId].value == x; }
    forall x | x in got ensures x in q { assert f.records[x.publicationId].value == x; }
    forall i, j | 0 <= i < j < |q| ensures q[i] != q[j] { assert q[i].publicationId != q[j].publicationId; }
    SameMembersSameContents(got, q);
  }

  /** What one move of a live process guarantees, given the invariant. */
  ghost predicate GoodMove(w: World, p: Proc, m: Move) {
    && m.proc.job == p.job
    && AtHome(w.home, m.proc)
    && Legal(w.files, w.home, m.proc.series, m.effect)
    && Facts(ApplyEffect(w.files, m.effect), m.proc)
    && (!m.effect.Nothing? ==> Critical(p) && m.proc.series == p.series)
    && (m.lock.Take? ==> !Critical(p) && m.proc.series !in w.locks)
    && (m.lock.Free? ==> Critical(p) && !Critical(m.proc) && m.proc.series == p.series)
    && (Critical(m.proc) && !m.lock.Take? ==> Critical(p) && m.proc.series == p.series)
  }

  lemma AdmittedFits(f: Files, s: SeriesId, names: seq<string>, got: seq<PublicationRecord>, r: PublicationRecord)
    requires Listing(f, s, names, |names|, got) && Covers(f, s, names) && Admission(got, r).None?
    ensures Fits(f, s, r)
  {
    forall q | ChainOf(f.records, s, q) ensures Continues(q, r) {
      ListingIsTheChain(f, s, names, got, q);
      AdmittedIffContinues(got, q, r);
    }
  }

  lemma DecideStep(w: World, p: Proc)
    requires AtHome(w.home, p) && Facts(w.files, p)
    requires p.job.Publish? && p.phase.Collecting? && p.phase.next >= |p.phase.names|
    ensures GoodMove(w, p, DecideMove(p, p.phase.got))
  {
    var m := DecideMove(p, p.phase.got);
    if m.proc.phase.Ready? {
      AdmittedFits(w.files, p.series, p.phase.names, p.phase.got, p.job.candidate);
    }
  }

  lemma ScanStep(w: World, p: Proc, c: Choice)
    requires Keyed(w.files, w.home) && AtHome(w.home, p) && Facts(w.files, p)
    requires p.job.Publish? && (p.phase.Scanning? || p.phase.Checking? || p.phase.Collecting?)
    ensures GoodMove(w, p, ListingMove(w, p, c))
  {
    if p.phase.Collecting? && p.phase.next < |p.phase.names| {
      var id := p.phase.names[p.phase.next];
      if c.ok && Loads(w.files.records, id) {
        ListingStep(w.files, p.series, p.phase.names, p.phase.next, p.phase.got);
      }
    }
  }

  lemma FilledIsNewest(w: World, s: SeriesId, r: PublicationRecord)
    requires EverySeriesIsAChain(w.files) && Fits(w.files, s, r) && r.Series() == s
    requires r.publicationId in w.files.records && w.files.records[r.publicationId] == Partial
    ensures IsNewest(ApplyEffect(w.files, PutRecord(r.publicationId, Complete(r))), s, r)
  {
    var f' := ApplyEffect(w.files, PutRecord(r.publicationId, Complete(r)));
    assert HasChain(w.files.records, s);
    var q :| ChainOf(w.files.records, s, q);
    AppendToChain(w.files, s, q, r);
    forall t | ChainOf(f'.records, s, t) ensures t != [] && t[|t| - 1] == r {
      ChainUnique(f'.records, s, t, q + [r]);
    }
  }

  lemma EmptyFileKeepsFits(f: Files, s: SeriesId, r: PublicationRecord)
    requires Fits(f, s, r) && r.publicationId !in f.records
    ensures Fits(ApplyEffect(f, PutRecord(r.publicationId, Partial)), s, r)
  {
    hide Continues;
    var f' := ApplyEffect(f, PutRecord(r.publicationId, Partial));
    forall q | ChainOf(f'.records, s, q) ensures Continues(q, r) {
      SameCompleteSameChain(f.records, f'.records, s, q);
    }
  }

  lemma RecordFileStep(w: World, p: Proc, c: Choice)
    requires Keyed(w.files, w.home) && EverySeriesIsAChain(w.files) && AtHome(w.home, p) && Facts(w.files, p)
    requires p.job.Publish? && (p.phase.Ready? || p.phase.Filling? || p.phase.Verifying? || p.phase.RollingBack?)
    ensures GoodMove(w, p, RecordFileMove(w, p, c))
  {
    hide ChainOf, Continues, Fits, IsNewest, EverySeriesIsAChain, ManifestMatches, Listing;
    var r := p.job.candidate;
    var m := RecordFileMove(w, p, c);
    if m.effect.PutRecord? && m.effect.record.Complete? {
      FilledIsNewest(w, p.series, r);
    } else if m.effect.PutRecord? {
      EmptyFileKeepsFits(w.files, p.series, r);
    } else if m.effect.DropRecord? {
      NewestIsStored(w.files, p.series, r);
    }
  }

  lemma NewestIsStored(f: Files, s: SeriesId, r: PublicationRecord)
    ensures IsNewest(f, s, r) ==> r.publicationId in f.records && f.records[r.publicationId] == Complete(r)
  {
  }

  lemma PublishStep(w: World, p: Proc, c: Choice)
    requires Keyed(w.files, w.home) && EverySeriesIsAChain(w.files) && AtHome(w.home, p) && Facts(w.files, p)
    requires p.job.Publish? && Live(p)
    ensures GoodMove(w, p, PublishMove(w, p, c))
  {
    match p.phase
    case Scanning => ScanStep(w, p, c);
    case Checking(_, _) => ScanStep(w, p, c);
    case Collecting(names, next, got) =>
      if next >= |names| { DecideStep(w, p); } else { ScanStep(w, p, c); }
    case Ready => RecordFileStep(w, p, c);
    case Filling => RecordFileStep(w, p, c);
    case Verifying => RecordFileStep(w, p, c);
    case RollingBack(_) => RecordFileStep(w, p, c);
    case _ => PublishLockStep(w, p, c);
  }

  /** The publisher's steps around the lock touch no file and establish no fact. */
  lemma PublishLockStep(w: World, p: Proc, c: Choice)
    requires AtHome(w.home, p) && p.job.Publish? && Live(p)
    requires p.phase.Waiting? || p.phase.Matched? || p.phase.Prepared? || p.phase.Locked? || p.phase.Bound?
             || p.phase.Vetted? || p.phase.Releasing?
    ensures GoodMove(w, p, PublishMove(w, p, c))
  {
  }

  predicate WritesWithdrawal(p: Proc) {
    p.phase.Ready? || p.phase.Filling? || p.phase.Verifying? || p.phase.RollingBack?
  }

  lemma WithdrawFileStep(w: World, p: Proc, c: Choice)
    requires Keyed(w.files, w.home) && AtHome(w.home, p) && Facts(w.files, p)
    requires p.job.Withdraw? && WritesWithdrawal(p)
    ensures GoodMove(w, p, WithdrawMove(w, p, c))
  {
    hide Keyed, ManifestMatches, Listing, Fits, IsNewest, ValidWithdrawal, RegistrationAllows;
  }

  lemma WithdrawLockStep(w: World, p: Proc, c: Choice)
    requires Keyed(w.files, w.home) && AtHome(w.home, p) && Facts(w.files, p)
    requires p.job.Withdraw? && Live(p) && !WritesWithdrawal(p)
    ensures GoodMove(w, p, WithdrawMove(w, p, c))
  {
    hide ManifestMatches, Listing, Fits, IsNewest, ValidWithdrawal;
  }

  lemma WithdrawStep(w: World, p: Proc, c: Choice)
    requires Keyed(w.files, w.home) && AtHome(w.home, p) && Facts(w.files, p)
    requires p.job.Withdraw? && Live(p)
    ensures GoodMove(w, p, WithdrawMove(w, p, c))
  {
    hide Keyed, AtHome, Facts, GoodMove, WithdrawMove;
    if WritesWithdrawal(p) { WithdrawFileStep(w, p, c); } else { WithdrawLockStep(w, p, c); }
  }

  lemma ListStep(w: World, p: Proc, c: Choice)
    requires p.job.List? && Live(p)
    ensures GoodMove(w, p, ListMove(w, p, c))
  {
  }

  lemma StepIsGood(w: World, pid: nat, c: Choice)
    requires Inv(w) && pid in w.procs && Live(w.procs[pid])
    ensures GoodMove(w, w.procs[pid], NextMove(w, w.procs[pid], c))
  {
    var p := w.procs[pid];
    match p.job
    case Publish(_) => PublishStep(w, p, c);
    case Withdraw(_) => WithdrawStep(w, p, c);
    case List => ListStep(w, p, c);
  }

  lemma GoodMoveKeepsInv(w: World, pid: nat, m: Move)
    requires Inv(w) && pid in w.procs && Live(w.procs[pid]) && GoodMove(w, w.procs[pid], m)
    ensures Inv(ApplyMove(w, pid, m))
  {
    var w' := ApplyMove(w, pid, m);
    LegalKeepsKeyed(w.files, w.home, m.proc.series, m.effect);
    forall t: SeriesId ensures HasChain(w'.files.records, t) {
      LegalKeepsChain(w.files, w.home, m.proc.series, m.effect, t);
    }
    forall k | k in w'.procs ensures AtHome(w'.home, w'.procs[k]) && Facts(w'.files, w'.procs[k]) {
      if k != pid { OtherProcKeepsFacts(w, pid, m, k); }
    }
    assert LocksHeld(w') by { MoveKeepsLocks(w, pid, m); }
  }

  lemma MoveKeepsLocks(w: World, pid: nat, m: Move)
    requires LocksHeld(w) && pid in w.procs && GoodMove(w, w.procs[pid], m)
    ensures LocksHeld(ApplyMove(w, pid, m))
  {
  }

  lemma OtherProcKeepsFacts(w: World, pid: nat, m: Move, k: nat)
    requires Inv(w) && pid in w.procs && GoodMove(w, w.procs[pid], m) && k in w.procs && k != pid
    ensures Facts(ApplyEffect(w.files, m.effect), w.procs[k])
  {
    var p := w.procs[k];
    if Critical(p) {
      LegalKeepsKeyed(w.files, w.home, m.proc.series, m.effect);
      LegalIsLocal(w.files, w.home, m.proc.series, m.effect, p.series);
      FactsAreLocal(w.files, ApplyEffect(w.files, m.effect), w.home, p);
    }
  }

  lemma EventKeepsInv(w: World, e: Event)
    requires Inv(w) && Enabled(w, e, true)
    ensures Inv(Apply(w, e))
  {
    match e
    case Act(pid, c) =>
      StepIsGood(w, pid, c);
      GoodMoveKeepsInv(w, pid, NextMove(w, w.procs[pid], c));
    case _ =>
      assert Inv(Apply(w, e)) by { QuietEventKeepsInv(w, e); }
  }

  lemma KeyedInGrownHome(f: Files, home: map<string, SeriesId>, grown: map<string, SeriesId>)
    requires Keyed(f, home) && forall id :: id in home ==> id in grown && grown[id] == home[id]
    ensures Keyed(f, grown)
  {
  }

  lemma QuietEventKeepsInv(w: World, e: Event)
    requires Inv(w) && Enabled(w, e, true) && !e.Act?
    ensures Inv(Apply(w, e))
  {
    hide Keyed, EverySeriesIsAChain;
    var w' := Apply(w, e);
    assert w'.files == w.files;
    KeyedInGrownHome(w.files, w.home, w'.home);
    forall k | k in w'.procs ensures AtHome(w'.home, w'.procs[k]) && Facts(w'.files, w'.procs[k]) {
    }
  }

  /**
   Whatever the interleaving, crashes, faults and failed cleanups: after every run, the
   complete records of each series are one chain and no withdrawal has lost its record.
   */
  lemma {:induction false} InvariantOverRuns(trace: seq<World>, events: seq<Event>, i: nat)
    requires Run(trace, events, true) && Inv(trace[0]) && i < |trace|
    ensures Inv(trace[i])
  {
    if i > 0 {
      InvariantOverRuns(trace, events, i - 1);
      EventKeepsInv(trace[i - 1], events[i - 1]);
    }
  }

  lemma InitialIsSound(w: World)
    requires Initial(w)
    ensures Inv(w)
  {
    forall s: SeriesId ensures HasChain(w.files.records, s) {
      assert ChainOf(w.files.records, s, []);
    }
  }
}
