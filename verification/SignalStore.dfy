/**
 The lock-free two-file commit of a grouping signal: exclusive creation of the JSON, then
 of its digest sidecar, with rollback by the creator only. One identity, any number of
 writers and loaders, every file operation one step.
 */
module SignalStore {
  import opened Foundations

  // --------------------------------------------------------------------- state

  /**
   A directory entry and the process that created it (its inode). A complete sidecar
   holds the bytes it is the digest of: SHA-256 is injective on the bytes seen, and no
   partial write of a canonical document is itself a canonical document.
   */
  datatype Entry = Entry(content: File<string>, owner: nat)

  datatype Purpose = Verify | Reconcile | Load

  datatype Outcome = Created | Existing(bytes: string) | Loaded(bytes: string) | NotFound | Rejected

  datatype Phase =
    | CheckJson
    | CheckDigest(jsonExists: bool)
    | CreateJson
    | FillJson
    | UndoJsonFill
    | CreateDigest
    | FillDigest
    | UndoDigestFill
    | LoadJsonExists(purpose: Purpose)
    | LoadDigestExists(purpose: Purpose, jsonExists: bool)
    | LoadJson(purpose: Purpose)
    | LoadDigest(purpose: Purpose, raw: File<string>)
    | InspectDigest          // `_remove_if_exact`: read and compare ...
    | UnlinkDigest           // ... then unlink whatever is there
    | InspectJson
    | UnlinkJson
    | Finished(outcome: Outcome)
    | Crashed

  /** `filled` remembers that the process has written both of its files in full. */
  datatype Proc = Proc(writes: Option<string>, phase: Phase, filled: bool)

  datatype World = World(json: Option<Entry>, digest: Option<Entry>, procs: map<nat, Proc>)

  /** `complete`: a failing write still left all of its bytes visible. */
  datatype Choice = Choice(ok: bool, complete: bool)

  // --------------------------------------------------------------------- steps

  function To(w: World, pid: nat, phase: Phase): World
    requires pid in w.procs
  {
    w.(procs := w.procs[pid := w.procs[pid].(phase := phase)])
  }

  /** Where a load that failed, or found `bytes`, leads its process. */
  function AfterLoad(p: Proc, purpose: Purpose, found: Option<string>): Phase {
    match purpose
    case Verify => if found.Some? && found == p.writes then Finished(Created) else InspectDigest
    case Reconcile => if found.Some? && found == p.writes then Finished(Existing(found.value)) else Finished(Rejected)
    case Load => if found.Some? then Finished(Loaded(found.value)) else Finished(Rejected)
  }

  predicate Loading(p: Proc) {
    p.phase.LoadJsonExists? || p.phase.LoadDigestExists? || p.phase.LoadJson? || p.phase.LoadDigest?
  }

  function LoadStep(w: World, pid: nat, c: Choice): World
    requires pid in w.procs
    requires Loading(w.procs[pid])
  {
    var p := w.procs[pid];
    var purpose := p.phase.purpose;
    if !c.ok then To(w, pid, AfterLoad(p, purpose, None))
    else
      match p.phase
      case LoadJsonExists(_) => To(w, pid, LoadDigestExists(purpose, w.json.Some?))
      case LoadDigestExists(_, jsonExists) =>
        if jsonExists && w.digest.Some? then To(w, pid, LoadJson(purpose))
        else if !jsonExists && w.digest.None? && purpose.Load? then To(w, pid, Finished(NotFound))
        else To(w, pid, AfterLoad(p, purpose, None))
      case LoadJson(_) =>
        if w.json.None? then To(w, pid, AfterLoad(p, purpose, None))
        else To(w, pid, LoadDigest(purpose, w.json.value.content))
      case LoadDigest(_, raw) =>
        To(w, pid, AfterLoad(p, purpose,
          if raw.Complete? && w.digest.Some? && w.digest.value.content == raw then Some(raw.value) else None))
  }

  function CreateStep(w: World, pid: nat, c: Choice): World
    requires pid in w.procs && w.procs[pid].writes.Some?
  {
    var p := w.procs[pid];
    var bytes := p.writes.value;
    match p.phase
    case CheckJson => To(w, pid, if c.ok then CheckDigest(w.json.Some?) else Finished(Rejected))
    case CheckDigest(jsonExists) =>
      if !c.ok || jsonExists != w.digest.Some? then To(w, pid, Finished(Rejected))
      else To(w, pid, if jsonExists then LoadJsonExists(Reconcile) else CreateJson)
    case CreateJson =>
      if w.json.Some? then To(w, pid, LoadJsonExists(Reconcile))
      else if !c.ok then To(w, pid, Finished(Rejected))
      else To(w, pid, FillJson).(json := Some(Entry(Partial, pid)))
    case FillJson =>
      To(w, pid, if c.ok then CreateDigest else UndoJsonFill)
        .(json := Some(Entry(if c.ok || c.complete then Complete(bytes) else Partial, pid)))
    // `_remove_if_same_file`: only the file this process created.
    case UndoJsonFill =>
      To(w, pid, Finished(Rejected))
        .(json := if c.ok && w.json.Some? && w.json.value.owner == pid then None else w.json)
    case CreateDigest =>
      if w.digest.Some? || !c.ok then To(w, pid, InspectJson)
      else To(w, pid, FillDigest).(digest := Some(Entry(Partial, pid)))
    case FillDigest =>
      World(w.json, Some(Entry(if c.ok || c.complete then Complete(bytes) else Partial, pid)),
            w.procs[pid := Proc(p.writes, if c.ok then LoadJsonExists(Verify) else UndoDigestFill,
                                p.filled || c.ok || c.complete)])
    case UndoDigestFill =>
      To(w, pid, InspectJson)
        .(digest := if c.ok && w.digest.Some? && w.digest.value.owner == pid then None else w.digest)
    case InspectDigest =>
      To(w, pid, if c.ok && w.digest.Some? && w.digest.value.content == Complete(bytes) then UnlinkDigest
         else InspectJson)
    case UnlinkDigest => To(w, pid, InspectJson).(digest := if c.ok then None else w.digest)
    case InspectJson =>
      To(w, pid, if c.ok && w.json.Some? && w.json.value.content == Complete(bytes) then UnlinkJson
         else Finished(Rejected))
    case UnlinkJson => To(w, pid, Finished(Rejected)).(json := if c.ok then None else w.json)
    case _ => w
  }

  function Step(w: World, pid: nat, c: Choice): World
    requires pid in w.procs
  {
    var p := w.procs[pid];
    if Loading(p) then LoadStep(w, pid, c)
    else if p.writes.Some? then CreateStep(w, pid, c)
    else w
  }

  datatype Event =
    | BeginWrite(pid: nat, bytes: string)
    | BeginLoad(pid: nat)
    | Act(pid: nat, choice: Choice)
    | Crash(pid: nat)

  predicate Live(p: Proc) { !p.phase.Finished? && !p.phase.Crashed? }

  predicate Enabled(w: World, e: Event) {
    match e
    case BeginWrite(pid, _) => pid !in w.procs
    case BeginLoad(pid) => pid !in w.procs
    case Act(pid, _) => pid in w.procs && Live(w.procs[pid])
    case Crash(pid) => pid in w.procs && Live(w.procs[pid])
  }

  function Apply(w: World, e: Event): World
    requires Enabled(w, e)
  {
    match e
    case BeginWrite(pid, bytes) => w.(procs := w.procs[pid := Proc(Some(bytes), CheckJson, false)])
    case BeginLoad(pid) => w.(procs := w.procs[pid := Proc(None, LoadJsonExists(Load), false)])
    case Act(pid, c) => Step(w, pid, c)
    case Crash(pid) => To(w, pid, Crashed)
  }

  ghost predicate Run(trace: seq<World>, events: seq<Event>) {
    && |trace| == |events| + 1
    && (forall i :: 0 <= i < |events| ==> Enabled(trace[i], events[i]) && trace[i + 1] == Apply(trace[i], events[i]))
  }

  const EMPTY := World(None, None, map[])

  // ----------------------------------------------------------------- invariant

  predicate Verifying(p: Proc) {
    Loading(p) && p.phase.purpose.Verify?
  }

  /** The process has created the JSON file and may still remove it. */
  predicate HoldsJson(p: Proc) {
    p.phase.FillJson? || p.phase.UndoJsonFill? || p.phase.InspectJson? || p.phase.UnlinkJson? || p.phase.CreateDigest?
      || HoldsDigest(p)
  }

  predicate HoldsDigest(p: Proc) {
    p.phase.FillDigest? || p.phase.UndoDigestFill? || p.phase.InspectDigest? || p.phase.UnlinkDigest? || Verifying(p)
  }

  /** A process whose pair, if present, nobody will ever remove. */
  predicate Done(p: Proc) { p.phase == Finished(Created) }

  ghost predicate FilesSound(w: World) { JsonSound(w) && DigestSound(w) }

  /** The JSON file belongs to a writer and, once complete, holds that writer's bytes. */
  predicate JsonSound(w: World) {
    w.json.Some? ==>
      && w.json.value.owner in w.procs && w.procs[w.json.value.owner].writes.Some?
      && (w.json.value.content.Complete? ==> Some(w.json.value.content.value) == w.procs[w.json.value.owner].writes)
  }

  /** So does the sidecar, and by then its writer has filled both files. */
  predicate DigestSound(w: World) {
    w.digest.Some? ==>
      && w.digest.value.owner in w.procs && w.procs[w.digest.value.owner].writes.Some?
      && (w.digest.value.content.Complete? ==>
            && Some(w.digest.value.content.value) == w.procs[w.digest.value.owner].writes
            && w.procs[w.digest.value.owner].filled)
  }

  /** Bytes some single writer wrote to both of its files, in full. */
  ghost predicate WrittenInFull(w: World, bytes: string) {
    exists pid :: pid in w.procs && w.procs[pid].filled && w.procs[pid].writes == Some(bytes)
  }

  predicate HasJson(w: World, pid: nat, content: File<string>) { w.json == Some(Entry(content, pid)) }
  predicate HasDigest(w: World, pid: nat, content: File<string>) { w.digest == Some(Entry(content, pid)) }

  /** What a process in the middle of its work may rely on. */
  ghost predicate Facts(w: World, pid: nat, p: Proc) {
    && (HoldsJson(p) || Done(p) ==> p.writes.Some?)
    && (HoldsJson(p) && !p.phase.FillJson? && !p.phase.UndoJsonFill? ==> HasJson(w, pid, Complete(p.writes.value)))
    && (p.phase.FillJson? || p.phase.UndoJsonFill? ==> w.json.Some? && w.json.value.owner == pid)
    && (HoldsDigest(p) && !p.phase.FillDigest? && !p.phase.UndoDigestFill? ==>
        HasDigest(w, pid, Complete(p.writes.value)))
    && (p.phase.FillDigest? || p.phase.UndoDigestFill? ==> w.digest.Some? && w.digest.value.owner == pid)
    && (p.phase.FillDigest? ==> HasDigest(w, pid, Partial))
    && (Done(p) ==> HasJson(w, pid, Complete(p.writes.value)) && HasDigest(w, pid, Complete(p.writes.value)))
    && (Verifying(p) && p.phase.LoadDigestExists? ==> p.phase.jsonExists)
    && (Verifying(p) && p.phase.LoadDigest? ==> p.phase.raw == Complete(p.writes.value))
    && (p.writes.None? ==> !p.phase.CheckJson? && !p.phase.CheckDigest? && !p.phase.CreateJson?)
    && (p.phase.Finished? && p.phase.outcome.Existing? ==> p.writes == Some(p.phase.outcome.bytes))
    && (var s := Vouched(p); s.Some? ==> WrittenInFull(w, s.value))
  }

  /** The bytes a finished operation vouched for. */
  function Vouched(p: Proc): Option<string> {
    if !p.phase.Finished? then None
    else
      match p.phase.outcome
      case Created => p.writes
      case Existing(bytes) => Some(bytes)
      case Loaded(bytes) => Some(bytes)
      case _ => None
  }

  ghost predicate Inv(w: World) {
    FilesSound(w) && forall pid :: pid in w.procs ==> Facts(w, pid, w.procs[pid])
  }

  /** The JSON file is the lock: two processes never both hold it. */
  lemma OneHolder(w: World, a: nat, b: nat)
    requires Inv(w) && a in w.procs && b in w.procs
    requires HoldsJson(w.procs[a]) || Done(w.procs[a])
    requires HoldsJson(w.procs[b]) || Done(w.procs[b])
    ensures a == b
  {
    assert Facts(w, a, w.procs[a]) && Facts(w, b, w.procs[b]);
  }

  /** A process that does not hold the JSON file changes neither file, unless it creates the first. */
  lemma OnlyHoldersWrite(w: World, pid: nat, c: Choice)
    requires pid in w.procs && Live(w.procs[pid]) && !HoldsJson(w.procs[pid])
    ensures Step(w, pid, c).digest == w.digest
    ensures Step(w, pid, c).json == w.json || (w.json.None? && w.procs[pid].phase.CreateJson?)
  {
  }

  lemma StepFrame(w: World, pid: nat, c: Choice)
    requires pid in w.procs
    ensures Step(w, pid, c).procs.Keys == w.procs.Keys
    ensures forall k :: k in w.procs && k != pid ==> Step(w, pid, c).procs[k] == w.procs[k]
    ensures Step(w, pid, c).procs[pid].writes == w.procs[pid].writes
    ensures w.procs[pid].filled ==> Step(w, pid, c).procs[pid].filled
  {
  }

  lemma FullStaysFull(w: World, pid: nat, c: Choice, bytes: string)
    requires pid in w.procs && WrittenInFull(w, bytes)
    ensures WrittenInFull(Step(w, pid, c), bytes)
  {
    StepFrame(w, pid, c);
    var k :| k in w.procs && w.procs[k].filled && w.procs[k].writes == Some(bytes);
    assert Step(w, pid, c).procs[k].filled;
  }

  lemma JsonStaysSound(w: World, pid: nat, c: Choice)
    requires JsonSound(w) && pid in w.procs
    ensures JsonSound(Step(w, pid, c))
  {
  }

  lemma DigestStaysSound(w: World, pid: nat, c: Choice)
    requires DigestSound(w) && pid in w.procs
    ensures DigestSound(Step(w, pid, c))
  {
  }

  /** What a load vouches for, the sidecar's writer wrote to both files. */
  lemma LoadVouches(w: World, pid: nat, c: Choice)
    requires DigestSound(w) && pid in w.procs && Loading(w.procs[pid])
    ensures var w' := LoadStep(w, pid, c);
            var s := Vouched(w'.procs[pid]);
            s.Some? ==> WrittenInFull(w', s.value)
  {
    var w' := LoadStep(w, pid, c);
    var s := Vouched(w'.procs[pid]);
    if s.Some? {
      var o := w.digest.value.owner;
      assert w'.procs[o].filled && w'.procs[o].writes == s;
    }
  }

  lemma LoadKeepsOwnFacts(w: World, pid: nat, c: Choice)
    requires Inv(w) && pid in w.procs && Loading(w.procs[pid])
    ensures Facts(LoadStep(w, pid, c), pid, LoadStep(w, pid, c).procs[pid])
  {
    hide WrittenInFull, JsonSound, DigestSound;
    assert Facts(w, pid, w.procs[pid]);
    LoadVouches(w, pid, c);
  }

  lemma JsonKeepsOwnFacts(w: World, pid: nat, c: Choice)
    requires Inv(w) && pid in w.procs && w.procs[pid].writes.Some?
    requires var ph := w.procs[pid].phase;
             ph.CheckJson? || ph.CheckDigest? || ph.CreateJson? || ph.FillJson? || ph.UndoJsonFill?
    ensures Facts(CreateStep(w, pid, c), pid, CreateStep(w, pid, c).procs[pid])
  {
    hide WrittenInFull, FilesSound;
    assert Facts(w, pid, w.procs[pid]);
  }

  lemma DigestKeepsOwnFacts(w: World, pid: nat, c: Choice)
    requires Inv(w) && pid in w.procs && w.procs[pid].writes.Some?
    requires var ph := w.procs[pid].phase; ph.CreateDigest? || ph.FillDigest? || ph.UndoDigestFill?
    ensures Facts(CreateStep(w, pid, c), pid, CreateStep(w, pid, c).procs[pid])
  {
    hide WrittenInFull, FilesSound;
    assert Facts(w, pid, w.procs[pid]);
  }

  lemma RollbackKeepsOwnFacts(w: World, pid: nat, c: Choice)
    requires Inv(w) && pid in w.procs && w.procs[pid].writes.Some?
    requires var ph := w.procs[pid].phase; ph.InspectDigest? || ph.UnlinkDigest? || ph.InspectJson? || ph.UnlinkJson?
    ensures Facts(CreateStep(w, pid, c), pid, CreateStep(w, pid, c).procs[pid])
  {
    hide WrittenInFull, FilesSound;
    assert Facts(w, pid, w.procs[pid]);
  }

  lemma OthersKeepFacts(w: World, pid: nat, c: Choice, k: nat)
    requires Inv(w) && pid in w.procs && Live(w.procs[pid]) && k in w.procs && k != pid
    ensures Facts(Step(w, pid, c), k, w.procs[k])
  {
    var p := w.procs[k];
    assert Facts(w, k, p);
    if HoldsJson(p) || Done(p) {
      assert !HoldsJson(w.procs[pid]) by { if HoldsJson(w.procs[pid]) { OneHolder(w, pid, k); } }
      OnlyHoldersWrite(w, pid, c);
      assert w.json.Some?;
    }
    var s := Vouched(p);
    if s.Some? { FullStaysFull(w, pid, c, s.value); }
  }

  lemma ActKeepsInv(w: World, pid: nat, c: Choice)
    requires Inv(w) && pid in w.procs && Live(w.procs[pid])
    ensures Inv(Step(w, pid, c))
  {
    hide Facts;
    var w' := Step(w, pid, c);
    JsonStaysSound(w, pid, c);
    DigestStaysSound(w, pid, c);
    StepFrame(w, pid, c);
    forall k | k in w'.procs ensures Facts(w', k, w'.procs[k]) {
      if k != pid {
        OthersKeepFacts(w, pid, c, k);
      } else {
        OwnFacts(w, pid, c);
      }
    }
  }

  lemma OwnFacts(w: World, pid: nat, c: Choice)
    requires Inv(w) && pid in w.procs && Live(w.procs[pid])
    ensures Facts(Step(w, pid, c), pid, Step(w, pid, c).procs[pid])
  {
    var p := w.procs[pid];
    assert Facts(w, pid, p);
    if Loading(p) {
      LoadKeepsOwnFacts(w, pid, c);
    } else if p.phase.InspectDigest? || p.phase.UnlinkDigest? || p.phase.InspectJson? || p.phase.UnlinkJson? {
      RollbackKeepsOwnFacts(w, pid, c);
    } else if p.phase.CreateDigest? || p.phase.FillDigest? || p.phase.UndoDigestFill? {
      DigestKeepsOwnFacts(w, pid, c);
    } else if p.writes.Some? {
      JsonKeepsOwnFacts(w, pid, c);
    }
  }

  lemma QuietEventKeepsFacts(w: World, e: Event, k: nat)
    requires Inv(w) && Enabled(w, e) && !e.Act? && k in Apply(w, e).procs
    ensures Facts(Apply(w, e), k, Apply(w, e).procs[k])
  {
    hide FilesSound;
    var w' := Apply(w, e);
    if k in w.procs {
      assert Facts(w, k, w.procs[k]);
      var s := Vouched(w.procs[k]);
      if s.Some? {
        var o :| o in w.procs && w.procs[o].filled && w.procs[o].writes == s;
        assert w'.procs[o].filled && w'.procs[o].writes == s;
      }
    }
  }

  lemma EventKeepsInv(w: World, e: Event)
    requires Inv(w) && Enabled(w, e)
    ensures Inv(Apply(w, e))
  {
    hide Facts;
    if e.Act? {
      ActKeepsInv(w, e.pid, e.choice);
    } else {
      var w' := Apply(w, e);
      forall k | k in w'.procs ensures Facts(w', k, w'.procs[k]) { QuietEventKeepsFacts(w, e, k); }
    }
  }

  lemma {:induction false} InvariantOverRuns(trace: seq<World>, events: seq<Event>, i: nat)
    requires Run(trace, events) && trace[0] == EMPTY && i < |trace|
    ensures Inv(trace[i])
  {
    hide Inv, Apply, Enabled;
    if i > 0 {
      InvariantOverRuns(trace, events, i - 1);
      EventKeepsInv(trace[i - 1], events[i - 1]);
    } else {
      EmptyIsSound();
    }
  }

  lemma EmptyIsSound()
    ensures Inv(EMPTY)
  {
  }

  // ---------------------------------------------------------------- main results

  /**
   Under any interleaving of writers and loaders, with faults and crashes anywhere: an
   operation only ever succeeds with bytes that some single writer wrote to both files.
   */
  lemma SuccessIsSomeWritersPair(trace: seq<World>, events: seq<Event>, i: nat, pid: nat)
    requires Run(trace, events) && trace[0] == EMPTY && i < |trace| && pid in trace[i].procs
    ensures var s := Vouched(trace[i].procs[pid]); s.Some? ==> WrittenInFull(trace[i], s.value)
  {
    InvariantOverRuns(trace, events, i);
    assert Facts(trace[i], pid, trace[i].procs[pid]);
  }

  ghost predicate PermanentBy(w: World, o: nat, bytes: string) {
    HasJson(w, o, Complete(bytes)) && HasDigest(w, o, Complete(bytes)) && o in w.procs
    && (Done(w.procs[o]) || w.procs[o].phase.Crashed?)
  }

  lemma PermanentStays(w: World, e: Event, o: nat, bytes: string)
    requires Inv(w) && Enabled(w, e) && PermanentBy(w, o, bytes)
    ensures PermanentBy(Apply(w, e), o, bytes)
    ensures forall pid :: pid in Apply(w, e).procs && Vouched(Apply(w, e).procs[pid]).Some? ==>
              || Vouched(Apply(w, e).procs[pid]) == Some(bytes)
              || (pid in w.procs && w.procs[pid] == Apply(w, e).procs[pid])
  {
    if e.Act? {
      var p := w.procs[e.pid];
      assert Facts(w, e.pid, p);
      assert !HoldsJson(p);
      OnlyHoldersWrite(w, e.pid, e.choice);
      StepFrame(w, e.pid, e.choice);
    }
  }

  /**
   Once a write has returned `Created`, its pair is never removed, and every operation
   that succeeds from then on - loads already under way included - succeeds with exactly
   those bytes.
   */
  lemma {:induction false} CreatedIsFinal(trace: seq<World>, events: seq<Event>, i: nat, j: nat, o: nat, pid: nat)
    requires Run(trace, events) && trace[0] == EMPTY && i <= j < |trace|
    requires o in trace[i].procs && Done(trace[i].procs[o])
    ensures trace[i].procs[o].writes.Some? && PermanentBy(trace[j], o, trace[i].procs[o].writes.value)
    ensures pid in trace[j].procs && Vouched(trace[j].procs[pid]).Some? ==>
              || Vouched(trace[j].procs[pid]) == trace[i].procs[o].writes
              || (pid in trace[i].procs && trace[i].procs[pid] == trace[j].procs[pid])
    decreases j
  {
    hide Apply, Enabled;
    InvariantOverRuns(trace, events, i);
    assert Facts(trace[i], o, trace[i].procs[o]);
    if i < j {
      CreatedIsFinal(trace, events, i, j - 1, o, pid);
      InvariantOverRuns(trace, events, j - 1);
      PermanentStays(trace[j - 1], events[j - 1], o, trace[i].procs[o].writes.value);
    }
  }

  /** At most one write of an identity ever returns `Created`. */
  lemma AtMostOneCreated(trace: seq<World>, events: seq<Event>, i: nat, a: nat, b: nat)
    requires Run(trace, events) && trace[0] == EMPTY && i < |trace|
    requires a in trace[i].procs && b in trace[i].procs && Done(trace[i].procs[a]) && Done(trace[i].procs[b])
    ensures a == b
  {
    InvariantOverRuns(trace, events, i);
    OneHolder(trace[i], a, b);
  }
}
