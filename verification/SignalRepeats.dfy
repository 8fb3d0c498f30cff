/** What becomes of operations begun, or still at their start, when a pair has been created. */
module SignalRepeats {
  import opened Foundations
  import opened SignalStore

  /** A writer that has touched nothing yet, or a loader that has read nothing yet. */
  predicate AtStart(p: Proc) {
    if p.writes.Some? then p.phase.CheckJson? || p.phase.CreateJson? else p.phase == LoadJsonExists(Load)
  }

  /** Every step of `pid` between the two times worked, and it did not crash. */
  ghost predicate Unharmed(events: seq<Event>, i: nat, j: nat, pid: nat) {
    forall k :: i <= k < j && k < |events| ==>
      (events[k].Act? && events[k].pid == pid ==> events[k].choice.ok) && events[k] != Crash(pid)
  }

  /** The answer to an operation when the pair holds `bytes`. */
  function AnswerTo(writes: Option<string>, bytes: string): Outcome {
    if writes.None? then Loaded(bytes) else if writes.value == bytes then Existing(bytes) else Rejected
  }

  /** How far such an operation can have come. */
  ghost predicate UnderWay(p: Proc, bytes: string) {
    match p.phase
    case CheckJson => p.writes.Some?
    case CheckDigest(jsonExists) => p.writes.Some? && jsonExists
    case CreateJson => p.writes.Some?
    case LoadJsonExists(purpose) => Purposeful(p, purpose)
    case LoadDigestExists(purpose, jsonExists) => Purposeful(p, purpose) && jsonExists
    case LoadJson(purpose) => Purposeful(p, purpose)
    case LoadDigest(purpose, raw) => Purposeful(p, purpose) && raw == Complete(bytes)
    case Finished(outcome) => outcome == AnswerTo(p.writes, bytes)
    case _ => false
  }

  predicate Purposeful(p: Proc, purpose: Purpose) { purpose == if p.writes.Some? then Reconcile else Load }

  lemma StepStaysUnderWay(w: World, pid: nat, c: Choice, maker: nat, bytes: string)
    requires HasJson(w, maker, Complete(bytes)) && HasDigest(w, maker, Complete(bytes))
    requires pid in w.procs && Live(w.procs[pid]) && UnderWay(w.procs[pid], bytes) && c.ok
    ensures UnderWay(Step(w, pid, c).procs[pid], bytes)
  {
  }

  lemma EventStaysUnderWay(w: World, e: Event, pid: nat, maker: nat, bytes: string)
    requires Enabled(w, e) && HasJson(w, maker, Complete(bytes)) && HasDigest(w, maker, Complete(bytes))
    requires pid in w.procs && UnderWay(w.procs[pid], bytes)
    requires (e.Act? && e.pid == pid ==> e.choice.ok) && e != Crash(pid)
    ensures pid in Apply(w, e).procs && UnderWay(Apply(w, e).procs[pid], bytes)
    ensures Apply(w, e).procs[pid].writes == w.procs[pid].writes
  {
    hide Step, UnderWay;
    if e.Act? {
      StepFrame(w, e.pid, e.choice);
      if e.pid == pid { StepStaysUnderWay(w, pid, e.choice, maker, bytes); }
    }
  }

  lemma {:induction false} StaysUnderWay(trace: seq<World>, events: seq<Event>, i: nat, j: nat, maker: nat, pid: nat)
    requires Run(trace, events) && trace[0] == EMPTY && i <= j < |trace|
    requires maker in trace[i].procs && Done(trace[i].procs[maker]) && trace[i].procs[maker].writes.Some?
    requires pid in trace[i].procs && AtStart(trace[i].procs[pid]) && Unharmed(events, i, j, pid)
    ensures pid in trace[j].procs && UnderWay(trace[j].procs[pid], trace[i].procs[maker].writes.value)
    ensures trace[j].procs[pid].writes == trace[i].procs[pid].writes
    decreases j
  {
    hide Apply, Enabled, Inv;
    if i < j {
      StaysUnderWay(trace, events, i, j - 1, maker, pid);
      CreatedIsFinal(trace, events, i, j - 1, maker, pid);
      EventStaysUnderWay(trace[j - 1], events[j - 1], pid, maker, trace[i].procs[maker].writes.value);
    }
  }

  /**
   Once a pair has been created, every operation then at its start whose own steps all work is
   answered for exactly that pair, whoever else is at work: a write of the same bytes is
   confirmed - one that has already seen that no file was there included - a write of other
   bytes is refused, and a load returns the bytes.
   */
  lemma RepeatsAreAnswered(trace: seq<World>, events: seq<Event>, i: nat, j: nat, maker: nat, pid: nat)
    requires Run(trace, events) && trace[0] == EMPTY && i <= j < |trace|
    requires maker in trace[i].procs && Done(trace[i].procs[maker])
    requires pid in trace[i].procs && AtStart(trace[i].procs[pid]) && Unharmed(events, i, j, pid)
    ensures trace[i].procs[maker].writes.Some? && pid in trace[j].procs
    ensures trace[j].procs[pid].phase.Finished? ==>
              var bytes, writes := trace[i].procs[maker].writes.value, trace[i].procs[pid].writes;
              trace[j].procs[pid].phase.outcome ==
                if writes.None? then Loaded(bytes) else if writes.value == bytes then Existing(bytes) else Rejected
  {
    CreatedIsFinal(trace, events, i, i, maker, pid);
    StaysUnderWay(trace, events, i, j, maker, pid);
  }

  /** The checks of who made a file, before a failed fill is undone, never find anybody else's file. */
  lemma OwnFilesAreUndone(trace: seq<World>, events: seq<Event>, i: nat, pid: nat)
    requires Run(trace, events) && trace[0] == EMPTY && i < |trace| && pid in trace[i].procs
    ensures var w := trace[i];
            && (w.procs[pid].phase.UndoJsonFill? ==> w.json.Some? && w.json.value.owner == pid)
            && (w.procs[pid].phase.UndoDigestFill? ==> w.digest.Some? && w.digest.value.owner == pid)
  {
    InvariantOverRuns(trace, events, i);
    assert Facts(trace[i], pid, trace[i].procs[pid]);
  }
}
