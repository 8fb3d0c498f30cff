/**
 Can one signal identity ever yield two contents? Not unless some write faults after its
 sidecar is already complete on disk; and with one such fault it can.
 */
module SignalUniqueness {
  import opened Foundations
  import opened SignalStore

  /**
   A fault after the sidecar is complete: the final flush of the sidecar fails although all
   of its bytes are visible, or the verification read that follows fails.
   */
  predicate LateFault(w: World, e: Event) {
    e.Act? && e.pid in w.procs && !e.choice.ok
    && ((w.procs[e.pid].phase.FillDigest? && e.choice.complete) || Verifying(w.procs[e.pid]))
  }

  ghost predicate NoLateFaults(trace: seq<World>, events: seq<Event>)
    requires Run(trace, events)
  {
    forall i :: 0 <= i < |events| ==> !LateFault(trace[i], events[i])
  }

  /** A process that filled both files still has them, and will not take them back. */
  ghost predicate Kept(w: World, pid: nat, p: Proc) {
    && (p.filled ==>
          && p.writes.Some? && (Verifying(p) || Done(p) || p.phase.Crashed?)
          && HasJson(w, pid, Complete(p.writes.value)) && HasDigest(w, pid, Complete(p.writes.value)))
    && (p.phase.UndoDigestFill? ==> HasDigest(w, pid, Partial))
    && !p.phase.InspectDigest? && !p.phase.UnlinkDigest?
  }

  ghost predicate AllKept(w: World) {
    forall pid :: pid in w.procs ==> Kept(w, pid, w.procs[pid])
  }

  lemma OwnPairKept(w: World, pid: nat, c: Choice)
    requires Inv(w) && AllKept(w) && pid in w.procs && Live(w.procs[pid]) && !LateFault(w, Act(pid, c))
    ensures Kept(Step(w, pid, c), pid, Step(w, pid, c).procs[pid])
  {
    assert Facts(w, pid, w.procs[pid]) && Kept(w, pid, w.procs[pid]);
  }

  lemma OthersPairKept(w: World, pid: nat, c: Choice, k: nat)
    requires Inv(w) && AllKept(w) && pid in w.procs && Live(w.procs[pid]) && k in w.procs && k != pid
    ensures Kept(Step(w, pid, c), k, w.procs[k])
  {
    var p := w.procs[k];
    assert Facts(w, k, p) && Kept(w, k, p) && Facts(w, pid, w.procs[pid]);
    if p.filled || p.phase.UndoDigestFill? {
      assert w.json.Some? && w.json.value.owner == k;
      assert !HoldsJson(w.procs[pid]);
      OnlyHoldersWrite(w, pid, c);
    }
  }

  lemma KeptStays(w: World, e: Event)
    requires Inv(w) && AllKept(w) && Enabled(w, e) && !LateFault(w, e)
    ensures AllKept(Apply(w, e))
  {
    var w' := Apply(w, e);
    if e.Act? {
      StepFrame(w, e.pid, e.choice);
      OwnPairKept(w, e.pid, e.choice);
      forall k | k in w'.procs && k != e.pid ensures Kept(w', k, w'.procs[k]) {
        OthersPairKept(w, e.pid, e.choice, k);
      }
    } else {
      forall k | k in w'.procs ensures Kept(w', k, w'.procs[k]) {
        if k in w.procs { assert Kept(w, k, w.procs[k]); }
      }
    }
  }

  lemma {:induction false} KeptOverRuns(trace: seq<World>, events: seq<Event>, i: nat)
    requires Run(trace, events) && trace[0] == EMPTY && NoLateFaults(trace, events) && i < |trace|
    ensures AllKept(trace[i])
  {
    if i > 0 {
      KeptOverRuns(trace, events, i - 1);
      InvariantOverRuns(trace, events, i - 1);
      KeptStays(trace[i - 1], events[i - 1]);
    }
  }

  lemma {:induction false} FullIsRemembered(trace: seq<World>, events: seq<Event>, i: nat, j: nat, bytes: string)
    requires Run(trace, events) && i <= j < |trace| && WrittenInFull(trace[i], bytes)
    ensures WrittenInFull(trace[j], bytes)
    decreases j
  {
    if i < j {
      FullIsRemembered(trace, events, i, j - 1, bytes);
      var w, e := trace[j - 1], events[j - 1];
      if e.Act? {
        FullStaysFull(w, e.pid, e.choice, bytes);
      } else {
        var k :| k in w.procs && w.procs[k].filled && w.procs[k].writes == Some(bytes);
        assert Apply(w, e).procs[k].filled && Apply(w, e).procs[k].writes == Some(bytes);
      }
    }
  }

  /** Without late faults, every operation that ever succeeds does so with the same bytes. */
  lemma OneContentEver(trace: seq<World>, events: seq<Event>, i: nat, a: nat, j: nat, b: nat)
    requires Run(trace, events) && trace[0] == EMPTY && NoLateFaults(trace, events) && i <= j < |trace|
    requires a in trace[i].procs && b in trace[j].procs
    requires Vouched(trace[i].procs[a]).Some? && Vouched(trace[j].procs[b]).Some?
    ensures Vouched(trace[i].procs[a]) == Vouched(trace[j].procs[b])
  {
    var x, y := Vouched(trace[i].procs[a]).value, Vouched(trace[j].procs[b]).value;
    SuccessIsSomeWritersPair(trace, events, i, a);
    SuccessIsSomeWritersPair(trace, events, j, b);
    FullIsRemembered(trace, events, i, j, x);
    KeptOverRuns(trace, events, j);
    var w := trace[j];
    var p :| p in w.procs && w.procs[p].filled && w.procs[p].writes == Some(x);
    var q :| q in w.procs && w.procs[q].filled && w.procs[q].writes == Some(y);
    assert Kept(w, p, w.procs[p]) && Kept(w, q, w.procs[q]);
  }

  // ------------------------------------------------------- one late fault suffices

  ghost predicate Reaches(v: World) {
    exists trace, events :: Run(trace, events) && trace[0] == EMPTY && trace[|events|] == v
  }

  lemma Extend(v: World, e: Event)
    requires Reaches(v) && Enabled(v, e)
    ensures Reaches(Apply(v, e))
  {
    var trace, events :| Run(trace, events) && trace[0] == EMPTY && trace[|events|] == v;
    var trace', events' := trace + [Apply(v, e)], events + [e];
    forall i | 0 <= i < |events'|
      ensures Enabled(trace'[i], events'[i]) && trace'[i + 1] == Apply(trace'[i], events'[i])
    {
      if i < |events| { assert trace'[i] == trace[i] && trace'[i + 1] == trace[i + 1] && events'[i] == events[i]; }
    }
    assert Run(trace', events');
  }

  const GOOD_IO := Choice(true, false)
  const BAD_IO := Choice(false, false)

  function Writer(bytes: string, phase: Phase, filled: bool): Proc { Proc(Some(bytes), phase, filled) }

  function Pair(pid: nat, bytes: string, procs: map<nat, Proc>): World {
    World(Some(Entry(Complete(bytes), pid)), Some(Entry(Complete(bytes), pid)), procs)
  }

  /** One step of `pid`, with the resulting files and process spelled out. */
  lemma Acts(json: Option<Entry>, digest: Option<Entry>, procs: map<nat, Proc>, pid: nat, p: Proc, c: Choice,
             json': Option<Entry>, digest': Option<Entry>, p': Proc)
    requires Reaches(World(json, digest, procs[pid := p])) && Live(p)
    requires Step(World(json, digest, procs[pid := p]), pid, c) == World(json', digest', procs[pid := p][pid := p'])
    ensures Reaches(World(json', digest', procs[pid := p']))
  {
    Extend(World(json, digest, procs[pid := p]), Act(pid, c));
    assert procs[pid := p][pid := p'] == procs[pid := p'];
  }

  /** From an empty directory a writer creates and fills its first file. */
  lemma WritesJson(procs: map<nat, Proc>, pid: nat, bytes: string)
    requires Reaches(World(None, None, procs)) && pid !in procs
    ensures Reaches(World(Some(Entry(Complete(bytes), pid)), None, procs[pid := Writer(bytes, CreateDigest, false)]))
  {
    hide Reaches;
    Extend(World(None, None, procs), BeginWrite(pid, bytes));
    var half, full := Some(Entry(Partial, pid)), Some(Entry(Complete(bytes), pid));
    var p := Writer(bytes, CheckJson, false);
    Acts(None, None, procs, pid, p, GOOD_IO, None, None, p.(phase := CheckDigest(false)));
    Acts(None, None, procs, pid, p.(phase := CheckDigest(false)), GOOD_IO, None, None, p.(phase := CreateJson));
    Acts(None, None, procs, pid, p.(phase := CreateJson), GOOD_IO, half, None, p.(phase := FillJson));
    Acts(half, None, procs, pid, p.(phase := FillJson), GOOD_IO, full, None, p.(phase := CreateDigest));
  }

  /** And then the second. */
  lemma WritesPair(procs: map<nat, Proc>, pid: nat, bytes: string)
    requires Reaches(World(None, None, procs)) && pid !in procs
    ensures Reaches(Pair(pid, bytes, procs[pid := Writer(bytes, LoadJsonExists(Verify), true)]))
  {
    hide Reaches;
    WritesJson(procs, pid, bytes);
    var half, full := Some(Entry(Partial, pid)), Some(Entry(Complete(bytes), pid));
    var p := Writer(bytes, CreateDigest, false);
    Acts(full, None, procs, pid, p, GOOD_IO, full, half, p.(phase := FillDigest));
    Acts(full, half, procs, pid, p.(phase := FillDigest), GOOD_IO, full, full,
         Writer(bytes, LoadJsonExists(Verify), true));
  }

  /** A load that meets a complete pair goes through. */
  lemma LoadsPair(owner: nat, bytes: string, procs: map<nat, Proc>, pid: nat, p: Proc, purpose: Purpose)
    requires Reaches(Pair(owner, bytes, procs[pid := p.(phase := LoadJsonExists(purpose))]))
    ensures Reaches(Pair(owner, bytes, procs[pid := p.(phase := AfterLoad(p, purpose, Some(bytes)))]))
  {
    hide Reaches;
    var full := Some(Entry(Complete(bytes), owner));
    Acts(full, full, procs, pid, p.(phase := LoadJsonExists(purpose)), GOOD_IO, full, full,
         p.(phase := LoadDigestExists(purpose, true)));
    Acts(full, full, procs, pid, p.(phase := LoadDigestExists(purpose, true)), GOOD_IO, full, full,
         p.(phase := LoadJson(purpose)));
    Acts(full, full, procs, pid, p.(phase := LoadJson(purpose)), GOOD_IO, full, full,
         p.(phase := LoadDigest(purpose, Complete(bytes))));
    Acts(full, full, procs, pid, p.(phase := LoadDigest(purpose, Complete(bytes))), GOOD_IO, full, full,
         p.(phase := AfterLoad(p, purpose, Some(bytes))));
  }

  /** A verification fault makes the writer take its second file back. */
  lemma VerificationFaultUndoesDigest(procs: map<nat, Proc>, pid: nat, bytes: string)
    requires Reaches(Pair(pid, bytes, procs[pid := Writer(bytes, LoadJsonExists(Verify), true)]))
    ensures Reaches(World(Some(Entry(Complete(bytes), pid)), None, procs[pid := Writer(bytes, InspectJson, true)]))
  {
    hide Reaches;
    var full := Some(Entry(Complete(bytes), pid));
    var p := Writer(bytes, LoadJsonExists(Verify), true);
    Acts(full, full, procs, pid, p, BAD_IO, full, full, p.(phase := InspectDigest));
    Acts(full, full, procs, pid, p.(phase := InspectDigest), GOOD_IO, full, full, p.(phase := UnlinkDigest));
    Acts(full, full, procs, pid, p.(phase := UnlinkDigest), GOOD_IO, full, None, p.(phase := InspectJson));
  }

  /** And then the first. */
  lemma VerificationFaultUndoes(procs: map<nat, Proc>, pid: nat, bytes: string)
    requires Reaches(Pair(pid, bytes, procs[pid := Writer(bytes, LoadJsonExists(Verify), true)]))
    ensures Reaches(World(None, None, procs[pid := Writer(bytes, Finished(Rejected), true)]))
  {
    hide Reaches;
    VerificationFaultUndoesDigest(procs, pid, bytes);
    var full := Some(Entry(Complete(bytes), pid));
    var p := Writer(bytes, InspectJson, true);
    Acts(full, None, procs, pid, p, GOOD_IO, full, None, p.(phase := UnlinkJson));
    Acts(full, None, procs, pid, p.(phase := UnlinkJson), GOOD_IO, None, None, p.(phase := Finished(Rejected)));
  }

  /**
   With a single verification fault two contents succeed: a load returns the first
   writer's bytes before they are rolled back, then a second writer creates others.
   */
  lemma OneLateFaultAllowsTwoContents()
    ensures exists trace: seq<World>, events: seq<Event> ::
      && Run(trace, events) && trace[0] == EMPTY
      && (var w := trace[|trace| - 1];
          2 in w.procs && 3 in w.procs && Vouched(w.procs[2]) == Some("a") && Vouched(w.procs[3]) == Some("b"))
  {
    assert Reaches(EMPTY) by { assert Run([EMPTY], []); }
    var loader := Proc(None, LoadJsonExists(Load), false);
    var one := map[1 := Writer("a", LoadJsonExists(Verify), true)];
    var none: map<nat, Proc> := map[];
    WritesPair(none, 1, "a");
    assert none[1 := Writer("a", LoadJsonExists(Verify), true)] == one;
    Extend(Pair(1, "a", one), BeginLoad(2));
    LoadsPair(1, "a", one, 2, loader, Load);
    var read := map[2 := Proc(None, Finished(Loaded("a")), false)];
    assert one[2 := loader.(phase := AfterLoad(loader, Load, Some("a")))]
           == read[1 := Writer("a", LoadJsonExists(Verify), true)];
    VerificationFaultUndoes(read, 1, "a");
    var undone := read[1 := Writer("a", Finished(Rejected), true)];
    WritesPair(undone, 3, "b");
    LoadsPair(3, "b", undone, 3, Writer("b", LoadJsonExists(Verify), true), Verify);
  }
}
