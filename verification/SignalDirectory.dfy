/**
 `write_grouping_signal` and `load_grouping_signal` as the sequential methods they are.
 Run alone, each is one run of the step machine of SignalStore.
 */
module SignalDirectory {
  import opened Foundations
  import opened SignalStore

  ghost function Alone(w: World, pid: nat, io: nat -> Choice, n: nat): World {
    if n == 0 then w
    else
      var v := Alone(w, pid, io, n - 1);
      if pid in v.procs && Live(v.procs[pid]) then Step(v, pid, io(n - 1)) else v
  }

  lemma Advance(w: World, pid: nat, io: nat -> Choice, n: nat, v: World)
    requires Alone(w, pid, io, n) == v && pid in v.procs && Live(v.procs[pid])
    ensures Alone(w, pid, io, n + 1) == Step(v, pid, io(n))
  {
  }

  /** The bytes a faultless load of these two files returns. */
  function Readable(json: Option<Entry>, digest: Option<Entry>): Option<string> {
    if json.Some? && digest.Some? && json.value.content.Complete? && digest.value.content == json.value.content
    then Some(json.value.content.value) else None
  }

  class Directory {
    var json: Option<Entry>
    var digest: Option<Entry>
    ghost const others: map<nat, Proc>

    ghost function Seen(pid: nat, p: Proc): World
      reads this
    {
      World(json, digest, others[pid := p])
    }

    lemma PhaseStep(w: World, pid: nat, io: nat -> Choice, n: nat, p: Proc, phase: Phase)
      requires Live(p) && Alone(w, pid, io, n) == Seen(pid, p)
      requires Step(Seen(pid, p), pid, io(n)) == To(Seen(pid, p), pid, phase)
      ensures Alone(w, pid, io, n + 1) == Seen(pid, p.(phase := phase))
    {
      Advance(w, pid, io, n, Seen(pid, p));
      assert others[pid := p][pid := p.(phase := phase)] == others[pid := p.(phase := phase)];
    }

    /** Existence of both files, then both reads, then the digest comparison. */
    method LoadPair(pid: nat, p: Proc, io: nat -> Choice, n: nat, ghost w: World)
      returns (found: Option<string>, end: Phase, steps: nat)
      requires p.phase.LoadJsonExists? && Alone(w, pid, io, n) == Seen(pid, p)
      ensures Alone(w, pid, io, steps) == Seen(pid, p.(phase := end))
      ensures end == AfterLoad(p, p.phase.purpose, found) || (end == Finished(NotFound) && found.None?
                                                              && p.phase.purpose.Load?)
      ensures found.Some? ==> found == Readable(json, digest)
      ensures (forall k :: io(k).ok) ==> found == Readable(json, digest)
      ensures end == Finished(NotFound) ==> json.None? && digest.None?
      ensures (forall k :: io(k).ok) && p.phase.purpose.Load? && json.None? && digest.None? ==>
                end == Finished(NotFound)
    {
      hide Alone;
      var purpose := p.phase.purpose;
      found, end, steps := None, AfterLoad(p, purpose, None), n + 1;
      if !io(n).ok { PhaseStep(w, pid, io, n, p, end); return; }
      var jsonExists := json.Some?;
      PhaseStep(w, pid, io, n, p, LoadDigestExists(purpose, jsonExists));
      var q := p.(phase := LoadDigestExists(purpose, jsonExists));
      steps := n + 2;
      if io(n + 1).ok && !jsonExists && digest.None? && purpose.Load? { end := Finished(NotFound); }
      if !io(n + 1).ok || !jsonExists || digest.None? { PhaseStep(w, pid, io, n + 1, q, end); return; }
      PhaseStep(w, pid, io, n + 1, q, LoadJson(purpose));
      found, end, steps := ReadPair(pid, p.(phase := LoadJson(purpose)), io, n + 2, w);
    }

    /** Both reads, once both files have been seen. */
    method ReadPair(pid: nat, p: Proc, io: nat -> Choice, n: nat, ghost w: World)
      returns (found: Option<string>, end: Phase, steps: nat)
      requires p.phase.LoadJson? && json.Some? && digest.Some? && Alone(w, pid, io, n) == Seen(pid, p)
      ensures Alone(w, pid, io, steps) == Seen(pid, p.(phase := end))
      ensures end == AfterLoad(p, p.phase.purpose, found)
      ensures found.Some? ==> found == Readable(json, digest)
      ensures io(n).ok && io(n + 1).ok ==> found == Readable(json, digest)
    {
      hide Alone, AfterLoad;
      var purpose := p.phase.purpose;
      found, end, steps := None, AfterLoad(p, purpose, None), n + 1;
      if !io(n).ok { PhaseStep(w, pid, io, n, p, end); return; }
      var raw := json.value.content;
      PhaseStep(w, pid, io, n, p, LoadDigest(purpose, raw));
      var q := p.(phase := LoadDigest(purpose, raw));
      steps := n + 2;
      if io(n + 1).ok && raw.Complete? && digest.value.content == raw { found := Some(raw.value); }
      end := AfterLoad(q, purpose, found);
      assert AfterLoad(q, purpose, found) == AfterLoad(p, purpose, found) by { SameWrites(p, q, purpose, found); }
      PhaseStep(w, pid, io, n + 1, q, end);
    }

    lemma SameWrites(p: Proc, q: Proc, purpose: Purpose, found: Option<string>)
      requires p.writes == q.writes
      ensures AfterLoad(p, purpose, found) == AfterLoad(q, purpose, found)
    {
    }

    /** `_remove_if_exact` on the sidecar, then on the JSON: compare, then unlink. */
    method RollBackDigest(pid: nat, p: Proc, io: nat -> Choice, n: nat, ghost w: World) returns (steps: nat)
      requires p.writes.Some? && p.phase.InspectDigest? && Alone(w, pid, io, n) == Seen(pid, p)
      modifies this`digest
      ensures Alone(w, pid, io, steps) == Seen(pid, p.(phase := InspectJson))
    {
      hide Alone;
      steps := n + 1;
      if !io(n).ok || digest.None? || digest.value.content != Complete(p.writes.value) {
        PhaseStep(w, pid, io, n, p, InspectJson);
        return;
      }
      PhaseStep(w, pid, io, n, p, UnlinkDigest);
      ghost var v := Seen(pid, p.(phase := UnlinkDigest));
      if io(n + 1).ok { digest := None; }
      Advance(w, pid, io, n + 1, v);
      assert others[pid := p.(phase := UnlinkDigest)][pid := p.(phase := InspectJson)]
             == others[pid := p.(phase := InspectJson)];
      steps := n + 2;
    }

    method RollBackJson(pid: nat, p: Proc, io: nat -> Choice, n: nat, ghost w: World) returns (steps: nat)
      requires p.writes.Some? && p.phase.InspectJson? && Alone(w, pid, io, n) == Seen(pid, p)
      modifies this`json
      ensures Alone(w, pid, io, steps) == Seen(pid, p.(phase := Finished(Rejected)))
    {
      hide Alone;
      steps := n + 1;
      if !io(n).ok || json.None? || json.value.content != Complete(p.writes.value) {
        PhaseStep(w, pid, io, n, p, Finished(Rejected));
        return;
      }
      PhaseStep(w, pid, io, n, p, UnlinkJson);
      ghost var v := Seen(pid, p.(phase := UnlinkJson));
      if io(n + 1).ok { json := None; }
      Advance(w, pid, io, n + 1, v);
      assert others[pid := p.(phase := UnlinkJson)][pid := p.(phase := Finished(Rejected))]
             == others[pid := p.(phase := Finished(Rejected))];
      steps := n + 2;
    }

    /** Exclusive creation and filling of the JSON; a failed fill tries to remove its own file. */
    method CreateJsonFile(pid: nat, p: Proc, io: nat -> Choice, n: nat, ghost w: World)
      returns (end: Phase, steps: nat)
      requires p.writes.Some? && p.phase.CreateJson? && json.None? && Alone(w, pid, io, n) == Seen(pid, p)
      modifies this`json
      ensures Alone(w, pid, io, steps) == Seen(pid, p.(phase := end))
      ensures end == CreateDigest || end == Finished(Rejected)
      ensures end == CreateDigest ==> json == Some(Entry(Complete(p.writes.value), pid))
      ensures (forall k :: io(k).ok) ==> end == CreateDigest
    {
      hide Alone;
      if !io(n).ok {
        PhaseStep(w, pid, io, n, p, Finished(Rejected));
        return Finished(Rejected), n + 1;
      }
      ghost var v := Seen(pid, p);
      json := Some(Entry(Partial, pid));
      Advance(w, pid, io, n, v);
      assert others[pid := p][pid := p.(phase := FillJson)] == others[pid := p.(phase := FillJson)];
      end, steps := FillJsonFile(pid, p.(phase := FillJson), io, n + 1, w);
    }

    method FillJsonFile(pid: nat, p: Proc, io: nat -> Choice, n: nat, ghost w: World) returns (end: Phase, steps: nat)
      requires p.writes.Some? && p.phase.FillJson? && Alone(w, pid, io, n) == Seen(pid, p)
      modifies this`json
      ensures Alone(w, pid, io, steps) == Seen(pid, p.(phase := end))
      ensures end == if io(n).ok then CreateDigest else Finished(Rejected)
      ensures io(n).ok ==> json == Some(Entry(Complete(p.writes.value), pid))
    {
      hide Alone;
      ghost var v := Seen(pid, p);
      json := Some(Entry(if io(n).ok || io(n).complete then Complete(p.writes.value) else Partial, pid));
      Advance(w, pid, io, n, v);
      var next := if io(n).ok then CreateDigest else UndoJsonFill;
      assert others[pid := p][pid := p.(phase := next)] == others[pid := p.(phase := next)];
      if io(n).ok { return CreateDigest, n + 1; }
      v := Seen(pid, p.(phase := UndoJsonFill));
      if io(n + 1).ok { json := None; }
      Advance(w, pid, io, n + 1, v);
      assert others[pid := p.(phase := UndoJsonFill)][pid := p.(phase := Finished(Rejected))]
             == others[pid := p.(phase := Finished(Rejected))];
      return Finished(Rejected), n + 2;
    }

    /** Exclusive creation and filling of the sidecar. */
    method CreateDigestFile(pid: nat, p: Proc, io: nat -> Choice, n: nat, ghost w: World)
      returns (q: Proc, steps: nat)
      requires p.writes.Some? && p.phase.CreateDigest? && Alone(w, pid, io, n) == Seen(pid, p)
      modifies this`digest
      ensures Alone(w, pid, io, steps) == Seen(pid, q) && q.writes == p.writes
      ensures q.phase == LoadJsonExists(Verify) || q.phase == InspectJson
      ensures q.phase == LoadJsonExists(Verify) ==>
          old(digest).None? && digest == Some(Entry(Complete(p.writes.value), pid))
      ensures (forall k :: io(k).ok) && old(digest).None? ==> q.phase == LoadJsonExists(Verify)
    {
      hide Alone;
      if digest.Some? || !io(n).ok {
        PhaseStep(w, pid, io, n, p, InspectJson);
        return p.(phase := InspectJson), n + 1;
      }
      ghost var v := Seen(pid, p);
      digest := Some(Entry(Partial, pid));
      Advance(w, pid, io, n, v);
      assert others[pid := p][pid := p.(phase := FillDigest)] == others[pid := p.(phase := FillDigest)];
      q, steps := FillDigestFile(pid, p.(phase := FillDigest), io, n + 1, w);
    }

    method FillDigestFile(pid: nat, p: Proc, io: nat -> Choice, n: nat, ghost w: World) returns (q: Proc, steps: nat)
      requires p.writes.Some? && p.phase.FillDigest? && Alone(w, pid, io, n) == Seen(pid, p)
      modifies this`digest
      ensures Alone(w, pid, io, steps) == Seen(pid, q) && q.writes == p.writes
      ensures q.phase == if io(n).ok then LoadJsonExists(Verify) else InspectJson
      ensures io(n).ok ==> digest == Some(Entry(Complete(p.writes.value), pid))
    {
      hide Alone;
      ghost var v := Seen(pid, p);
      digest := Some(Entry(if io(n).ok || io(n).complete then Complete(p.writes.value) else Partial, pid));
      Advance(w, pid, io, n, v);
      q := Proc(p.writes, if io(n).ok then LoadJsonExists(Verify) else UndoDigestFill,
                p.filled || io(n).ok || io(n).complete);
      assert others[pid := p][pid := q] == others[pid := q];
      steps := n + 1;
      if io(n).ok { return; }
      v := Seen(pid, q);
      if io(n + 1).ok { digest := None; }
      Advance(w, pid, io, n + 1, v);
      assert others[pid := q][pid := q.(phase := InspectJson)] == others[pid := q.(phase := InspectJson)];
      q := q.(phase := InspectJson);
      steps := n + 2;
    }

    /**
     The writer. Alone and without faults it creates the pair when neither file exists,
     confirms an exact repeat when a readable pair holds the same bytes, and otherwise
     refuses and leaves both files as they were.
     */
    method WriteSignal(bytes: string, pid: nat, io: nat -> Choice)
      returns (outcome: Outcome, steps: nat, ghost filled: bool)
      modifies this
      ensures Seen(pid, Proc(Some(bytes), Finished(outcome), filled))
              == Alone(old(Seen(pid, Proc(Some(bytes), CheckJson, false))), pid, io, steps)
      ensures outcome.Created? ==>
                json == Some(Entry(Complete(bytes), pid)) && digest == Some(Entry(Complete(bytes), pid))
      ensures (forall k :: io(k).ok) ==>
                && (outcome.Created? <==> old(json).None? && old(digest).None?)
                && (outcome == Existing(bytes) <==> Readable(old(json), old(digest)) == Some(bytes))
                && (!outcome.Created? ==> json == old(json) && digest == old(digest))
    {
      hide Alone;
      var p := Proc(Some(bytes), CheckJson, false);
      ghost var w := Seen(pid, p);
      var next, n := CheckFiles(pid, p, io, w);
      filled := false;
      match next {
        case LoadJsonExists(_) =>
          var _, end, k := LoadPair(pid, p.(phase := next), io, n, w);
          return end.outcome, k, filled;
        case CreateJson =>
          outcome, steps, filled := CommitPair(pid, p.(phase := CreateJson), io, n, w);
        case _ =>
          return Rejected, n, filled;
      }
    }

    /**
     `load_grouping_signal`. Without faults: not found exactly when neither file exists, the bytes of
     a readable pair, and otherwise an error; bytes are never reported of anything but a readable pair.
     */
    method LoadSignal(pid: nat, io: nat -> Choice) returns (outcome: Outcome, steps: nat)
      ensures Seen(pid, Proc(None, Finished(outcome), false))
              == Alone(Seen(pid, Proc(None, LoadJsonExists(Load), false)), pid, io, steps)
      ensures (forall k :: io(k).ok) ==>
                outcome == if json.None? && digest.None? then NotFound
                           else match Readable(json, digest)
                             case Some(bytes) => Loaded(bytes)
                             case None => Rejected
      ensures outcome.Loaded? ==> Readable(json, digest) == Some(outcome.bytes)
    {
      var p := Proc(None, LoadJsonExists(Load), false);
      ghost var w := Seen(pid, p);
      assert Alone(w, pid, io, 0) == w;
      hide Alone;
      var _, end, k := LoadPair(pid, p, io, 0, w);
      return end.outcome, k;
    }

    method CheckFiles(pid: nat, p: Proc, io: nat -> Choice, ghost w: World) returns (next: Phase, steps: nat)
      requires p.writes.Some? && p.phase.CheckJson? && w == Seen(pid, p)
      ensures Alone(w, pid, io, steps) == Seen(pid, p.(phase := next))
      ensures next == LoadJsonExists(Reconcile) || next == CreateJson || next == Finished(Rejected)
      ensures next.CreateJson? ==> json.None? && digest.None?
      ensures (forall k :: io(k).ok) && json.None? && digest.None? ==> next.CreateJson?
      ensures (forall k :: io(k).ok) && json.Some? && digest.Some? ==> next == LoadJsonExists(Reconcile)
    {
      assert Alone(w, pid, io, 0) == w;
      hide Alone;
      if !io(0).ok {
        PhaseStep(w, pid, io, 0, p, Finished(Rejected));
        return Finished(Rejected), 1;
      }
      PhaseStep(w, pid, io, 0, p, CheckDigest(json.Some?));
      next := if !io(1).ok || json.Some? != digest.Some? then Finished(Rejected)
              else if json.Some? then LoadJsonExists(Reconcile) else CreateJson;
      PhaseStep(w, pid, io, 1, p.(phase := CheckDigest(json.Some?)), next);
      steps := 2;
    }

    /** Both creations and the verification, with rollback in the opposite order. */
    method CommitPair(pid: nat, p: Proc, io: nat -> Choice, n: nat, ghost w: World)
      returns (outcome: Outcome, steps: nat, ghost filled: bool)
      requires p.writes.Some? && p.phase.CreateJson? && json.None? && digest.None?
               && Alone(w, pid, io, n) == Seen(pid, p)
      modifies this
      ensures Alone(w, pid, io, steps) == Seen(pid, Proc(p.writes, Finished(outcome), filled))
      ensures outcome.Created? || outcome.Rejected?
      ensures outcome.Created? ==>
                json == Some(Entry(Complete(p.writes.value), pid))
                  && digest == Some(Entry(Complete(p.writes.value), pid))
      ensures (forall k :: io(k).ok) ==> outcome.Created?
    {
      hide Alone;
      filled := p.filled;
      var end, k := CreateJsonFile(pid, p, io, n, w);
      if end.Finished? { return Rejected, k, filled; }
      var q, k1 := CreateDigestFile(pid, p.(phase := CreateDigest), io, k, w);
      filled := q.filled;
      if q.phase.LoadJsonExists? {
        var _, verified, k2 := LoadPair(pid, q, io, k1, w);
        if verified == Finished(Created) { return Created, k2, filled; }
        k1 := RollBackDigest(pid, q.(phase := InspectDigest), io, k2, w);
        q := q.(phase := InspectJson);
      }
      steps := RollBackJson(pid, q, io, k1, w);
      outcome := Rejected;
    }
  }
}
