/** Canonical state tokens of rosters, and the preview of a full-roster import. */
module RosterImports {
  import opened Foundations
  import opened Rosters
  import opened Tables

  // ------------------------------------------------------------------- state tokens

  /** SHA-256 is injective on the tables seen, so a digest stands for its table. */
  datatype StateToken = AbsentState | RosterState(digestOf: Table)

  function TokenOf(roster: Option<Roster>): StateToken {
    if roster.None? then AbsentState else RosterState(TableOf(roster.value))
  }

  lemma SameTokenSameRoster(a: Option<Roster>, b: Option<Roster>)
    requires (a.Some? ==> RosterValid(a.value)) && (b.Some? ==> RosterValid(b.value)) && TokenOf(a) == TokenOf(b)
    ensures a == b
  {
    if a.Some? { TableDeterminesRoster(a.value, b.value); }
  }

  /** `_load_current_state`: no file is a state of its own; an unreadable, invalid or foreign file is none. */
  ghost function LoadCurrent(classId: string, file: Option<Table>): Option<Option<Roster>> {
    if file.None? then Some(None)
    else
      var loaded := LoadTable(file.value);
      if loaded.Some? && loaded.value.classId == classId then Some(loaded) else None
  }

  lemma LoadedIsValid(classId: string, file: Option<Table>)
    ensures LoadCurrent(classId, file).Some? && LoadCurrent(classId, file).value.Some? ==>
              RosterValid(LoadCurrent(classId, file).value.value)
  {
    if file.Some? && LoadTable(file.value).Some? {
      var columns := Decoded(file.value.columns);
      ReadingIsValid(columns, DictRows(columns, Filter(file.value.rows, NotBlank)));
    }
  }

  /** A token a load computes identifies what was loaded. */
  lemma SameTokenSameState(classId: string, a: Option<Table>, b: Option<Table>)
    requires LoadCurrent(classId, a).Some? && LoadCurrent(classId, b).Some?
    requires TokenOf(LoadCurrent(classId, a).value) == TokenOf(LoadCurrent(classId, b).value)
    ensures LoadCurrent(classId, a) == LoadCurrent(classId, b)
  {
    hide LoadCurrent, RosterValid, TokenOf;
    LoadedIsValid(classId, a);
    LoadedIsValid(classId, b);
    SameTokenSameRoster(LoadCurrent(classId, a).value, LoadCurrent(classId, b).value);
  }

  // ------------------------------------------------------------------------ preview

  type Lookup = map<string, StudentRecord>

  ghost predicate Keyed(m: Lookup) { forall id :: id in m ==> m[id].studentId == id }

  function StudentLookup(students: seq<StudentRecord>): Lookup {
    if students == [] then map[]
    else StudentLookup(students[..|students| - 1])[students[|students| - 1].studentId := students[|students| - 1]]
  }

  lemma {:induction false} LookupIsKeyed(students: seq<StudentRecord>)
    ensures Keyed(StudentLookup(students))
    ensures forall id :: id in StudentLookup(students) <==> id in Map(students, IdOf)
  {
    if students != [] {
      var n := |students| - 1;
      LookupIsKeyed(students[..n]);
      assert Map(students, IdOf) == Map(students[..n], IdOf) + [students[n].studentId];
    } else {
      assert Map(students, IdOf) == [];
    }
  }

  function IdOf(s: StudentRecord): string { s.studentId }

  datatype RecordChange = RecordChange(studentId: string, current: StudentRecord, proposed: StudentRecord)

  function ChangedId(c: RecordChange): string { c.studentId }

  datatype Preview = Preview(
    additions: seq<StudentRecord>,
    changes: seq<RecordChange>,
    removals: seq<StudentRecord>,
    kept: seq<string>)

  predicate IsAdded(current: Lookup, candidate: Lookup, id: string) { id !in current }

  predicate IsRemoved(current: Lookup, candidate: Lookup, id: string) { id in current && id !in candidate }

  predicate IsUnchanged(current: Lookup, candidate: Lookup, id: string) {
    id in current && id in candidate && current[id] == candidate[id]
  }

  predicate IsChanged(current: Lookup, candidate: Lookup, id: string) {
    id in current && id in candidate && current[id] != candidate[id]
  }

  /** Each list holds exactly the ids of its kind, in order, with the records the lookups have. */
  ghost predicate Sorts(p: Preview, current: Lookup, candidate: Lookup, ids: seq<string>) {
    && Map(p.additions, IdOf) == Filter(ids, (id: string) => IsAdded(current, candidate, id))
    && Map(p.changes, ChangedId) == Filter(ids, (id: string) => IsChanged(current, candidate, id))
    && Map(p.removals, IdOf) == Filter(ids, (id: string) => IsRemoved(current, candidate, id))
    && p.kept == Filter(ids, (id: string) => IsUnchanged(current, candidate, id))
    && (forall k :: 0 <= k < |p.additions| ==>
        p.additions[k].studentId in candidate && candidate[p.additions[k].studentId] == p.additions[k])
    && (forall k :: 0 <= k < |p.removals| ==>
        p.removals[k].studentId in current && current[p.removals[k].studentId] == p.removals[k])
    && (forall k :: 0 <= k < |p.changes| ==>
          var c := p.changes[k];
          c.studentId in current && c.studentId in candidate && c.current == current[c.studentId]
            && c.proposed == candidate[c.studentId])
  }

  lemma FilterGrows(ids: seq<string>, id: string, keep: string -> bool)
    ensures Filter(ids + [id], keep) == Filter(ids, keep) + if keep(id) then [id] else []
  {
    FilterConcat(ids, [id], keep);
    assert Filter([id], keep) == if keep(id) then [id] else [];
  }

  lemma FiltersGrow(current: Lookup, candidate: Lookup, ids: seq<string>, id: string)
    ensures Filter(ids + [id], (x: string) => IsAdded(current, candidate, x))
         == Filter(ids, (x: string) => IsAdded(current, candidate, x)) + if IsAdded(current, candidate, id) then [id]
           else []
    ensures Filter(ids + [id], (x: string) => IsChanged(current, candidate, x))
         == Filter(ids, (x: string) => IsChanged(current, candidate, x)) + if IsChanged(current, candidate, id)
           then [id] else []
    ensures Filter(ids + [id], (x: string) => IsRemoved(current, candidate, x))
         == Filter(ids, (x: string) => IsRemoved(current, candidate, x)) + if IsRemoved(current, candidate, id)
           then [id] else []
    ensures Filter(ids + [id], (x: string) => IsUnchanged(current, candidate, x))
         == Filter(ids, (x: string) => IsUnchanged(current, candidate, x)) + if IsUnchanged(current, candidate, id)
           then [id] else []
  {
    hide Filter;
    FilterGrows(ids, id, (x: string) => IsAdded(current, candidate, x));
    FilterGrows(ids, id, (x: string) => IsChanged(current, candidate, x));
    FilterGrows(ids, id, (x: string) => IsRemoved(current, candidate, x));
    FilterGrows(ids, id, (x: string) => IsUnchanged(current, candidate, x));
  }

  lemma SortsOneMore(p: Preview, current: Lookup, candidate: Lookup, ids: seq<string>, id: string)
    requires Keyed(current) && Keyed(candidate) && Sorts(p, current, candidate, ids)
             && (id in current || id in candidate)
    ensures id !in current ==> Sorts(p.(additions := p.additions + [candidate[id]]), current, candidate, ids + [id])
    ensures IsRemoved(current, candidate, id) ==>
              Sorts(p.(removals := p.removals + [current[id]]), current, candidate, ids + [id])
    ensures IsUnchanged(current, candidate, id) ==> Sorts(p.(kept := p.kept + [id]), current, candidate, ids + [id])
    ensures IsChanged(current, candidate, id) ==>
              Sorts(p.(changes := p.changes + [RecordChange(id, current[id], candidate[id])]), current, candidate,
                    ids + [id])
  {
    hide Filter;
    FiltersGrow(current, candidate, ids, id);
    if id !in current {
      assert Map(p.additions + [candidate[id]], IdOf) == Map(p.additions, IdOf) + [id];
    } else if id !in candidate {
      assert Map(p.removals + [current[id]], IdOf) == Map(p.removals, IdOf) + [id];
    } else if current[id] != candidate[id] {
      assert Map(p.changes + [RecordChange(id, current[id], candidate[id])], ChangedId)
             == Map(p.changes, ChangedId) + [id];
    }
  }

  /** All student ids of either roster, sorted. */
  function UnionIds(current: seq<StudentRecord>, candidate: seq<StudentRecord>): seq<string> {
    SortBy(Map(current, IdOf) + Filter(Map(candidate, IdOf), (id: string) => id !in Map(current, IdOf)), StrLe)
  }

  lemma UnionIdsAre(current: seq<StudentRecord>, candidate: seq<StudentRecord>)
    requires Distinct(Map(current, IdOf)) && Distinct(Map(candidate, IdOf))
    ensures Distinct(UnionIds(current, candidate)) && Sorted(UnionIds(current, candidate), StrLe)
    ensures forall id :: id in UnionIds(current, candidate) <==> id in Map(current, IdOf) || id in Map(candidate, IdOf)
  {
    var a, b := Map(current, IdOf), Filter(Map(candidate, IdOf), (id: string) => id !in Map(current, IdOf));
    FilterMembers(Map(candidate, IdOf), (id: string) => id !in Map(current, IdOf));
    DistinctConcat(a, b);
    StrLeIsOrder();
    SortByContents(a + b, StrLe);
    SortBySorted(a + b, StrLe);
    DistinctByContents(a + b, UnionIds(current, candidate));
  }

  /** The ids to sort and the lookups to sort them by. */
  ghost predicate Compared(current: Lookup, candidate: Lookup, ids: seq<string>) {
    Keyed(current) && Keyed(candidate) && Distinct(ids) && forall id :: id in ids <==> id in current || id in candidate
  }

  lemma RostersCompare(current: Option<Roster>, candidate: Roster)
    requires RosterValid(candidate) && (current.Some? ==> RosterValid(current.value))
    ensures Compared(StudentLookup(StudentsOf(current)), StudentLookup(candidate.students),
                     UnionIds(StudentsOf(current), candidate.students))
  {
    IdsDistinct(current);
    IdsDistinct(Some(candidate));
    hide RosterValid, UnionIds, StudentLookup, Map;
    LookupIsKeyed(StudentsOf(current));
    LookupIsKeyed(candidate.students);
    UnionIdsAre(StudentsOf(current), candidate.students);
  }

  /** One pass over the sorted ids, each into one of four lists. */
  method CompareRosters(current: Option<Roster>, candidate: Roster) returns (p: Preview, ids: seq<string>)
    requires RosterValid(candidate) && (current.Some? ==> RosterValid(current.value))
    ensures ids == UnionIds(StudentsOf(current), candidate.students)
    ensures Sorts(p, StudentLookup(StudentsOf(current)), StudentLookup(candidate.students), ids)
    ensures Apply(StudentLookup(StudentsOf(current)), p) == StudentLookup(candidate.students)
    ensures |p.additions| + |p.changes| + |p.removals| + |p.kept| == |ids|
    ensures Distinct(Map(p.additions, IdOf) + Map(p.changes, ChangedId) + Map(p.removals, IdOf) + p.kept)
  {
    RostersCompare(current, candidate);
    var currentById := StudentLookup(StudentsOf(current));
    var candidateById := StudentLookup(candidate.students);
    ids := UnionIds(StudentsOf(current), candidate.students);
    p := SortIds(currentById, candidateById, ids);
    hide *;
    PreviewPartitions(p, currentById, candidateById, ids);
    PreviewApplies(p, currentById, candidateById, ids);
  }

  method LoadCurrentState(classId: string, file: Option<Table>) returns (state: Option<Option<Roster>>)
    ensures state == LoadCurrent(classId, file)
  {
    hide LoadTable, RosterValid;
    if file.None? { return Some(None); }
    var loaded := LoadRoster(file.value);
    if loaded.Failure? || loaded.value.classId != classId { return None; }
    return Some(Some(loaded.value));
  }

  datatype PlanError = InvalidCandidate | ClassMismatch | UnreadableRoster

  datatype Plan = Plan(candidate: Roster, current: Option<Roster>, currentToken: StateToken, candidateToken: StateToken,
                       preview: Preview)

  /** The candidate a plan is about, once validated. */
  ghost predicate Plannable(classId: string, candidate: Roster, file: Option<Table>) {
    && Validated(candidate).Some? && Validated(candidate).value.classId == classId
    && LoadCurrent(classId, file).Some?
  }

  /** A plan describes the file's roster, the validated candidate, and how to get from one to the other. */
  ghost predicate Describes(plan: Plan, classId: string, candidate: Roster, file: Option<Table>) {
    && Validated(candidate) == Some(plan.candidate)
    && LoadCurrent(classId, file) == Some(plan.current)
    && plan.currentToken == TokenOf(plan.current) && plan.candidateToken == TokenOf(Some(plan.candidate))
    && Sorts(plan.preview, StudentLookup(StudentsOf(plan.current)), StudentLookup(plan.candidate.students),
             UnionIds(StudentsOf(plan.current), plan.candidate.students))
    && Apply(StudentLookup(StudentsOf(plan.current)), plan.preview) == StudentLookup(plan.candidate.students)
  }

  /** `plan_roster_import`. */
  method PlanRosterImport(classId: string, candidate: Roster, file: Option<Table>)
    returns (result: Result<Plan, PlanError>)
    ensures result.Success? <==> Plannable(classId, candidate, file)
    ensures result.Success? ==> Describes(result.value, classId, candidate, file)
    ensures result.Success? ==> (result.value.currentToken == AbsentState <==> file.None?)
  {
    hide Validated, LoadCurrent, RosterValid, Sorts, Apply, UnionIds, StudentLookup, Map, TokenOf;
    var validated := ValidateRosterInstance(candidate);
    if validated.Failure? { return Failure(InvalidCandidate); }
    var roster := validated.value;
    if roster.classId != classId { return Failure(ClassMismatch); }
    var state := LoadCurrentState(classId, file);
    if state.None? { return Failure(UnreadableRoster); }
    LoadedIsValid(classId, file);
    OnlyAbsenceIsAbsent(classId, file);
    var preview, _ := CompareRosters(state.value, roster);
    return Success(Plan(roster, state.value, TokenOf(state.value), TokenOf(Some(roster)), preview));
  }

  lemma OnlyAbsenceIsAbsent(classId: string, file: Option<Table>)
    ensures var state := LoadCurrent(classId, file);
            state.Some? ==> (TokenOf(state.value) == AbsentState <==> file.None?)
  {
    hide LoadTable, TableOf;
  }

  method SortIds(currentById: Lookup, candidateById: Lookup, ids: seq<string>) returns (p: Preview)
    requires Compared(currentById, candidateById, ids)
    ensures Sorts(p, currentById, candidateById, ids)
  {
    p := Preview([], [], [], []);
    NothingSorted(currentById, candidateById);
    assert ids[..0] == [];
    for i := 0 to |ids|
      invariant Sorts(p, currentById, candidateById, ids[..i])
    {
      hide Sorts;
      var id := ids[i];
      assert id in ids;
      SortsOneMore(p, currentById, candidateById, ids[..i], id);
      assert ids[..i + 1] == ids[..i] + [id];
      if id !in currentById {
        p := p.(additions := p.additions + [candidateById[id]]);
      } else if id !in candidateById {
        p := p.(removals := p.removals + [currentById[id]]);
      } else if currentById[id] == candidateById[id] {
        p := p.(kept := p.kept + [id]);
      } else {
        p := p.(changes := p.changes + [RecordChange(id, currentById[id], candidateById[id])]);
      }
    }
    assert ids[..|ids|] == ids;
  }

  lemma NothingSorted(current: Lookup, candidate: Lookup)
    ensures Sorts(Preview([], [], [], []), current, candidate, [])
  {
  }

  function StudentsOf(roster: Option<Roster>): seq<StudentRecord> { if roster.None? then [] else roster.value.students }

  lemma IdsDistinct(roster: Option<Roster>)
    requires roster.Some? ==> RosterValid(roster.value)
    ensures Distinct(Map(StudentsOf(roster), IdOf))
  {
  }

  // ------------------------------------------------------------ what a preview means

  lemma {:induction false} FourWays(ids: seq<string>, current: Lookup, candidate: Lookup)
    ensures |Filter(ids, (id: string) => IsAdded(current, candidate, id))|
          + |Filter(ids, (id: string) => IsChanged(current, candidate, id))|
          + |Filter(ids, (id: string) => IsRemoved(current, candidate, id))|
          + |Filter(ids, (id: string) => IsUnchanged(current, candidate, id))| == |ids|
  {
    if ids != [] { FourWays(ids[1..], current, candidate); }
  }

  /** The four lists partition the union of student ids: nothing twice, nothing left out. */
  lemma PreviewPartitions(p: Preview, current: Lookup, candidate: Lookup, ids: seq<string>)
    requires Compared(current, candidate, ids) && Sorts(p, current, candidate, ids)
    ensures |p.additions| + |p.changes| + |p.removals| + |p.kept| == |ids|
    ensures Distinct(Map(p.additions, IdOf) + Map(p.changes, ChangedId) + Map(p.removals, IdOf) + p.kept)
    ensures forall id ::
              id in Map(p.additions, IdOf) + Map(p.changes, ChangedId) + Map(p.removals, IdOf) + p.kept
              <==> id in current || id in candidate
  {
    hide Filter, Keyed;
    FourWays(ids, current, candidate);
    FilterMembers(ids, (id: string) => IsAdded(current, candidate, id));
    FilterMembers(ids, (id: string) => IsChanged(current, candidate, id));
    FilterMembers(ids, (id: string) => IsRemoved(current, candidate, id));
    FilterMembers(ids, (id: string) => IsUnchanged(current, candidate, id));
    var a, b, c, d := Map(p.additions, IdOf), Map(p.changes, ChangedId), Map(p.removals, IdOf), p.kept;
    assert |a| + |b| + |c| + |d| == |ids|;
    hide Map, Sorts;
    DistinctConcat(a, b);
    DistinctConcat(a + b, c);
    DistinctConcat(a + b + c, d);
  }

  function Proposed(c: RecordChange): StudentRecord { c.proposed }

  /** Take the removals out, put the additions and the proposed records in. */
  function Apply(current: Lookup, p: Preview): Lookup {
    (map id | id in current && id !in Map(p.removals, IdOf) :: current[id])
    + StudentLookup(p.additions) + StudentLookup(Map(p.changes, Proposed))
  }

  lemma {:induction false} LookupFinds(students: seq<StudentRecord>, m: Lookup)
    requires forall k :: 0 <= k < |students| ==> students[k].studentId in m && m[students[k].studentId] == students[k]
    ensures forall id :: id in StudentLookup(students) ==> id in m && StudentLookup(students)[id] == m[id]
  {
    if students != [] { LookupFinds(students[..|students| - 1], m); }
  }

  lemma Recombines(current: Lookup, candidate: Lookup, removed: seq<string>, added: Lookup, changed: Lookup)
    requires forall id :: id in removed <==> id in current && id !in candidate
    requires forall id :: id in added <==> id in candidate && id !in current
    requires forall id :: id in changed <==> id in current && id in candidate && current[id] != candidate[id]
    requires forall id :: id in added ==> added[id] == candidate[id]
    requires forall id :: id in changed ==> changed[id] == candidate[id]
    ensures (map id | id in current && id !in removed :: current[id]) + added + changed == candidate
  {
  }

  lemma ListedIds(p: Preview, current: Lookup, candidate: Lookup, ids: seq<string>)
    requires Compared(current, candidate, ids) && Sorts(p, current, candidate, ids)
    ensures forall id :: id in Map(p.additions, IdOf) <==> id in candidate && id !in current
    ensures forall id :: id in Map(p.changes, ChangedId) <==>
        id in current && id in candidate && current[id] != candidate[id]
    ensures forall id :: id in Map(p.removals, IdOf) <==> id in current && id !in candidate
  {
    hide Filter, Keyed, Map;
    FilterMembers(ids, (id: string) => IsAdded(current, candidate, id));
    FilterMembers(ids, (id: string) => IsChanged(current, candidate, id));
    FilterMembers(ids, (id: string) => IsRemoved(current, candidate, id));
  }

  /** Applying the preview to the current roster yields the candidate, student by student. */
  lemma PreviewApplies(p: Preview, current: Lookup, candidate: Lookup, ids: seq<string>)
    requires Compared(current, candidate, ids) && Sorts(p, current, candidate, ids)
    ensures Apply(current, p) == candidate
  {
    var proposed := Map(p.changes, Proposed);
    ListedIds(p, current, candidate, ids);
    ProposedKeys(p, current, candidate, ids);
    hide Filter, StudentLookup, Map, Compared;
    LookupFinds(p.additions, candidate);
    LookupFinds(proposed, candidate);
    LookupIsKeyed(p.additions);
    LookupIsKeyed(proposed);
    hide Sorts;
    Recombines(current, candidate, Map(p.removals, IdOf), StudentLookup(p.additions), StudentLookup(proposed));
  }

  lemma ProposedKeys(p: Preview, current: Lookup, candidate: Lookup, ids: seq<string>)
    requires Compared(current, candidate, ids) && Sorts(p, current, candidate, ids)
    ensures Map(Map(p.changes, Proposed), IdOf) == Map(p.changes, ChangedId)
    ensures var s := Map(p.changes, Proposed);
            forall k :: 0 <= k < |s| ==> s[k].studentId in candidate && candidate[s[k].studentId] == s[k]
  {
  }
}
