/** Comparing a signal set with class rosters: findings, counts, and the report's own consistency rules. */
module SignalDiagnostics {
  import opened Foundations
  import opened Tables
  import opened GroupingSignals

  // ------------------------------------------------------------------------ report

  datatype Severity = ErrorSeverity | WarningSeverity

  datatype Code = ClassMismatch | WrongClassStudent | UnknownStudent | MissingStudentSignal

  datatype Diagnostic = Diagnostic(
    code: Code,
    severity: Severity,
    studentId: Option<string>,
    dimensionId: Option<string>,
    otherClassIds: set<string>)

  /** What the diagnostic's constructor accepts. */
  predicate DiagnosticAccepted(f: Diagnostic) {
    && (f.studentId.Some? ==> Identifier(f.studentId.value))
    && (f.dimensionId.Some? ==> Identifier(f.dimensionId.value))
    && (forall c :: c in f.otherClassIds ==> Identifier(c))
    && match f.code
       case ClassMismatch =>
         f.severity.ErrorSeverity? && f.studentId.None? && f.dimensionId.None?
         && f.otherClassIds == {}
       case WrongClassStudent =>
         f.severity.ErrorSeverity? && f.studentId.Some? && f.dimensionId.Some?
         && f.otherClassIds != {}
       case UnknownStudent =>
         f.severity.ErrorSeverity? && f.studentId.Some? && f.dimensionId.Some?
         && f.otherClassIds == {}
       case MissingStudentSignal =>
         f.severity.WarningSeverity? && f.studentId.Some? && f.dimensionId.Some?
         && f.otherClassIds == {}
  }

  datatype BandCount = BandCount(band: int, count: int)

  datatype DimensionCounts = DimensionCounts(
    dimensionId: string,
    bandCount: int,
    rosterStudents: int,
    signalEntries: int,
    matched: int,
    missing: int,
    unknown: int,
    wrongClass: int,
    bandCounts: seq<BandCount>)

  function Total(counts: seq<BandCount>): int {
    if counts == [] then 0 else Total(counts[..|counts| - 1]) + counts[|counts| - 1].count
  }

  /** What the constructor of a dimension's counts accepts. */
  predicate CountsAccepted(c: DimensionCounts) {
    && Identifier(c.dimensionId) && c.bandCount >= 2
    && c.rosterStudents >= 0 && c.signalEntries >= 0 && c.matched >= 0 && c.missing >= 0 && c.unknown >= 0
      && c.wrongClass >= 0
    && c.matched + c.missing == c.rosterStudents
    && c.matched + c.unknown + c.wrongClass == c.signalEntries
    && |c.bandCounts| == c.bandCount
    && (forall k :: 0 <= k < |c.bandCounts| ==> c.bandCounts[k].band == k + 1 && c.bandCounts[k].count >= 0)
    && Total(c.bandCounts) == c.matched
  }

  datatype Report = Report(
    signalSetId: string,
    signalClassId: string,
    targetClassId: string,
    rosterStudents: int,
    findings: seq<Diagnostic>,
    dimensions: seq<DimensionCounts>)

  /** What the report's constructor accepts, its parts included. */
  predicate ReportAccepted(r: Report) {
    && Identifier(r.signalSetId) && Identifier(r.signalClassId) && Identifier(r.targetClassId) && r.rosterStudents >= 0
    && (forall f :: f in r.findings ==> DiagnosticAccepted(f))
    && (forall k :: 0 <= k < |r.dimensions| ==>
        CountsAccepted(r.dimensions[k]) && r.dimensions[k].rosterStudents == r.rosterStudents)
    && (forall k :: 0 < k < |r.dimensions| ==>
          StrLe(r.dimensions[k - 1].dimensionId, r.dimensions[k].dimensionId)
          && r.dimensions[k - 1].dimensionId != r.dimensions[k].dimensionId)
  }

  // ----------------------------------------------------------------------- rosters

  /** A class and the ids of its students; a validated roster has no id twice. */
  datatype ClassRoster = ClassRoster(classId: string, studentIds: seq<string>)

  /** What validation establishes of a roster's ids. */
  ghost predicate Identified(studentIds: seq<string>) { forall id :: id in studentIds ==> Identifier(id) }

  ghost predicate RostersIdentified(rosters: seq<ClassRoster>) {
    forall r :: r in rosters ==> Identifier(r.classId) && Identified(r.studentIds)
  }

  function OtherClasses(rosters: seq<ClassRoster>, target: string, student: string): set<string> {
    set r | r in rosters && r.classId != target && student in r.studentIds :: r.classId
  }

  /** For each unmatched student, the other classes whose rosters have them. */
  method FindOtherClassMemberships(rosters: seq<ClassRoster>, target: string, students: set<string>)
    returns (matches: map<string, set<string>>)
    ensures matches.Keys == students
    ensures forall id :: id in students ==> matches[id] == OtherClasses(rosters, target, id)
  {
    matches := map id | id in students :: {};
    for i := 0 to |rosters|
      invariant matches.Keys == students
      invariant forall id :: id in students ==> matches[id] == OtherClasses(rosters[..i], target, id)
    {
      var roster := rosters[i];
      assert rosters[..i + 1] == rosters[..i] + [roster];
      if roster.classId != target {
        matches := map id | id in students ::
          if id in roster.studentIds then matches[id] + {roster.classId} else matches[id];
      }
    }
    assert rosters[..|rosters|] == rosters;
  }

  // ------------------------------------------------------------- one dimension's lists

  function Entries(s: SignalSet, d: Dimension): seq<StudentBand> {
    Filter(s.studentBands, (b: StudentBand) => b.dimensionId == d.dimensionId)
  }

  function Matched(entries: seq<StudentBand>, roster: seq<string>): seq<StudentBand> {
    Filter(entries, (b: StudentBand) => b.studentId in roster)
  }

  function Unmatched(entries: seq<StudentBand>, roster: seq<string>): seq<StudentBand> {
    Filter(entries, (b: StudentBand) => b.studentId !in roster)
  }

  function InOthers(entries: seq<StudentBand>, others: map<string, set<string>>): seq<StudentBand> {
    Filter(entries, (b: StudentBand) => b.studentId in others && others[b.studentId] != {})
  }

  function InNone(entries: seq<StudentBand>, others: map<string, set<string>>): seq<StudentBand> {
    Filter(entries, (b: StudentBand) => !(b.studentId in others && others[b.studentId] != {}))
  }

  function StudentOf(b: StudentBand): string { b.studentId }

  function Missing(matched: seq<StudentBand>, roster: seq<string>): seq<string> {
    SortBy(Filter(roster, (id: string) => id !in Map(matched, StudentOf)), StrLe)
  }

  predicate ByStudentId(a: StudentBand, b: StudentBand) { StrLe(a.studentId, b.studentId) }

  // ------------------------------------------------------------------ counting lemmas

  lemma {:induction false} FilterPartition<T>(s: seq<T>, keep: T -> bool, drop: T -> bool)
    requires forall x :: x in s ==> keep(x) == !drop(x)
    ensures |Filter(s, keep)| + |Filter(s, drop)| == |s|
  {
    if s != [] {
      assert s[0] in s && forall x :: x in s[1..] ==> x in s;
      FilterPartition(s[1..], keep, drop);
    }
  }

  function CountBand(matched: seq<StudentBand>, band: int): nat {
    |Filter(matched, (b: StudentBand) => b.band == band)|
  }

  function BandCounts(matched: seq<StudentBand>, n: nat): seq<BandCount> {
    seq(n, i requires 0 <= i < n => BandCount(i + 1, CountBand(matched, i + 1)))
  }

  /** Every entry is counted under its own band, and under no other. */
  lemma {:induction false} BandsTotal(matched: seq<StudentBand>, n: nat)
    ensures Total(BandCounts(matched, n)) == |Filter(matched, (b: StudentBand) => 1 <= b.band <= n)|
  {
    if n == 0 {
      FilterNone(matched, (b: StudentBand) => 1 <= b.band <= 0);
    } else {
      BandsTotal(matched, n - 1);
      assert BandCounts(matched, n)[..n - 1] == BandCounts(matched, n - 1);
      SplitLastBand(matched, n);
    }
  }

  lemma {:induction false} SplitLastBand(matched: seq<StudentBand>, n: nat)
    requires n > 0
    ensures |Filter(matched, (b: StudentBand) => 1 <= b.band <= n)|
         == |Filter(matched, (b: StudentBand) => 1 <= b.band <= n - 1)| + CountBand(matched, n)
  {
    if matched != [] { SplitLastBand(matched[1..], n); }
  }

  lemma AllBandsTotal(matched: seq<StudentBand>, n: nat)
    requires forall b :: b in matched ==> 1 <= b.band <= n
    ensures Total(BandCounts(matched, n)) == |matched|
  {
    BandsTotal(matched, n);
    FilterPartition(matched, (b: StudentBand) => 1 <= b.band <= n, (b: StudentBand) => false);
    FilterNone(matched, (b: StudentBand) => false);
  }

  /** Matched entries and missing students together are the roster. */
  lemma RosterPartition(matched: seq<StudentBand>, roster: seq<string>)
    requires Distinct(roster) && (forall b :: b in matched ==> b.studentId in roster)
    requires forall i, j :: 0 <= i < j < |matched| ==> matched[i].studentId != matched[j].studentId
    ensures |matched| + |Missing(matched, roster)| == |roster|
    ensures forall id :: id in Missing(matched, roster) <==> id in roster && forall b :: b in matched ==>
              b.studentId != id
  {
    var ids := Map(matched, StudentOf);
    var present := (id: string) => id in ids;
    var absent := (id: string) => id !in ids;
    FilterPartition(roster, present, absent);
    FilterMembers(roster, present);
    FilterMembers(roster, absent);
    SortByContents(Filter(roster, absent), StrLe);
    assert Distinct(ids);
    forall id ensures id in ids <==> exists b :: b in matched && b.studentId == id {
      if id in ids {
        var k :| 0 <= k < |ids| && ids[k] == id;
        assert matched[k] in matched;
      }
      if b: StudentBand :| b in matched && b.studentId == id {
        var k :| 0 <= k < |matched| && matched[k] == b;
        assert ids[k] == id;
      }
    }
    SameMembersSameContents(Filter(roster, present), ids);
    SameContents(Filter(roster, present), ids);
  }

  // ---------------------------------------------------------------------- one dimension

  function WrongClass(d: Dimension, others: map<string, set<string>>): StudentBand -> Diagnostic {
    (b: StudentBand) => Diagnostic(WrongClassStudent, ErrorSeverity, Some(b.studentId), Some(d.dimensionId),
                                   if b.studentId in others then others[b.studentId] else {})
  }

  function Unknown(d: Dimension): StudentBand -> Diagnostic {
    (b: StudentBand) => Diagnostic(UnknownStudent, ErrorSeverity, Some(b.studentId), Some(d.dimensionId), {})
  }

  function MissingSignal(d: Dimension): string -> Diagnostic {
    (id: string) => Diagnostic(MissingStudentSignal, WarningSeverity, Some(id), Some(d.dimensionId), {})
  }

  /** One finding appended per item. */
  method AppendFindings<T>(findings: seq<Diagnostic>, items: seq<T>, finding: T -> Diagnostic)
    returns (more: seq<Diagnostic>)
    ensures more == findings + Map(items, finding)
  {
    more := findings;
    for i := 0 to |items|
      invariant more == findings + Map(items[..i], finding)
    {
      assert Map(items[..i + 1], finding) == Map(items[..i], finding) + [finding(items[i])];
      more := more + [finding(items[i])];
    }
    assert items[..|items|] == items;
  }

  /** A finding about dimension `d`, and the fact it reports. */
  ghost predicate Reported(s: SignalSet, d: Dimension, target: string, roster: seq<string>, rosters: seq<ClassRoster>,
                           f: Diagnostic)
  {
    && f.dimensionId == Some(d.dimensionId) && f.studentId.Some?
    && match f.code
       case ClassMismatch => false
       case WrongClassStudent =>
         && SignalNames(s, d, f.studentId.value) && f.studentId.value !in roster && f.severity.ErrorSeverity?
         && f.otherClassIds == OtherClasses(rosters, target, f.studentId.value) && f.otherClassIds != {}
       case UnknownStudent =>
         && SignalNames(s, d, f.studentId.value) && f.studentId.value !in roster && f.severity.ErrorSeverity?
         && OtherClasses(rosters, target, f.studentId.value) == {} && f.otherClassIds == {}
       case MissingStudentSignal =>
         && f.studentId.value in roster && !SignalNames(s, d, f.studentId.value)
         && f.severity.WarningSeverity? && f.otherClassIds == {}
  }

  ghost predicate SignalNames(s: SignalSet, d: Dimension, student: string) {
    exists b :: b in s.studentBands && b.dimensionId == d.dimensionId && b.studentId == student
  }

  ghost predicate Knows(s: SignalSet, target: string, roster: seq<string>, rosters: seq<ClassRoster>,
                        others: map<string, set<string>>) {
    forall b :: b in s.studentBands && b.studentId !in roster ==>
      b.studentId in others && others[b.studentId] == OtherClasses(rosters, target, b.studentId)
  }

  method DimensionFindings(s: SignalSet, d: Dimension, target: string, roster: seq<string>,
                           ghost rosters: seq<ClassRoster>, others: map<string, set<string>>)
    returns (findings: seq<Diagnostic>)
    requires SetValid(s) && d in s.dimensions && Distinct(roster) && Knows(s, target, roster, rosters, others)
    ensures forall f :: f in findings <==> Reported(s, d, target, roster, rosters, f)
  {
    hide SetValid, Knows, Reported, SortBy, Map, Matched, Unmatched, InOthers, InNone, Missing, Entries;
    var entries := Entries(s, d);
    var unmatched := Unmatched(entries, roster);
    var wrong := SortBy(InOthers(unmatched, others), ByStudentId);
    var unknown := SortBy(InNone(unmatched, others), ByStudentId);
    var missing := Missing(Matched(entries, roster), roster);
    var first := AppendFindings([], wrong, WrongClass(d, others));
    var second := AppendFindings(first, unknown, Unknown(d));
    findings := AppendFindings(second, missing, MissingSignal(d));
    assert [] + Map(wrong, WrongClass(d, others)) == Map(wrong, WrongClass(d, others));
    FindingsAreExact(s, d, target, roster, rosters, others, findings);
  }

  /** The students the signal set bands in dimension `d`. */
  ghost function Named(s: SignalSet, d: Dimension): set<string> {
    set b | b in s.studentBands && b.dimensionId == d.dimensionId :: b.studentId
  }

  ghost function InBand(s: SignalSet, d: Dimension, roster: seq<string>, band: int): set<string> {
    set b | b in s.studentBands && b.dimensionId == d.dimensionId && b.studentId in roster && b.band == band ::
      b.studentId
  }

  /** Every count is the number of students of its kind. */
  ghost predicate CountsStudents(s: SignalSet, d: Dimension, target: string, roster: seq<string>,
                                 rosters: seq<ClassRoster>, c: DimensionCounts)
  {
    var named := Named(s, d);
    && c.dimensionId == d.dimensionId && c.bandCount == d.bandCount && |c.bandCounts| == d.bandCount
    && c.rosterStudents == |set id | id in roster| && c.signalEntries == |named|
    && c.matched == |set id | id in named && id in roster|
    && c.missing == |set id | id in roster && id !in named|
    && c.wrongClass == |set id | id in named && id !in roster && OtherClasses(rosters, target, id) != {}|
    && c.unknown == |set id | id in named && id !in roster && OtherClasses(rosters, target, id) == {}|
    && forall k :: 0 <= k < |c.bandCounts| ==> c.bandCounts[k] == BandCount(k + 1, |InBand(s, d, roster, k + 1)|)
  }

  /** Entries of different students are as many as their students. */
  lemma {:induction false} AsManyStudents(entries: seq<StudentBand>)
    requires forall i, j :: 0 <= i < j < |entries| ==> entries[i].studentId != entries[j].studentId
    ensures |entries| == |set b | b in entries :: b.studentId|
  {
    if entries != [] {
      var n := |entries| - 1;
      AsManyStudents(entries[..n]);
      var before := set b | b in entries[..n] :: b.studentId;
      assert entries == entries[..n] + [entries[n]];
      assert entries[n].studentId !in before;
      assert (set b | b in entries :: b.studentId) == before + {entries[n].studentId};
    }
  }

  lemma {:induction false} AsManyIds(ids: seq<string>)
    requires Distinct(ids)
    ensures |ids| == |set id | id in ids|
  {
    if ids != [] {
      var n := |ids| - 1;
      AsManyIds(ids[..n]);
      assert ids == ids[..n] + [ids[n]];
      assert ids[n] !in (set id | id in ids[..n]);
      assert (set id | id in ids) == (set id | id in ids[..n]) + {ids[n]};
    }
  }

  /** Entries of one dimension are as many as the students they name. */
  lemma KeptStudents(s: SignalSet, d: Dimension, kept: seq<StudentBand>, students: set<string>)
    requires SetValid(s) && d in s.dimensions && Distinct(kept)
    requires forall b :: b in kept ==> b in s.studentBands && b.dimensionId == d.dimensionId
    requires forall id :: id in students <==> exists b :: b in kept && b.studentId == id
    ensures |kept| == |students|
  {
    hide SetValid;
    forall i, j | 0 <= i < j < |kept| ensures kept[i].studentId != kept[j].studentId {
      assert kept[i] in kept && kept[j] in kept && kept[i] != kept[j];
      if kept[i].studentId == kept[j].studentId { OneBandPerStudent(s, kept[i], kept[j]); }
    }
    AsManyStudents(kept);
    assert students == set b | b in kept :: b.studentId;
  }

  lemma EntriesOf(s: SignalSet, d: Dimension, roster: seq<string>)
    requires SetValid(s)
    ensures Distinct(Entries(s, d)) && Distinct(Matched(Entries(s, d), roster))
            && Distinct(Unmatched(Entries(s, d), roster))
    ensures forall b :: b in Entries(s, d) <==> b in s.studentBands && b.dimensionId == d.dimensionId
    ensures forall b :: b in Matched(Entries(s, d), roster) <==>
              b in s.studentBands && b.dimensionId == d.dimensionId && b.studentId in roster
  {
    hide DimensionsValid, WithinDeclared, Represented, Filter;
    assert Distinct(s.studentBands);
    FilterMembers(s.studentBands, (b: StudentBand) => b.dimensionId == d.dimensionId);
    FilterMembers(Entries(s, d), (b: StudentBand) => b.studentId in roster);
    FilterMembers(Entries(s, d), (b: StudentBand) => b.studentId !in roster);
  }

  lemma EntriesCounted(s: SignalSet, d: Dimension, roster: seq<string>)
    requires SetValid(s) && d in s.dimensions
    ensures |Entries(s, d)| == |Named(s, d)|
    ensures |Matched(Entries(s, d), roster)| == |set id | id in Named(s, d) && id in roster|
  {
    hide SetValid, Entries, Matched;
    EntriesOf(s, d, roster);
    KeptStudents(s, d, Entries(s, d), Named(s, d));
    KeptStudents(s, d, Matched(Entries(s, d), roster), set id | id in Named(s, d) && id in roster);
  }

  lemma BandCounted(s: SignalSet, d: Dimension, roster: seq<string>, band: int)
    requires SetValid(s) && d in s.dimensions
    ensures CountBand(Matched(Entries(s, d), roster), band) == |InBand(s, d, roster, band)|
  {
    hide SetValid, Entries, Matched;
    var matched := Matched(Entries(s, d), roster);
    EntriesOf(s, d, roster);
    FilterMembers(matched, (b: StudentBand) => b.band == band);
    KeptStudents(s, d, Filter(matched, (b: StudentBand) => b.band == band), InBand(s, d, roster, band));
  }

  lemma UnmatchedCounted(s: SignalSet, d: Dimension, target: string, roster: seq<string>, rosters: seq<ClassRoster>,
                         others: map<string, set<string>>)
    requires SetValid(s) && d in s.dimensions && Knows(s, target, roster, rosters, others)
    ensures var unmatched, named := Unmatched(Entries(s, d), roster), Named(s, d);
            && |InOthers(unmatched, others)|
               == |set id | id in named && id !in roster && OtherClasses(rosters, target, id) != {}|
            && |InNone(unmatched, others)|
               == |set id | id in named && id !in roster && OtherClasses(rosters, target, id) == {}|
  {
    var unmatched, named := Unmatched(Entries(s, d), roster), Named(s, d);
    EntriesOf(s, d, roster);
    WrongMembers(s, d, target, roster, rosters, others);
    SortByContents(InOthers(unmatched, others), ByStudentId);
    SortByContents(InNone(unmatched, others), ByStudentId);
    FilterMembers(unmatched, (b: StudentBand) => b.studentId in others && others[b.studentId] != {});
    FilterMembers(unmatched, (b: StudentBand) => !(b.studentId in others && others[b.studentId] != {}));
    assert Distinct(InOthers(unmatched, others)) && Distinct(InNone(unmatched, others));
    hide SetValid, Entries, Unmatched, InOthers, InNone, SortBy, OtherClasses, Knows, Filter;
    KeptStudents(s, d, InOthers(unmatched, others),
                 set id | id in named && id !in roster && OtherClasses(rosters, target, id) != {});
    KeptStudents(s, d, InNone(unmatched, others),
                 set id | id in named && id !in roster && OtherClasses(rosters, target, id) == {});
  }

  lemma MissingCounted(s: SignalSet, d: Dimension, roster: seq<string>)
    requires SetValid(s) && d in s.dimensions && Distinct(roster)
    ensures |Missing(Matched(Entries(s, d), roster), roster)| == |set id | id in roster && id !in Named(s, d)|
    ensures |roster| == |set id | id in roster|
  {
    MissingMembers(s, d, roster);
    AsManyIds(roster);
    hide SetValid, Entries, Matched;
    var ids := Map(Matched(Entries(s, d), roster), StudentOf);
    var absent := Filter(roster, (id: string) => id !in ids);
    FilterMembers(roster, (id: string) => id !in ids);
    SortByContents(absent, StrLe);
    AsManyIds(absent);
    assert (set id | id in absent) == set id | id in roster && id !in Named(s, d) by {
      forall id ensures id in absent <==> id in roster && id !in Named(s, d) {
        assert id in absent <==> id in Missing(Matched(Entries(s, d), roster), roster);
      }
    }
  }

  method CountDimension(s: SignalSet, d: Dimension, ghost target: string, roster: seq<string>,
                        ghost rosters: seq<ClassRoster>, others: map<string, set<string>>)
    returns (counts: DimensionCounts)
    requires SetValid(s) && d in s.dimensions && Distinct(roster) && Knows(s, target, roster, rosters, others)
    ensures CountsAccepted(counts) && counts.rosterStudents == |roster|
    ensures CountsStudents(s, d, target, roster, rosters, counts)
  {
    hide SetValid, Knows, SortBy, Matched, Unmatched, InOthers, InNone, Missing, Entries, Identifier;
    var entries := Entries(s, d);
    var matched := Matched(entries, roster);
    var unmatched := Unmatched(entries, roster);
    var wrong := InOthers(unmatched, others);
    var unknown := InNone(unmatched, others);
    var missing := Missing(matched, roster);
    DimensionLists(s, d, target, roster, rosters, others);
    counts := DimensionCounts(d.dimensionId, d.bandCount, |roster|, |entries|, |matched|, |missing|, |unknown|, |wrong|,
                              BandCounts(matched, d.bandCount));
    EntriesCounted(s, d, roster);
    UnmatchedCounted(s, d, target, roster, rosters, others);
    MissingCounted(s, d, roster);
    hide Named, InBand, OtherClasses, CountBand, CountsAccepted;
    forall k | 0 <= k < d.bandCount ensures counts.bandCounts[k] == BandCount(k + 1, |InBand(s, d, roster, k + 1)|) {
      BandCounted(s, d, roster, k + 1);
    }
  }

  lemma ReportedIsAccepted(s: SignalSet, d: Dimension, target: string, roster: seq<string>, rosters: seq<ClassRoster>,
                           f: Diagnostic)
    requires SetValid(s) && d in s.dimensions && Identified(roster) && RostersIdentified(rosters)
    requires Reported(s, d, target, roster, rosters, f)
    ensures DiagnosticAccepted(f)
  {
    hide Identifier, WithinDeclared, Represented;
    assert DimensionValid(d);
    assert forall b :: b in s.studentBands ==> BandValid(b);
  }

  lemma OneBandPerStudent(s: SignalSet, a: StudentBand, b: StudentBand)
    requires SetValid(s) && a in s.studentBands && b in s.studentBands && KeyOf(a) == KeyOf(b)
    ensures a == b
  {
    hide DimensionsValid, WithinDeclared, Represented;
  }

  lemma MatchedMembers(s: SignalSet, d: Dimension, roster: seq<string>)
    requires SetValid(s)
    ensures var matched := Matched(Entries(s, d), roster);
            Distinct(matched) && forall b :: b in matched ==> b in s.studentBands && b.dimensionId == d.dimensionId
  {
    hide DimensionsValid, WithinDeclared, Represented, Filter;
    assert Distinct(s.studentBands);
    FilterMembers(s.studentBands, (b: StudentBand) => b.dimensionId == d.dimensionId);
    FilterMembers(Entries(s, d), (b: StudentBand) => b.studentId in roster);
  }

  lemma EntriesDiffer(s: SignalSet, d: Dimension, roster: seq<string>)
    requires SetValid(s) && d in s.dimensions
    ensures var matched := Matched(Entries(s, d), roster);
            forall i, j :: 0 <= i < j < |matched| ==> matched[i].studentId != matched[j].studentId
  {
    hide SetValid, Filter, Entries, Matched;
    var matched := Matched(Entries(s, d), roster);
    MatchedMembers(s, d, roster);
    forall i, j | 0 <= i < j < |matched| ensures matched[i].studentId != matched[j].studentId {
      assert matched[i] in matched && matched[j] in matched && matched[i] != matched[j];
      if matched[i].studentId == matched[j].studentId { OneBandPerStudent(s, matched[i], matched[j]); }
    }
  }

  lemma EntriesInRange(s: SignalSet, d: Dimension, b: StudentBand)
    requires SetValid(s) && d in s.dimensions && b in s.studentBands && b.dimensionId == d.dimensionId
    ensures 1 <= b.band <= d.bandCount
  {
    assert WithinDeclared(s.dimensions, b) && BandValid(b);
    var e :| e in s.dimensions && e.dimensionId == b.dimensionId && b.band <= e.bandCount;
    assert e == d;
  }

  /** The counts' consistency, and what each list holds. */
  lemma DimensionLists(s: SignalSet, d: Dimension, target: string, roster: seq<string>, rosters: seq<ClassRoster>,
                       others: map<string, set<string>>)
    requires SetValid(s) && d in s.dimensions && Distinct(roster) && Knows(s, target, roster, rosters, others)
    ensures var entries := Entries(s, d);
            var matched, unmatched := Matched(entries, roster), Unmatched(entries, roster);
            var wrong, unknown, missing := InOthers(unmatched, others), InNone(unmatched, others),
                Missing(matched, roster);
            && d.bandCount >= 2 && Identifier(d.dimensionId)
            && |matched| + |missing| == |roster|
            && |matched| + |unknown| + |wrong| == |entries|
            && Total(BandCounts(matched, d.bandCount)) == |matched|
  {
    var entries := Entries(s, d);
    var matched, unmatched := Matched(entries, roster), Unmatched(entries, roster);
    FilterMembers(s.studentBands, (b: StudentBand) => b.dimensionId == d.dimensionId);
    FilterMembers(entries, (b: StudentBand) => b.studentId in roster);
    FilterPartition(entries, (b: StudentBand) => b.studentId in roster, (b: StudentBand) => b.studentId !in roster);
    FilterPartition(unmatched, (b: StudentBand) => b.studentId in others && others[b.studentId] != {},
                    (b: StudentBand) => !(b.studentId in others && others[b.studentId] != {}));
    EntriesDiffer(s, d, roster);
    RosterPartition(matched, roster);
    assert DimensionValid(d);
    hide SetValid, Knows, Filter;
    forall b | b in matched ensures 1 <= b.band <= d.bandCount { EntriesInRange(s, d, b); }
    AllBandsTotal(matched, d.bandCount);
  }

  lemma UnmatchedMembers(s: SignalSet, d: Dimension, roster: seq<string>)
    ensures forall b :: b in Unmatched(Entries(s, d), roster) <==>
              b in s.studentBands && b.dimensionId == d.dimensionId && b.studentId !in roster
  {
    FilterMembers(s.studentBands, (b: StudentBand) => b.dimensionId == d.dimensionId);
    FilterMembers(Entries(s, d), (b: StudentBand) => b.studentId !in roster);
  }

  lemma WrongMembers(s: SignalSet, d: Dimension, target: string, roster: seq<string>, rosters: seq<ClassRoster>,
                     others: map<string, set<string>>)
    requires Knows(s, target, roster, rosters, others)
    ensures var unmatched := Unmatched(Entries(s, d), roster);
            && (forall b :: b in SortBy(InOthers(unmatched, others), ByStudentId) <==>
                  b in s.studentBands && b.dimensionId == d.dimensionId && b.studentId !in roster
                  && OtherClasses(rosters, target, b.studentId) != {})
            && (forall b :: b in SortBy(InNone(unmatched, others), ByStudentId) <==>
                  b in s.studentBands && b.dimensionId == d.dimensionId && b.studentId !in roster
                  && OtherClasses(rosters, target, b.studentId) == {})
  {
    hide Unmatched, Entries, SortBy, Filter, OtherClasses, ByStudentId;
    var unmatched := Unmatched(Entries(s, d), roster);
    UnmatchedMembers(s, d, roster);
    FilterMembers(unmatched, (b: StudentBand) => b.studentId in others && others[b.studentId] != {});
    FilterMembers(unmatched, (b: StudentBand) => !(b.studentId in others && others[b.studentId] != {}));
    SortByContents(InOthers(unmatched, others), ByStudentId);
    SortByContents(InNone(unmatched, others), ByStudentId);
  }

  lemma MissingMembers(s: SignalSet, d: Dimension, roster: seq<string>)
    requires SetValid(s) && d in s.dimensions && Distinct(roster)
    ensures forall id :: id in Missing(Matched(Entries(s, d), roster), roster) <==>
              id in roster && !SignalNames(s, d, id)
  {
    EntriesDiffer(s, d, roster);
    hide SetValid, Filter;
    FilterMembers(s.studentBands, (b: StudentBand) => b.dimensionId == d.dimensionId);
    FilterMembers(Entries(s, d), (b: StudentBand) => b.studentId in roster);
    RosterPartition(Matched(Entries(s, d), roster), roster);
  }

  lemma MapMembers<S, T(!new)>(items: seq<S>, f: S -> T)
    ensures forall y :: y in Map(items, f) <==> exists x :: x in items && f(x) == y
  {
    forall y ensures y in Map(items, f) <==> exists x :: x in items && f(x) == y {
      if y in Map(items, f) {
        var k :| 0 <= k < |items| && Map(items, f)[k] == y;
        assert items[k] in items;
      }
      if x :| x in items && f(x) == y {
        var k :| 0 <= k < |items| && items[k] == x;
        assert Map(items, f)[k] == y;
      }
    }
  }

  /** No finding without its fact, no fact without its finding. */
  lemma FindingsAreExact(s: SignalSet, d: Dimension, target: string, roster: seq<string>, rosters: seq<ClassRoster>,
                         others: map<string, set<string>>, findings: seq<Diagnostic>)
    requires SetValid(s) && d in s.dimensions && Distinct(roster) && Knows(s, target, roster, rosters, others)
    requires var unmatched := Unmatched(Entries(s, d), roster);
             findings == Map(SortBy(InOthers(unmatched, others), ByStudentId), WrongClass(d, others))
                         + Map(SortBy(InNone(unmatched, others), ByStudentId), Unknown(d))
                         + Map(Missing(Matched(Entries(s, d), roster), roster), MissingSignal(d))
    ensures forall f :: f in findings <==> Reported(s, d, target, roster, rosters, f)
  {
    hide Reported, Entries, Matched, Unmatched, InOthers, InNone, Missing, SortBy, Map, SetValid, Knows, OtherClasses,
         SignalNames, WrongClass, Unknown, MissingSignal, ByStudentId;
    var unmatched := Unmatched(Entries(s, d), roster);
    var wrong, unknown := SortBy(InOthers(unmatched, others), ByStudentId),
        SortBy(InNone(unmatched, others), ByStudentId);
    var missing := Missing(Matched(Entries(s, d), roster), roster);
    WrongMembers(s, d, target, roster, rosters, others);
    MissingMembers(s, d, roster);
    MapMembers(wrong, WrongClass(d, others));
    MapMembers(unknown, Unknown(d));
    MapMembers(missing, MissingSignal(d));
    forall f ensures f in findings <==> Reported(s, d, target, roster, rosters, f) {
      OneFindingIsExact(s, d, target, roster, rosters, others, wrong, unknown, missing, f);
    }
  }

  lemma OneFindingIsExact(s: SignalSet, d: Dimension, target: string, roster: seq<string>, rosters: seq<ClassRoster>,
                          others: map<string, set<string>>, wrong: seq<StudentBand>, unknown: seq<StudentBand>,
                          missing: seq<string>, f: Diagnostic)
    requires Knows(s, target, roster, rosters, others)
    requires forall b :: b in wrong <==> b in s.studentBands && b.dimensionId == d.dimensionId && b.studentId !in roster
                                         && OtherClasses(rosters, target, b.studentId) != {}
    requires forall b :: b in unknown <==>
        b in s.studentBands && b.dimensionId == d.dimensionId
        && b.studentId !in roster
        && OtherClasses(rosters, target, b.studentId) == {}
    requires forall id :: id in missing <==> id in roster && !SignalNames(s, d, id)
    ensures Reported(s, d, target, roster, rosters, f) <==>
            || (exists b :: b in wrong && WrongClass(d, others)(b) == f)
            || (exists b :: b in unknown && Unknown(d)(b) == f)
            || (exists id :: id in missing && MissingSignal(d)(id) == f)
  {
    hide OtherClasses;
    if Reported(s, d, target, roster, rosters, f) {
      match f.code {
        case WrongClassStudent =>
          var b :| b in s.studentBands && b.dimensionId == d.dimensionId && b.studentId == f.studentId.value;
          assert b in wrong && WrongClass(d, others)(b) == f;
        case UnknownStudent =>
          var b :| b in s.studentBands && b.dimensionId == d.dimensionId && b.studentId == f.studentId.value;
          assert b in unknown && Unknown(d)(b) == f;
        case MissingStudentSignal => assert MissingSignal(d)(f.studentId.value) == f;
        case ClassMismatch =>
      }
    }
  }

  // -------------------------------------------------------------------- the whole report

  /** The class the comparison is against: the expected one when given, else the signal's own. */
  function TargetClass(s: SignalSet, expected: Option<string>): string {
    if expected.Some? then expected.value else s.classId
  }

  /**
   `diagnose_grouping_signal`, for any valid set and any valid rosters: the report's constructor
   never rejects, its findings are exactly the facts there are to report, and each of its counts
   is the number of students of its kind.
   */
  method Diagnose(s: SignalSet, expected: Option<string>, roster: seq<string>, rosters: seq<ClassRoster>)
    returns (report: Report)
    requires Canonical(s) && (expected.Some? ==> Identifier(expected.value))
    requires Distinct(roster) && Identified(roster) && RostersIdentified(rosters)
    ensures ReportAccepted(report)
    ensures report.signalSetId == s.signalSetId && report.signalClassId == s.classId
            && report.targetClassId == (if expected.Some? then expected.value else s.classId)
            && report.rosterStudents == |roster| && |report.dimensions| == |s.dimensions|
    ensures forall k :: 0 <= k < |s.dimensions| ==>
              CountsStudents(s, s.dimensions[k], report.targetClassId, roster, rosters, report.dimensions[k])
    ensures forall f :: f in report.findings <==> Fact(s, s.dimensions, TargetClass(s, expected), roster, rosters, f)
  {
    hide Knows, CountsAccepted, DiagnosticAccepted, Fact, SetValid, Identifier, Ordered, CountsStudents, StrLe;
    var target := TargetClass(s, expected);
    var unmatched := set b | b in s.studentBands && b.studentId !in roster :: b.studentId;
    var others := FindOtherClassMemberships(rosters, target, unmatched);
    OthersKnown(s, target, roster, rosters, others);
    DimensionsStayOrdered(s);
    IdentifiersOf(s);
    assert SetValid(s);
    var findings, counts := DiagnoseDimensions(s, target, roster, rosters, others);
    forall f | f in findings ensures DiagnosticAccepted(f) { FactIsAccepted(s, target, roster, rosters, f); }
    forall k | 0 <= k < |counts| ensures counts[k].dimensionId == s.dimensions[k].dimensionId {
      CountsNameTheirDimension(s, s.dimensions[k], target, roster, rosters, counts[k]);
    }
    report := Report(s.signalSetId, s.classId, target, |roster|, findings, counts);
  }

  lemma CountsNameTheirDimension(s: SignalSet, d: Dimension, target: string, roster: seq<string>,
                                 rosters: seq<ClassRoster>, c: DimensionCounts)
    requires CountsStudents(s, d, target, roster, rosters, c)
    ensures c.dimensionId == d.dimensionId
  {
  }

  lemma OthersKnown(s: SignalSet, target: string, roster: seq<string>, rosters: seq<ClassRoster>,
                    others: map<string, set<string>>)
    requires others.Keys == set b | b in s.studentBands && b.studentId !in roster :: b.studentId
    requires forall id :: id in others ==> others[id] == OtherClasses(rosters, target, id)
    ensures Knows(s, target, roster, rosters, others)
  {
  }

  method DiagnoseDimensions(s: SignalSet, target: string, roster: seq<string>, ghost rosters: seq<ClassRoster>,
                            others: map<string, set<string>>)
    returns (findings: seq<Diagnostic>, counts: seq<DimensionCounts>)
    requires SetValid(s) && Distinct(roster) && Knows(s, target, roster, rosters, others)
    ensures |counts| == |s.dimensions|
    ensures forall k :: 0 <= k < |counts| ==>
              CountsAccepted(counts[k]) && counts[k].rosterStudents == |roster|
                && CountsStudents(s, s.dimensions[k], target, roster, rosters, counts[k])
    ensures forall f :: f in findings <==> Fact(s, s.dimensions, target, roster, rosters, f)
  {
    findings := Mismatch(s, target);
    counts := [];
    NoDimensions(s, target, roster, rosters);
    hide Knows, CountsAccepted, Fact, SetValid, Reported, CountsStudents;
    for i := 0 to |s.dimensions|
      invariant |counts| == i
      invariant forall k :: 0 <= k < i ==> CountsAccepted(counts[k]) && counts[k].rosterStudents == |roster|
                                           && CountsStudents(s, s.dimensions[k], target, roster, rosters, counts[k])
      invariant forall f :: f in findings <==> Fact(s, s.dimensions[..i], target, roster, rosters, f)
    {
      var d := s.dimensions[i];
      FactsOneMore(s, i, target, roster, rosters);
      var found := DimensionFindings(s, d, target, roster, rosters, others);
      var count := CountDimension(s, d, target, roster, rosters, others);
      findings := findings + found;
      counts := counts + [count];
    }
    assert s.dimensions[..|s.dimensions|] == s.dimensions;
  }

  function Mismatch(s: SignalSet, target: string): seq<Diagnostic> {
    if s.classId != target then [Diagnostic(ClassMismatch, ErrorSeverity, None, None, {})] else []
  }

  lemma NoDimensions(s: SignalSet, target: string, roster: seq<string>, rosters: seq<ClassRoster>)
    ensures forall f :: f in Mismatch(s, target) <==> Fact(s, s.dimensions[..0], target, roster, rosters, f)
  {
  }

  /** Everything a report over the given dimensions has to say. */
  ghost predicate Fact(s: SignalSet, dimensions: seq<Dimension>, target: string, roster: seq<string>,
                       rosters: seq<ClassRoster>, f: Diagnostic)
  {
    || (f == Diagnostic(ClassMismatch, ErrorSeverity, None, None, {}) && s.classId != target)
    || exists d :: d in dimensions && Reported(s, d, target, roster, rosters, f)
  }

  lemma FactsOneMore(s: SignalSet, i: nat, target: string, roster: seq<string>, rosters: seq<ClassRoster>)
    requires i < |s.dimensions|
    ensures forall f :: Fact(s, s.dimensions[..i + 1], target, roster, rosters, f) <==>
              || Fact(s, s.dimensions[..i], target, roster, rosters, f)
              || Reported(s, s.dimensions[i], target, roster, rosters, f)
  {
    hide Reported;
    assert s.dimensions[..i + 1] == s.dimensions[..i] + [s.dimensions[i]];
    assert forall d :: d in s.dimensions[..i + 1] <==> d in s.dimensions[..i] || d == s.dimensions[i];
  }

  lemma FactIsAccepted(s: SignalSet, target: string, roster: seq<string>, rosters: seq<ClassRoster>, f: Diagnostic)
    requires SetValid(s) && Identified(roster) && RostersIdentified(rosters)
             && Fact(s, s.dimensions, target, roster, rosters, f)
    ensures DiagnosticAccepted(f)
  {
    hide SetValid;
    if d :| d in s.dimensions && Reported(s, d, target, roster, rosters, f) {
      ReportedIsAccepted(s, d, target, roster, rosters, f);
    }
  }

  lemma IdentifiersOf(s: SignalSet)
    requires SetValid(s)
    ensures Identifier(s.signalSetId) && Identifier(s.classId)
  {
  }

  lemma DimensionsStayOrdered(s: SignalSet)
    requires Canonical(s)
    ensures forall k :: 0 < k < |s.dimensions| ==>
              StrLe(s.dimensions[k - 1].dimensionId, s.dimensions[k].dimensionId)
              && s.dimensions[k - 1].dimensionId != s.dimensions[k].dimensionId
  {
    CanonicalIsSorted(s);
    forall k | 0 < k < |s.dimensions|
      ensures StrLe(s.dimensions[k - 1].dimensionId, s.dimensions[k].dimensionId)
              && s.dimensions[k - 1].dimensionId != s.dimensions[k].dimensionId
    {
      assert ByDimension(s.dimensions[k - 1], s.dimensions[k]);
    }
  }
}
