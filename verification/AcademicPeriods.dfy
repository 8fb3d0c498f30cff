/** Academic periods, the hierarchy validator and the calendar transition relation. */
module AcademicPeriods {
  import opened Foundations

  /** A calendar date; the year is what the school-year check looks at. */
  datatype Date = Date(year: int, dayOfYear: int)

  predicate DateLe(a: Date, b: Date) {
    a.year < b.year || (a.year == b.year && a.dayOfYear <= b.dayOfYear)
  }

  predicate Earlier(a: Date, b: Date) { a.year < b.year || (a.year == b.year && a.dayOfYear < b.dayOfYear) }

  datatype AcademicPeriod = AcademicPeriod(
    periodId: string,
    periodType: string,
    displayLabel: string,
    startDate: Date,
    endDate: Date,
    parent: Option<string>,
    sequence: int,
    lifecycle: string)

  predicate ById(a: AcademicPeriod, b: AcademicPeriod) { StrLe(a.periodId, b.periodId) }

  predicate BySequence(a: AcademicPeriod, b: AcademicPeriod) {
    a.sequence < b.sequence || (a.sequence == b.sequence && StrLe(a.periodId, b.periodId))
  }

  type Index = map<string, AcademicPeriod>

  ghost predicate Indexes(m: Index, periods: seq<AcademicPeriod>) {
    && (forall p :: p in periods ==> p.periodId in m && m[p.periodId] == p)
    && (forall id :: id in m ==> m[id] in periods && m[id].periodId == id)
  }

  // -------------------------------------------------------------- parent chains

  /** The id reached from `id` by following `n` parent links. */
  ghost function Up(m: Index, id: string, n: nat): Option<string> {
    if n == 0 then Some(id)
    else
      match Up(m, id, n - 1)
      case None => None
      case Some(x) => if x in m then m[x].parent else None
  }

  ghost predicate Closed(m: Index) {
    forall id :: id in m && m[id].parent.Some? ==> m[id].parent.value in m
  }

  /** The parent chain of `id` comes to an end. */
  ghost predicate Rooted(m: Index, id: string) {
    exists n: nat :: Up(m, id, n).None?
  }

  /** The parent chain of `id` visits some period twice. */
  ghost predicate Revisits(m: Index, id: string) {
    exists i: nat, j: nat :: i < j && Up(m, id, i).Some? && Up(m, id, i) == Up(m, id, j)
  }

  lemma {:induction false} UpAdds(m: Index, id: string, i: nat, j: nat)
    requires Up(m, id, i).Some?
    ensures Up(m, id, i + j) == Up(m, Up(m, id, i).value, j)
  {
    if j > 0 {
      UpAdds(m, id, i, j - 1);
      assert i + j - 1 == i + (j - 1);
    }
  }

  lemma {:induction false} UpStaysNone(m: Index, id: string, i: nat, j: nat)
    requires Up(m, id, i).None? && i <= j
    ensures Up(m, id, j).None?
    decreases j
  {
    if i < j { UpStaysNone(m, id, i, j - 1); }
  }

  lemma {:induction false} UpStaysInside(m: Index, id: string, n: nat)
    requires Closed(m) && id in m && Up(m, id, n).Some?
    ensures Up(m, id, n).value in m
  {
    if n > 0 {
      if Up(m, id, n - 1).Some? { UpStaysInside(m, id, n - 1); }
    }
  }

  lemma {:induction false} LoopsForever(m: Index, y: string, d: nat, k: nat)
    requires d > 0 && Up(m, y, d) == Some(y)
    ensures Up(m, y, k * d) == Some(y)
  {
    if k > 0 {
      LoopsForever(m, y, d, k - 1);
      UpAdds(m, y, (k - 1) * d, d);
      assert (k - 1) * d + d == k * d;
    }
  }

  lemma AtLeastCount(k: nat, d: nat)
    requires d > 0
    ensures k * d >= k
  {
  }

  /** A chain that ends never visits a period twice. */
  lemma RootedNeverRevisits(m: Index, id: string)
    requires Rooted(m, id)
    ensures !Revisits(m, id)
  {
    var n: nat :| Up(m, id, n).None?;
    forall i: nat, j: nat | i < j && Up(m, id, i).Some? ensures Up(m, id, i) != Up(m, id, j) {
      if Up(m, id, i) == Up(m, id, j) {
        var y, d := Up(m, id, i).value, j - i;
        UpAdds(m, id, i, d);
        LoopsForever(m, y, d, n);
        UpAdds(m, id, i, n * d);
        AtLeastCount(n, d);
        UpStaysNone(m, id, n, i + n * d);
      }
    }
  }

  lemma RootedFromParent(m: Index, id: string)
    requires id in m && (m[id].parent.None? || Rooted(m, m[id].parent.value))
    ensures Rooted(m, id)
  {
    assert Up(m, id, 0) == Some(id) && Up(m, id, 1) == m[id].parent;
    if m[id].parent.Some? {
      var n: nat :| Up(m, m[id].parent.value, n).None?;
      UpAdds(m, id, 1, n);
    } else {
      assert Up(m, id, 1).None?;
    }
  }

  // ------------------------------------------------------------ cycle detection

  /** `path` follows parent links from one period to the next. */
  ghost predicate FollowsParents(m: Index, path: seq<string>) {
    && (forall k :: 0 <= k < |path| ==> path[k] in m)
    && (forall k :: 0 < k < |path| ==> m[path[k - 1]].parent == Some(path[k]))
  }

  lemma {:induction false} UpAlongPath(m: Index, path: seq<string>, i: nat, j: nat)
    requires FollowsParents(m, path) && i <= j < |path|
    ensures Up(m, path[i], j - i) == Some(path[j])
    decreases j
  {
    if i < j {
      UpAlongPath(m, path, i, j - 1);
      assert m[path[j - 1]].parent == Some(path[j]);
      assert j - 1 - i == j - i - 1;
    }
  }

  lemma {:induction false} PathIsRooted(m: Index, path: seq<string>, k: nat)
    requires FollowsParents(m, path) && k < |path|
    requires m[path[|path| - 1]].parent.None? || Rooted(m, m[path[|path| - 1]].parent.value)
    ensures Rooted(m, path[k])
    decreases |path| - k
  {
    if k < |path| - 1 {
      PathIsRooted(m, path, k + 1);
      assert m[path[k + 1 - 1]].parent == Some(path[k + 1]);
    }
    RootedFromParent(m, path[k]);
  }

  /** When the parent of the last period is already on the path, the chain revisits it. */
  lemma PathTurnsBack(m: Index, path: seq<string>, at: nat)
    requires FollowsParents(m, path) && at < |path| && m[path[|path| - 1]].parent == Some(path[at])
    ensures Revisits(m, path[at])
  {
    UpAlongPath(m, path, at, |path| - 1);
    var y, d := path[at], |path| - at;
    assert Up(m, y, d) == Some(y) by { assert d - 1 == |path| - 1 - at; }
    assert Up(m, y, 0) == Some(y);
  }

  /**
   One walk up from `start`, stopping at a root, at a period already known to be rooted,
   or at a period of this walk.
   */
  method WalkUp(m: Index, start: string, complete: set<string>) returns (cycle: bool, path: seq<string>)
    requires Closed(m) && start in m && start !in complete
    requires forall id :: id in complete ==> id in m && Rooted(m, id)
    ensures cycle ==> exists id :: id in m && Revisits(m, id)
    ensures !cycle ==> start in path && forall id :: id in path ==> id in m && Rooted(m, id)
  {
    hide Up, Rooted, Revisits;
    path := [];
    var positions: map<string, nat> := map[];
    var current := Some(start);
    cycle := false;
    while current.Some? && current.value !in complete
      invariant FollowsParents(m, path)
      invariant forall id :: id in positions <==> id in path
      invariant forall id :: id in positions ==> positions[id] < |path| && path[positions[id]] == id
      invariant positions.Keys <= m.Keys
      invariant if path == [] then current == Some(start) else path[0] == start && current == m[path[|path| - 1]].parent
      decreases m.Keys - positions.Keys
    {
      if current.value in positions {
        PathTurnsBack(m, path, positions[current.value]);
        cycle := true;
        return;
      }
      ghost var left := m.Keys - positions.Keys;
      assert current.value in left;
      positions := positions[current.value := |path|];
      assert m.Keys - positions.Keys == left - {current.value};
      path := path + [current.value];
      current := m[current.value].parent;
    }
    forall id | id in path ensures Rooted(m, id) {
      var k :| 0 <= k < |path| && path[k] == id;
      PathIsRooted(m, path, k);
    }
    assert start == path[0];
  }

  /** `_validate_no_cycles`: rejects exactly when some parent chain visits a period twice. */
  method ValidateNoCycles(m: Index, ids: seq<string>) returns (ok: bool)
    requires Closed(m) && forall id :: id in ids <==> id in m
    ensures ok <==> forall id :: id in m ==> !Revisits(m, id)
    ensures ok ==> forall id :: id in m ==> Rooted(m, id)
  {
    var complete: set<string> := {};
    for i := 0 to |ids|
      invariant forall id :: id in complete ==> id in m && Rooted(m, id)
      invariant forall k :: 0 <= k < i ==> ids[k] in complete
    {
      if ids[i] !in complete {
        var cycle, path := WalkUp(m, ids[i], complete);
        if cycle { return false; }
        complete := complete + set id | id in path;
      }
    }
    forall id | id in m ensures Rooted(m, id) && !Revisits(m, id) {
      var k :| 0 <= k < |ids| && ids[k] == id;
      RootedNeverRevisits(m, id);
    }
    ok := true;
  }

  // ------------------------------------------------------- hierarchy validation

  predicate Contains(parent: AcademicPeriod, child: AcademicPeriod) {
    DateLe(parent.startDate, child.startDate) && DateLe(child.endDate, parent.endDate)
  }

  predicate InYears(p: AcademicPeriod, years: (int, int)) {
    && (p.startDate.year == years.0 || p.startDate.year == years.1)
    && (p.endDate.year == years.0 || p.endDate.year == years.1)
  }

  ghost predicate IdsUnique(periods: seq<AcademicPeriod>) {
    forall i, j :: 0 <= i < j < |periods| ==> periods[i].periodId != periods[j].periodId
  }

  ghost predicate SiblingsOrdered(periods: seq<AcademicPeriod>) {
    forall p, q :: p in periods && q in periods && p.parent == q.parent && p.sequence == q.sequence ==> p == q
  }

  /** The relations between periods, through the index of a list without repeated ids. */
  ghost predicate Forest(m: Index, years: (int, int)) {
    && Closed(m)
    && (forall id :: id in m ==> InYears(m[id], years) && !Revisits(m, id))
    && (forall id :: id in m && m[id].parent.Some? && m[id].parent.value in m ==>
        Contains(m[m[id].parent.value], m[id]))
  }

  ghost predicate HierarchyValid(periods: seq<AcademicPeriod>, years: (int, int)) {
    IdsUnique(periods) && SiblingsOrdered(periods) && Forest(IndexOf(periods), years)
  }

  function IndexOf(periods: seq<AcademicPeriod>): Index {
    if periods == [] then map[]
    else IndexOf(periods[..|periods| - 1])[periods[|periods| - 1].periodId := periods[|periods| - 1]]
  }

  lemma {:induction false} IndexOfIndexes(periods: seq<AcademicPeriod>)
    requires IdsUnique(periods)
    ensures Indexes(IndexOf(periods), periods)
  {
    if periods != [] {
      var n := |periods| - 1;
      IndexOfIndexes(periods[..n]);
      assert periods == periods[..n] + [periods[n]];
      assert forall p :: p in periods[..n] ==> p.periodId != periods[n].periodId;
    }
  }

  lemma IndexUnique(m: Index, n: Index, periods: seq<AcademicPeriod>)
    requires Indexes(m, periods) && Indexes(n, periods)
    ensures m == n
  {
    forall id ensures id in m <==> id in n {
      if id in m { assert m[id] in periods; }
      if id in n { assert n[id] in periods; }
    }
    forall id | id in m ensures m[id] == n[id] { assert m[id] in periods; }
  }

  datatype HierarchyError =
    | DuplicateId
    | OutsideSchoolYear
    | OwnParent
    | MissingParent
    | Cycle
    | OutsideParent
    | DuplicateSibling

  lemma IndexOneMore(r: seq<AcademicPeriod>, p: AcademicPeriod)
    requires IdsUnique(r) && Indexes(IndexOf(r), r)
    ensures IndexOf(r + [p]) == IndexOf(r)[p.periodId := p]
    ensures p.periodId in IndexOf(r) <==> !IdsUnique(r + [p])
  {
    var more := r + [p];
    assert more[..|r|] == r;
    forall k | 0 <= k < |r| ensures r[k].periodId in IndexOf(r) {
      assert r[k] in r;
    }
    if p.periodId in IndexOf(r) {
      var k :| 0 <= k < |r| && r[k] == IndexOf(r)[p.periodId];
      assert more[k].periodId == more[|r|].periodId;
    }
  }

  /** The dictionary of periods by id, or the news that an id is taken twice. */
  method IndexPeriods(periods: seq<AcademicPeriod>) returns (result: Result<Index, HierarchyError>)
    ensures result.Success? <==> IdsUnique(periods)
    ensures result == if result.Success? then Success(IndexOf(periods)) else Failure(DuplicateId)
  {
    var m: Index := map[];
    for i := 0 to |periods|
      invariant IdsUnique(periods[..i]) && m == IndexOf(periods[..i])
    {
      IndexOfIndexes(periods[..i]);
      IndexOneMore(periods[..i], periods[i]);
      assert periods[..i + 1] == periods[..i] + [periods[i]];
      if periods[i].periodId in m {
        PrefixIdsUnique(periods, i + 1);
        return Failure(DuplicateId);
      }
      m := m[periods[i].periodId := periods[i]];
    }
    assert periods[..|periods|] == periods;
    return Success(m);
  }

  lemma PrefixIdsUnique(periods: seq<AcademicPeriod>, i: nat)
    requires i <= |periods|
    ensures IdsUnique(periods) ==> IdsUnique(periods[..i])
  {
  }

  /** Years, self-parenthood and missing parents. */
  method CheckLinks(periods: seq<AcademicPeriod>, m: Index, years: (int, int)) returns (error: Option<HierarchyError>)
    requires Indexes(m, periods)
    ensures error != Some(Cycle)
    ensures error.None? <==> Closed(m) && (forall id :: id in m ==> InYears(m[id], years) && m[id].parent != Some(id))
  {
    for i := 0 to |periods|
      invariant forall k :: 0 <= k < i ==>
        && InYears(periods[k], years) && periods[k].parent != Some(periods[k].periodId)
        && (periods[k].parent.Some? ==> periods[k].parent.value in m)
    {
      var p := periods[i];
      assert p in periods && m[p.periodId] == p;
      if p.startDate.year != years.0 && p.startDate.year != years.1 { return Some(OutsideSchoolYear); }
      if p.endDate.year != years.0 && p.endDate.year != years.1 { return Some(OutsideSchoolYear); }
      if p.parent == Some(p.periodId) { return Some(OwnParent); }
      if p.parent.Some? && p.parent.value !in m { return Some(MissingParent); }
    }
    forall id | id in m
      ensures InYears(m[id], years) && m[id].parent != Some(id) && (m[id].parent.Some? ==> m[id].parent.value in m)
    {
      assert m[id] in periods;
    }
    error := None;
  }

  ghost predicate Recorded(seen: map<(Option<string>, int), string>, periods: seq<AcademicPeriod>) {
    && (forall p :: p in periods ==> (p.parent, p.sequence) in seen && seen[(p.parent, p.sequence)] == p.periodId)
    && (forall k :: k in seen ==> exists p :: p in periods && (p.parent, p.sequence) == k && p.periodId == seen[k])
  }

  /** Containment in the parent's dates, and sibling sequences. */
  method CheckPlacement(periods: seq<AcademicPeriod>, m: Index) returns (error: Option<HierarchyError>)
    requires Indexes(m, periods) && Closed(m) && IdsUnique(periods)
    ensures error != Some(Cycle)
    ensures error.None? <==>
      && SiblingsOrdered(periods)
      && (forall id :: id in m && m[id].parent.Some? && m[id].parent.value in m ==>
          Contains(m[m[id].parent.value], m[id]))
  {
    var seen: map<(Option<string>, int), string> := map[];
    for i := 0 to |periods|
      invariant Recorded(seen, periods[..i])
      invariant forall k :: 0 <= k < i && periods[k].parent.Some? ==> Contains(m[periods[k].parent.value], periods[k])
    {
      var p := periods[i];
      assert p in periods && m[p.periodId] == p;
      assert periods[..i + 1] == periods[..i] + [p];
      if p.parent.Some? {
        var parent := m[p.parent.value];
        if Earlier(p.startDate, parent.startDate) || Earlier(parent.endDate, p.endDate) { return Some(OutsideParent); }
      }
      var key := (p.parent, p.sequence);
      if key in seen {
        RepeatedSibling(seen, periods, i);
        return Some(DuplicateSibling);
      }
      RecordOneMore(seen, periods[..i], p);
      seen := seen[key := p.periodId];
    }
    assert periods[..|periods|] == periods;
    RecordedIsOrdered(seen, periods, m);
    forall id | id in m && m[id].parent.Some? ensures Contains(m[m[id].parent.value], m[id]) {
      assert m[id] in periods;
    }
    error := None;
  }

  lemma RepeatedSibling(seen: map<(Option<string>, int), string>, periods: seq<AcademicPeriod>, i: nat)
    requires i < |periods| && IdsUnique(periods) && Recorded(seen, periods[..i])
    requires (periods[i].parent, periods[i].sequence) in seen
    ensures !SiblingsOrdered(periods)
  {
    var q :| q in periods[..i] && (q.parent, q.sequence) == (periods[i].parent, periods[i].sequence);
    var k :| 0 <= k < i && periods[..i][k] == q;
    assert periods[k].periodId != periods[i].periodId;
    assert q in periods && periods[i] in periods;
  }

  lemma RecordedIsOrdered(seen: map<(Option<string>, int), string>, periods: seq<AcademicPeriod>, m: Index)
    requires Indexes(m, periods) && Recorded(seen, periods)
    ensures SiblingsOrdered(periods)
  {
    forall p, q | p in periods && q in periods && p.parent == q.parent && p.sequence == q.sequence ensures p == q {
      assert m[p.periodId] == p && m[q.periodId] == q;
    }
  }

  lemma RecordOneMore(seen: map<(Option<string>, int), string>, r: seq<AcademicPeriod>, p: AcademicPeriod)
    requires Recorded(seen, r) && (p.parent, p.sequence) !in seen
    ensures Recorded(seen[(p.parent, p.sequence) := p.periodId], r + [p])
  {
    var more := r + [p];
    assert p == more[|r|];
    forall k | k in seen ensures exists q :: q in more && (q.parent, q.sequence) == k && q.periodId == seen[k] {
      var q :| q in r && (q.parent, q.sequence) == k && q.periodId == seen[k];
      assert q in more;
    }
  }

  /** A self-parent or any other cycle is a revisit. */
  lemma OwnParentRevisits(m: Index, id: string)
    requires id in m && m[id].parent == Some(id)
    ensures Revisits(m, id)
  {
    assert Up(m, id, 0) == Some(id) && Up(m, id, 1) == Some(id);
  }

  /** Soundness and completeness: the validator accepts exactly the valid hierarchies. */
  method ValidateHierarchy(years: (int, int), periods: seq<AcademicPeriod>)
    returns (result: Result<seq<AcademicPeriod>, HierarchyError>)
    ensures result.Success? <==> HierarchyValid(periods, years)
    ensures result.Success? ==>
      && result.value == SortBy(periods, ById) && multiset(result.value) == multiset(periods)
      && forall i, j :: 0 <= i < j < |result.value| ==> StrLe(result.value[i].periodId, result.value[j].periodId)
    ensures result == Failure(Cycle) ==> exists id :: id in IndexOf(periods) && Revisits(IndexOf(periods), id)
  {
    hide SortBy, Sorted, Revisits;
    InIdOrder(periods);
    var index := IndexPeriods(periods);
    if index.Failure? { return Failure(index.error); }
    var m := index.value;
    IndexOfIndexes(periods);
    var error := CheckLinks(periods, m, years);
    if error.Some? {
      forall id | id in m && m[id].parent == Some(id) ensures Revisits(m, id) { OwnParentRevisits(m, id); }
      return Failure(error.value);
    }
    var ids := SortBy(IdsOf(periods), StrLe);
    SortByContents(IdsOf(periods), StrLe);
    assert forall id :: id in ids <==> id in m by { IdsAreKeys(m, periods); }
    var acyclic := ValidateNoCycles(m, ids);
    if !acyclic { return Failure(Cycle); }
    error := CheckPlacement(periods, m);
    if error.Some? { return Failure(error.value); }
    return Success(SortBy(periods, ById));
  }

  lemma InIdOrder(periods: seq<AcademicPeriod>)
    ensures var r := SortBy(periods, ById);
            multiset(r) == multiset(periods) && |r| == |periods|
            && forall i, j :: 0 <= i < j < |r| ==> StrLe(r[i].periodId, r[j].periodId)
  {
    SortByContents(periods, ById);
    StrLeIsOrder();
    SortBySorted(periods, ById);
  }

  function IdsOf(periods: seq<AcademicPeriod>): seq<string> {
    seq(|periods|, i requires 0 <= i < |periods| => periods[i].periodId)
  }

  lemma IdsAreKeys(m: Index, periods: seq<AcademicPeriod>)
    requires Indexes(m, periods)
    ensures forall id :: id in IdsOf(periods) <==> id in m
  {
    forall id ensures id in IdsOf(periods) <==> id in m {
      if id in IdsOf(periods) {
        var i :| 0 <= i < |periods| && IdsOf(periods)[i] == id;
        assert periods[i] in periods;
      }
      if id in m {
        assert m[id] in periods;
        var i :| 0 <= i < |periods| && periods[i] == m[id];
        assert IdsOf(periods)[i] == id;
      }
    }
  }

  // ------------------------------------------------------ what acceptance means

  /** The verdict and the canonical result do not depend on the order of the input. */
  lemma OrderDoesNotMatter(a: seq<AcademicPeriod>, b: seq<AcademicPeriod>, years: (int, int))
    requires multiset(a) == multiset(b)
    ensures HierarchyValid(a, years) <==> HierarchyValid(b, years)
    ensures HierarchyValid(a, years) ==> SortBy(a, ById) == SortBy(b, ById)
  {
    if IdsUnique(a) { SameIndex(a, b); SameSort(a, b); }
    if IdsUnique(b) { SameIndex(b, a); }
  }

  lemma SameIndex(a: seq<AcademicPeriod>, b: seq<AcademicPeriod>)
    requires multiset(a) == multiset(b) && IdsUnique(a)
    ensures IdsUnique(b) && IndexOf(a) == IndexOf(b) && (SiblingsOrdered(a) <==> SiblingsOrdered(b))
  {
    SameContents(a, b);
    IndexOfIndexes(a);
    assert Distinct(a);
    DistinctByContents(a, b);
    forall i, j | 0 <= i < j < |b| ensures b[i].periodId != b[j].periodId {
      assert b[i] in a && b[j] in a && b[i] != b[j];
    }
    IndexOfIndexes(b);
    IndexUnique(IndexOf(a), IndexOf(b), a);
  }

  lemma SameSort(a: seq<AcademicPeriod>, b: seq<AcademicPeriod>)
    requires multiset(a) == multiset(b) && IdsUnique(a)
    ensures SortBy(a, ById) == SortBy(b, ById)
  {
    var s, t := SortBy(a, ById), SortBy(b, ById);
    StrLeIsOrder();
    SortByContents(a, ById);
    SortByContents(b, ById);
    SortBySorted(a, ById);
    SortBySorted(b, ById);
    IndexOfIndexes(a);
    forall i, j | 0 <= i < |s| && 0 <= j < |s| && ById(s[i], s[j]) && ById(s[j], s[i]) ensures s[i] == s[j] {
      assert s[i] in a && s[j] in a;
      StrLeAntisymmetric(s[i].periodId, s[j].periodId);
    }
    SortedUnique(s, t, ById);
  }

  lemma DateLeTransitive(a: Date, b: Date, c: Date)
    requires DateLe(a, b) && DateLe(b, c)
    ensures DateLe(a, c)
  {
  }

  /** Dates nest along the whole chain of ancestors, not just under the parent. */
  lemma {:induction false} AncestorsContain(m: Index, years: (int, int), id: string, n: nat)
    requires Forest(m, years) && id in m && Up(m, id, n).Some?
    ensures Up(m, id, n).value in m && Contains(m[Up(m, id, n).value], m[id])
  {
    if n > 0 {
      assert Up(m, id, n - 1).Some?;
      AncestorsContain(m, years, id, n - 1);
      var x := Up(m, id, n - 1).value;
      assert Up(m, id, n) == m[x].parent;
      DateLeTransitive(m[Up(m, id, n).value].startDate, m[x].startDate, m[id].startDate);
      DateLeTransitive(m[id].endDate, m[x].endDate, m[Up(m, id, n).value].endDate);
    } else {
      assert Contains(m[id], m[id]);
    }
  }

  // --------------------------------------------------------- calendar transition

  datatype Calendar = Calendar(schoolYear: string, revision: int, createdAt: int, updatedAt: int,
                               periods: seq<AcademicPeriod>)

  /** Period ids are never removed and never change type. */
  predicate PeriodsPreserved(prior: Index, candidate: Index) {
    forall id :: id in prior ==> id in candidate && candidate[id].periodType == prior[id].periodType
  }

  predicate CalendarTransition(prior: Calendar, candidate: Calendar) {
    && candidate.schoolYear == prior.schoolYear
    && candidate.revision > prior.revision
    && candidate.createdAt == prior.createdAt
    && candidate.updatedAt >= prior.updatedAt
    && PeriodsPreserved(IndexOf(prior.periods), IndexOf(candidate.periods))
  }

  /** A candidate keeps its predecessor's periods: every one is still there under its id, with its type. */
  ghost predicate KeepsPeriods(prior: Calendar, candidate: Calendar) {
    forall p :: p in prior.periods ==>
      exists q :: q in candidate.periods && q.periodId == p.periodId && q.periodType == p.periodType
  }

  /** The transition, said of the two lists of periods rather than of their dictionaries. */
  lemma TransitionExactly(prior: Calendar, candidate: Calendar)
    requires IdsUnique(prior.periods) && IdsUnique(candidate.periods)
    ensures CalendarTransition(prior, candidate) <==>
            && candidate.schoolYear == prior.schoolYear && candidate.revision > prior.revision
            && candidate.createdAt == prior.createdAt && candidate.updatedAt >= prior.updatedAt
            && KeepsPeriods(prior, candidate)
  {
    IndexOfIndexes(prior.periods);
    IndexOfIndexes(candidate.periods);
    var m, n := IndexOf(prior.periods), IndexOf(candidate.periods);
    hide IndexOf;
    if PeriodsPreserved(m, n) {
      forall p | p in prior.periods
        ensures exists q :: q in candidate.periods && q.periodId == p.periodId && q.periodType == p.periodType
      {
        assert n[p.periodId] in candidate.periods;
      }
    }
    if KeepsPeriods(prior, candidate) {
      forall id | id in m ensures id in n && n[id].periodType == m[id].periodType {
        assert m[id] in prior.periods;
      }
    }
  }
}
