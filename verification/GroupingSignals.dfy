/** Grouping-signal sets: their fields, and the constructor that validates and orders them. */
module GroupingSignals {
  import opened Foundations
  import opened UtcText
  import opened Tables

  // ----------------------------------------------------------------------- fields

  predicate Lowercase(s: string) { forall k :: 0 <= k < |s| ==> !('A' <= s[k] <= 'Z') }

  predicate Sha256Text(s: string) {
    |s| == 64 && forall k :: 0 <= k < |s| ==> '0' <= s[k] <= '9' || 'a' <= s[k] <= 'f'
  }

  datatype SourceKind = TeacherAuthored | ModuleGenerated

  datatype SignalSource = SignalSource(
    kind: SourceKind,
    moduleId: Option<string>,
    snapshotId: Option<string>,
    digestAlgorithm: Option<string>,
    digest: Option<string>)

  predicate SnapshotValid(s: SignalSource) {
    s.snapshotId.Some? && Identifier(s.snapshotId.value) && s.digestAlgorithm == Some("sha256")
    && s.digest.Some? && Sha256Text(s.digest.value)
  }

  /** Module signals name a module and a snapshot; teacher signals have all of a snapshot or none of it. */
  predicate SourceValid(s: SignalSource) {
    match s.kind
    case ModuleGenerated => s.moduleId.Some? && Identifier(s.moduleId.value) && Lowercase(s.moduleId.value)
      && SnapshotValid(s)
    case TeacherAuthored =>
      && s.moduleId.None?
      && ((s.snapshotId.None? && s.digestAlgorithm.None? && s.digest.None?) || SnapshotValid(s))
  }

  datatype Dimension = Dimension(dimensionId: string, bandCount: int)

  predicate DimensionValid(d: Dimension) { Identifier(d.dimensionId) && d.bandCount >= 2 }

  datatype StudentBand = StudentBand(studentId: string, dimensionId: string, band: int)

  predicate BandValid(b: StudentBand) { Identifier(b.studentId) && Identifier(b.dimensionId) && b.band >= 1 }

  datatype SignalSet = SignalSet(
    signalSetId: string,
    classId: string,
    createdAt: Moment,
    source: SignalSource,
    dimensions: seq<Dimension>,
    studentBands: seq<StudentBand>)

  // --------------------------------------------------------------- whole-set checks

  predicate ByDimension(a: Dimension, b: Dimension) { StrLe(a.dimensionId, b.dimensionId) }

  predicate ByDimensionAndStudent(a: StudentBand, b: StudentBand) {
    if a.dimensionId == b.dimensionId then StrLe(a.studentId, b.studentId) else StrLe(a.dimensionId, b.dimensionId)
  }

  ghost predicate DimensionsValid(dimensions: seq<Dimension>) {
    && dimensions != [] && (forall d :: d in dimensions ==> DimensionValid(d))
    && (forall i, j :: 0 <= i < j < |dimensions| ==> dimensions[i].dimensionId != dimensions[j].dimensionId)
  }

  datatype BandKey = BandKey(studentId: string, dimensionId: string)

  function KeyOf(b: StudentBand): BandKey { BandKey(b.studentId, b.dimensionId) }

  ghost predicate BandsValid(bands: seq<StudentBand>) {
    && bands != [] && (forall b :: b in bands ==> BandValid(b))
    && (forall i, j :: 0 <= i < j < |bands| ==> KeyOf(bands[i]) != KeyOf(bands[j]))
  }

  /** Every band lies within a declared dimension. */
  ghost predicate WithinDeclared(dimensions: seq<Dimension>, b: StudentBand) {
    exists d :: d in dimensions && d.dimensionId == b.dimensionId && b.band <= d.bandCount
  }

  ghost predicate Represented(bands: seq<StudentBand>, d: Dimension) {
    exists b :: b in bands && b.dimensionId == d.dimensionId
  }

  ghost predicate SetValid(s: SignalSet) {
    && Identifier(s.signalSetId) && Identifier(s.classId) && Valid(s.createdAt) && SourceValid(s.source)
    && DimensionsValid(s.dimensions) && BandsValid(s.studentBands)
    && (forall b :: b in s.studentBands ==> WithinDeclared(s.dimensions, b))
    && (forall d :: d in s.dimensions ==> Represented(s.studentBands, d))
  }

  /** The canonical form of a set: dimensions and bands in order. */
  function Ordered(s: SignalSet): SignalSet {
    s.(dimensions := SortBy(s.dimensions, ByDimension), studentBands := SortBy(s.studentBands, ByDimensionAndStudent))
  }

  ghost predicate Canonical(s: SignalSet) { SetValid(s) && Ordered(s) == s }

  lemma ByDimensionIsOrder()
    ensures Total(ByDimension) && Transitive(ByDimension)
  {
    StrLeIsOrder();
  }

  lemma ByDimensionAndStudentIsOrder()
    ensures Total(ByDimensionAndStudent) && Transitive(ByDimensionAndStudent)
  {
    StrLeIsOrder();
  }

  /** Ordering a valid set changes neither its validity nor, a second time, the set. */
  lemma OrderedIsCanonical(s: SignalSet)
    requires SetValid(s)
    ensures Canonical(Ordered(s))
  {
    ByDimensionIsOrder();
    ByDimensionAndStudentIsOrder();
    var d, b := Ordered(s).dimensions, Ordered(s).studentBands;
    SortByContents(s.dimensions, ByDimension);
    SortByContents(s.studentBands, ByDimensionAndStudent);
    SortBySorted(s.dimensions, ByDimension);
    SortBySorted(s.studentBands, ByDimensionAndStudent);
    ContentsStayValid(s, d, b);
    hide ByDimension, ByDimensionAndStudent;
    DimensionsInOrder(d);
    BandsInOrder(b);
  }

  lemma ContentsStayValid(s: SignalSet, d: seq<Dimension>, b: seq<StudentBand>)
    requires SetValid(s) && multiset(d) == multiset(s.dimensions) && multiset(b) == multiset(s.studentBands)
    ensures SetValid(s.(dimensions := d, studentBands := b))
  {
    SameContents(d, s.dimensions);
    SameContents(b, s.studentBands);
    assert Distinct(s.dimensions) && Distinct(s.studentBands);
    DistinctByContents(s.dimensions, d);
    DistinctByContents(s.studentBands, b);
    forall i, j | 0 <= i < j < |d| ensures d[i].dimensionId != d[j].dimensionId {
      assert d[i] in s.dimensions && d[j] in s.dimensions && d[i] != d[j];
    }
    forall i, j | 0 <= i < j < |b| ensures KeyOf(b[i]) != KeyOf(b[j]) {
      assert b[i] in s.studentBands && b[j] in s.studentBands && b[i] != b[j];
    }
    forall x | x in b ensures WithinDeclared(d, x) { assert WithinDeclared(s.dimensions, x); }
    forall x | x in d ensures Represented(b, x) { assert Represented(s.studentBands, x); }
  }

  lemma DimensionsInOrder(d: seq<Dimension>)
    requires DimensionsValid(d) && Sorted(d, ByDimension)
    ensures SortBy(d, ByDimension) == d
  {
    ByDimensionIsOrder();
    StrLeIsOrder();
    forall i, j | 0 <= i < j < |d| ensures !ByDimension(d[j], d[i]) {
      assert ByDimension(d[i], d[j]) && d[i].dimensionId != d[j].dimensionId;
    }
    AlreadyOrdered(d, ByDimension);
  }

  lemma BandsInOrder(b: seq<StudentBand>)
    requires BandsValid(b) && Sorted(b, ByDimensionAndStudent)
    ensures SortBy(b, ByDimensionAndStudent) == b
  {
    ByDimensionAndStudentIsOrder();
    StrLeIsOrder();
    forall i, j | 0 <= i < j < |b| ensures !ByDimensionAndStudent(b[j], b[i]) {
      assert ByDimensionAndStudent(b[i], b[j]) && KeyOf(b[i]) != KeyOf(b[j]);
    }
    AlreadyOrdered(b, ByDimensionAndStudent);
  }

  /** A canonical set lists its dimensions and bands in strict order. */
  lemma CanonicalIsSorted(s: SignalSet)
    requires Canonical(s)
    ensures Sorted(s.dimensions, ByDimension) && Sorted(s.studentBands, ByDimensionAndStudent)
  {
    ByDimensionIsOrder();
    ByDimensionAndStudentIsOrder();
    SortBySorted(s.dimensions, ByDimension);
    SortBySorted(s.studentBands, ByDimensionAndStudent);
  }

  // ------------------------------------------------------------------- constructor

  /** The source's constructor, field by field. */
  method CheckSource(s: SignalSource) returns (ok: bool)
    ensures ok <==> SourceValid(s)
  {
    if s.kind.ModuleGenerated? {
      if s.moduleId.None? || !Identifier(s.moduleId.value) { return false; }
      for k := 0 to |s.moduleId.value|
        invariant forall j :: 0 <= j < k ==> !('A' <= s.moduleId.value[j] <= 'Z')
      {
        if 'A' <= s.moduleId.value[k] <= 'Z' { return false; }
      }
    } else {
      if s.moduleId.Some? { return false; }
      if s.snapshotId.None? && s.digestAlgorithm.None? && s.digest.None? { return true; }
    }
    if s.snapshotId.None? || s.digestAlgorithm.None? || s.digest.None? { return false; }
    if !Identifier(s.snapshotId.value) || s.digestAlgorithm.value != "sha256" { return false; }
    if |s.digest.value| != 64 { return false; }
    for k := 0 to 64
      invariant forall j :: 0 <= j < k ==> '0' <= s.digest.value[j] <= '9' || 'a' <= s.digest.value[j] <= 'f'
    {
      if !('0' <= s.digest.value[k] <= '9') && !('a' <= s.digest.value[k] <= 'f') { return false; }
    }
    return true;
  }

  method CheckDimensions(items: seq<Dimension>) returns (ok: bool)
    ensures ok <==> DimensionsValid(items)
  {
    if items == [] { return false; }
    var seen: set<string> := {};
    for i := 0 to |items|
      invariant forall k :: 0 <= k < i ==> DimensionValid(items[k]) && items[k].dimensionId in seen
      invariant forall id :: id in seen ==> exists k :: 0 <= k < i && items[k].dimensionId == id
      invariant forall j, k :: 0 <= j < k < i ==> items[j].dimensionId != items[k].dimensionId
    {
      assert items[i] in items;
      if !Identifier(items[i].dimensionId) || items[i].bandCount < 2 || items[i].dimensionId in seen { return false; }
      seen := seen + {items[i].dimensionId};
    }
    ok := true;
  }

  method CheckStudentBands(items: seq<StudentBand>) returns (ok: bool)
    ensures ok <==> BandsValid(items)
  {
    if items == [] { return false; }
    var seen: set<BandKey> := {};
    for i := 0 to |items|
      invariant forall k :: 0 <= k < i ==> BandValid(items[k]) && KeyOf(items[k]) in seen
      invariant forall key :: key in seen ==> exists k :: 0 <= k < i && KeyOf(items[k]) == key
      invariant forall j, k :: 0 <= j < k < i ==> KeyOf(items[j]) != KeyOf(items[k])
    {
      assert items[i] in items;
      var b := items[i];
      if !Identifier(b.studentId) || !Identifier(b.dimensionId) || b.band < 1 { return false; }
      if BandKey(b.studentId, b.dimensionId) in seen { return false; }
      seen := seen + {BandKey(b.studentId, b.dimensionId)};
    }
    ok := true;
  }

  method CheckDeclared(dimensions: seq<Dimension>, bands: seq<StudentBand>) returns (ok: bool)
    requires DimensionsValid(dimensions)
    ensures ok <==>
        (forall b :: b in bands ==> WithinDeclared(dimensions, b))
        && (forall d :: d in dimensions ==> Represented(bands, d))
  {
    var counts := map d | d in dimensions :: d.dimensionId := d.bandCount;
    var represented: set<string> := {};
    for i := 0 to |bands|
      invariant forall k :: 0 <= k < i ==> WithinDeclared(dimensions, bands[k])
      invariant forall id :: id in represented <==> exists k :: 0 <= k < i && bands[k].dimensionId == id
    {
      var b := bands[i];
      assert b in bands;
      if b.dimensionId !in counts || b.band > counts[b.dimensionId] { return false; }
      represented := represented + {b.dimensionId};
    }
    for i := 0 to |dimensions|
      invariant forall k :: 0 <= k < i ==> Represented(bands, dimensions[k])
    {
      assert dimensions[i] in dimensions;
      if dimensions[i].dimensionId !in represented { return false; }
    }
    ok := true;
  }

  /** The constructor: every field checked, dimensions and bands put in canonical order. */
  method Construct(s: SignalSet) returns (result: Option<SignalSet>)
    ensures result == if SetValid(s) then Some(Ordered(s)) else None
    ensures result.Some? ==> Canonical(result.value)
  {
    var fields := Identifier(s.signalSetId) && Identifier(s.classId) && Valid(s.createdAt);
    if !fields { return None; }
    var source := CheckSource(s.source);
    if !source { return None; }
    var dimensions := CheckDimensions(s.dimensions);
    if !dimensions { return None; }
    var bands := CheckStudentBands(s.studentBands);
    if !bands { return None; }
    var declared := CheckDeclared(s.dimensions, s.studentBands);
    if !declared { return None; }
    OrderedIsCanonical(s);
    return Some(Ordered(s));
  }
}
