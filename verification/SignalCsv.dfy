/** Signal CSV documents: export of one dimension, parsing, conversion, and the round trips. */
module SignalCsv {
  import opened Foundations
  import opened Decimals
  import opened UtcText
  import opened Tables
  import opened GroupingSignals
  import opened SignalCsvText

  // ---------------------------------------------------------------- ISO timestamps

  /** Whole seconds are written without a fraction. */
  const SECONDS: seq<(nat, string)> := [(4, "-"), (2, "-"), (2, "T"), (2, ":"), (2, ":"), (2, "+00:00")]

  function WholeSeconds(t: Moment): seq<int> { [t.year, t.month, t.day, t.hour, t.minute, t.second] }

  lemma ValidFitsSeconds(t: Moment)
    requires Valid(t)
    ensures Fits(WholeSeconds(t), SECONDS)
  {
    assert Pow10(2) == 100 && Pow10(4) == 100 * Pow10(2);
  }

  function IsoText(t: Moment): string
    requires Valid(t)
  {
    ValidFitsSeconds(t);
    if t.micro == 0 then Render(WholeSeconds(t), SECONDS) else Text(t)
  }

  /** A UTC timestamp in either of the two forms `isoformat` writes. */
  function ParseIso(s: string): (t: Option<Moment>)
    ensures t.Some? ==> Valid(t.value)
  {
    match ParseFields(s, if |s| == 25 then SECONDS else LAYOUT)
    case None => None
    case Some(v) =>
      if |s| == 25 && |v| == 6 then
        var t := Moment(v[0], v[1], v[2], v[3], v[4], v[5], 0);
        if Valid(t) then Some(t) else None
      else if |s| != 25 && |v| == 7 then
        var t := Moment(v[0], v[1], v[2], v[3], v[4], v[5], v[6]);
        if Valid(t) then Some(t) else None
      else None
  }

  function Width(layout: seq<(nat, string)>): nat {
    if layout == [] then 0 else layout[0].0 + |layout[0].1| + Width(layout[1..])
  }

  predicate PlainText(s: string) { forall k :: 0 <= k < |s| ==> s[k] != '\n' && s[k] != '\r' && s[k] != '\0' }

  lemma {:induction false} RenderShape(values: seq<int>, layout: seq<(nat, string)>)
    requires Fits(values, layout) && forall k :: 0 <= k < |layout| ==> PlainText(layout[k].1)
    ensures |Render(values, layout)| == Width(layout) && PlainText(Render(values, layout))
  {
    if values != [] {
      RenderHead(values, layout);
      hide Padded, Pow10, Render;
      RenderShape(values[1..], layout[1..]);
    }
  }

  lemma Widths()
    ensures Width(SECONDS) == 25 && Width(LAYOUT) == 32
    ensures forall k :: 0 <= k < |SECONDS| ==> PlainText(SECONDS[k].1)
    ensures forall k :: 0 <= k < |LAYOUT| ==> PlainText(LAYOUT[k].1)
  {
    assert Width(SECONDS[5..]) == 8 && Width(SECONDS[3..]) == 14;
    assert Width(LAYOUT[5..]) == 15 && Width(LAYOUT[3..]) == 21;
    assert SECONDS[1..][1..][1..] == SECONDS[3..] && LAYOUT[1..][1..][1..] == LAYOUT[3..];
  }

  lemma IsoRoundTrip(t: Moment)
    requires Valid(t)
    ensures ParseIso(IsoText(t)) == Some(t) && PlainText(IsoText(t))
  {
    ValidFits(t);
    ValidFitsSeconds(t);
    Widths();
    hide Fits, Render, ParseFields, SECONDS, LAYOUT, Width;
    if t.micro == 0 {
      RenderShape(WholeSeconds(t), SECONDS);
      ParseRendered(WholeSeconds(t), SECONDS);
    } else {
      RenderShape(Values(t), LAYOUT);
      ParseRendered(Values(t), LAYOUT);
    }
  }

  // ---------------------------------------------------------------------- documents

  datatype Scope = CompleteSignal | DimensionProjection

  datatype Document = Document(
    scope: Scope,
    signalSetId: string,
    classId: string,
    createdAt: Moment,
    source: SignalSource,
    dimension: Dimension,
    rows: seq<CsvRow>)

  function ScopeText(scope: Scope): string {
    if scope.CompleteSignal? then "complete_signal" else "dimension_projection"
  }

  function KindText(kind: SourceKind): string {
    if kind.TeacherAuthored? then "teacher_authored" else "module_generated"
  }

  function TextOrEmpty(value: Option<string>): string { if value.None? then "" else value.value }

  function NullText(text: string): Option<string> { if text == "" then None else Some(text) }

  // ------------------------------------------------------------------------- export

  function DimensionOf(s: SignalSet, id: string): Option<Dimension> { FindDimension(s.dimensions, id) }

  function FindDimension(dimensions: seq<Dimension>, id: string): Option<Dimension> {
    if dimensions == [] then None
    else if dimensions[0].dimensionId == id then Some(dimensions[0])
    else FindDimension(dimensions[1..], id)
  }

  function ScopeOf(s: SignalSet): Scope { if |s.dimensions| == 1 then CompleteSignal else DimensionProjection }

  function SelectedBands(s: SignalSet, id: string): seq<StudentBand> {
    SortBy(Filter(s.studentBands, (b: StudentBand) => b.dimensionId == id), ByStudent)
  }

  predicate ByStudent(a: StudentBand, b: StudentBand) { StrLe(a.studentId, b.studentId) }

  function RowFor(b: StudentBand): CsvRow { CsvRow(b.studentId, b.band) }

  /** The document an export represents. */
  function DocumentOf(s: SignalSet, d: Dimension): Document {
    Document(ScopeOf(s), s.signalSetId, s.classId, s.createdAt, s.source, d,
             Map(SelectedBands(s, d.dimensionId), RowFor))
  }

  /** Metadata values, in the order of `KEYS`. */
  function MetadataValues(doc: Document): (values: seq<string>)
    requires Valid(doc.createdAt) && doc.dimension.bandCount >= 0
    ensures |values| == 14
  {
    ["grouping_signal_csv_v1", "1", "grouping_signal_set", ScopeText(doc.scope), doc.signalSetId, doc.classId,
     IsoText(doc.createdAt), KindText(doc.source.kind), TextOrEmpty(doc.source.moduleId),
     TextOrEmpty(doc.source.snapshotId),
     TextOrEmpty(doc.source.digestAlgorithm), TextOrEmpty(doc.source.digest), doc.dimension.dimensionId,
     Decimal(doc.dimension.bandCount)]
  }

  ghost predicate Writable(doc: Document) {
    Valid(doc.createdAt) && doc.dimension.bandCount >= 0 && forall i :: 0 <= i < |doc.rows| ==> doc.rows[i].band >= 0
  }

  function MetadataLines(doc: Document): seq<string>
    requires Valid(doc.createdAt) && doc.dimension.bandCount >= 0
  {
    seq(14, i requires 0 <= i < 14 => WriteMetadata(KEYS[i], MetadataValues(doc)[i]))
  }

  function RowLines(rows: seq<CsvRow>): seq<string>
    requires forall i :: 0 <= i < |rows| ==> rows[i].band >= 0
  {
    seq(|rows|, i requires 0 <= i < |rows| => WriteRow(rows[i]))
  }

  /** The header and the rows. */
  function BodyLines(doc: Document): (lines: seq<string>)
    requires Writable(doc)
    ensures lines != [] && lines[0] == HEADER
  {
    [HEADER] + RowLines(doc.rows)
  }

  function DocumentLines(doc: Document): seq<string>
    requires Writable(doc)
  {
    MetadataLines(doc) + BodyLines(doc)
  }

  lemma SelectedWritable(s: SignalSet, d: Dimension)
    requires SetValid(s) && d in s.dimensions
    ensures Writable(DocumentOf(s, d))
    ensures forall b :: b in SelectedBands(s, d.dimensionId) <==> b in s.studentBands && b.dimensionId == d.dimensionId
  {
    var keep := (b: StudentBand) => b.dimensionId == d.dimensionId;
    FilterMembers(s.studentBands, keep);
    SortByContents(Filter(s.studentBands, keep), ByStudent);
    var selected := SelectedBands(s, d.dimensionId);
    forall i | 0 <= i < |selected| ensures selected[i].band >= 0 { assert selected[i] in selected; }
  }

  lemma {:induction false} FoundDimension(dimensions: seq<Dimension>, id: string)
    ensures FindDimension(dimensions, id).Some? ==>
              FindDimension(dimensions, id).value in dimensions && FindDimension(dimensions, id).value.dimensionId == id
    ensures FindDimension(dimensions, id).None? ==> forall d :: d in dimensions ==> d.dimensionId != id
  {
    if dimensions != [] { FoundDimension(dimensions[1..], id); }
  }

  /** Appending `line` and a line end to text that already ends its lines. */
  lemma {:induction false} JoinOneMore(lines: seq<string>, line: string)
    ensures JoinLines(lines + [line]) == JoinLines(lines) + line + "\n"
  {
    if lines == [] {
      assert [line][1..] == [];
    } else {
      JoinOneMore(lines[1..], line);
      assert (lines + [line])[1..] == lines[1..] + [line];
    }
  }

  method ExportMetadata(doc: Document) returns (output: string)
    requires Valid(doc.createdAt) && doc.dimension.bandCount >= 0
    ensures output == JoinLines(MetadataLines(doc))
  {
    var values := MetadataValues(doc);
    output := "";
    hide MetadataValues, KEYS, WriteMetadata, JoinLines;
    KeyCount();
    assert MetadataLines(doc)[..0] == [];
    NoLines();
    for i := 0 to 14
      invariant output == JoinLines(MetadataLines(doc)[..i])
    {
      JoinOneMore(MetadataLines(doc)[..i], WriteMetadata(KEYS[i], values[i]));
      assert MetadataLines(doc)[..i + 1] == MetadataLines(doc)[..i] + [WriteMetadata(KEYS[i], values[i])];
      output := output + WriteMetadata(KEYS[i], values[i]) + "\n";
    }
    assert MetadataLines(doc)[..14] == MetadataLines(doc);
  }

  lemma KeyCount()
    ensures |KEYS| == 14
  {
  }

  lemma NoLines()
    ensures JoinLines([]) == ""
  {
  }

  method ExportRows(before: string, ghost head: seq<string>, rows: seq<CsvRow>) returns (output: string)
    requires before == JoinLines(head) && forall i :: 0 <= i < |rows| ==> rows[i].band >= 0
    ensures output == JoinLines(head + RowLines(rows))
  {
    output := before;
    hide JoinLines, WriteRow;
    assert head + RowLines(rows)[..0] == head;
    for i := 0 to |rows|
      invariant output == JoinLines(head + RowLines(rows)[..i])
    {
      JoinOneMore(head + RowLines(rows)[..i], WriteRow(rows[i]));
      assert head + RowLines(rows)[..i + 1] == head + RowLines(rows)[..i] + [WriteRow(rows[i])];
      output := output + WriteRow(rows[i]) + "\n";
    }
    assert RowLines(rows)[..|rows|] == RowLines(rows);
  }

  lemma LinesInOrder(doc: Document)
    requires Writable(doc)
    ensures Valid(doc.createdAt) && doc.dimension.bandCount >= 0
    ensures forall i :: 0 <= i < |doc.rows| ==> doc.rows[i].band >= 0
    ensures MetadataLines(doc) + [HEADER] + RowLines(doc.rows) == DocumentLines(doc)
  {
    hide MetadataLines, RowLines, HEADER;
  }

  /** The export: metadata in fixed order, the header, one row per student of the dimension. */
  method Export(s: SignalSet, dimensionId: string) returns (result: Result<string, CsvError>)
    requires SetValid(s)
    ensures result.Success? <==> exists d :: d in s.dimensions && d.dimensionId == dimensionId
    ensures forall d | d in s.dimensions && d.dimensionId == dimensionId ::
              Writable(DocumentOf(s, d)) && result == Success(JoinLines(DocumentLines(DocumentOf(s, d))))
  {
    hide SetValid, DocumentOf, DocumentLines, MetadataLines, RowLines, BodyLines, JoinLines, HEADER, FindDimension,
         Writable;
    FoundDimension(s.dimensions, dimensionId);
    var found := DimensionOf(s, dimensionId);
    if found.None? { return Failure(UnknownDimension); }
    var d := found.value;
    SelectedWritable(s, d);
    OneSuchDimension(s, d);
    var doc := DocumentOf(s, d);
    var metadata := ExportMetadata(doc);
    JoinOneMore(MetadataLines(doc), HEADER);
    LinesInOrder(doc);
    var output := ExportRows(metadata + HEADER + "\n", MetadataLines(doc) + [HEADER], doc.rows);
    return Success(output);
  }

  lemma OneSuchDimension(s: SignalSet, d: Dimension)
    requires SetValid(s) && d in s.dimensions
    ensures forall e :: e in s.dimensions && e.dimensionId == d.dimensionId ==> e == d
  {
  }

  // ------------------------------------------------------------------------- parsing

  /** Everything the metadata says, once all keys are there. */
  function Describe(m: map<string, string>): Option<Document> {
    if exists i :: 0 <= i < |KEYS| && KEYS[i] !in m then None
    else
      assert forall i :: 0 <= i < |KEYS| ==> KEYS[i] in m;
      assert |KEYS| == 14;
      var v := seq(14, i requires 0 <= i < 14 => m[KEYS[i]]);
      DescribeValues(v)
  }

  function DescribeValues(v: seq<string>): Option<Document>
    requires |v| == 14
  {
    var createdAt := ParseIso(v[6]);
    var scope := if v[3] == "complete_signal" then Some(CompleteSignal)
                 else if v[3] == "dimension_projection" then Some(DimensionProjection) else None;
    var kind := if v[7] == "teacher_authored" then Some(TeacherAuthored)
                else if v[7] == "module_generated" then Some(ModuleGenerated) else None;
    if v[0] != "grouping_signal_csv_v1" || v[1] != "1" || v[2] != "grouping_signal_set" then None
    else if scope.None? || !Identifier(v[4]) || !Identifier(v[5]) || createdAt.None? || kind.None? then None
    else
      var source := SignalSource(kind.value, NullText(v[8]), NullText(v[9]), NullText(v[10]), NullText(v[11]));
      if !SourceValid(source) || !Identifier(v[12]) || !DecimalText(v[13]) || Value(v[13]) < 2 then None
      else Some(Document(scope.value, v[4], v[5], createdAt.value, source, Dimension(v[12], Value(v[13])), []))
  }

  /** Which fourteen values describe a document: those an export writes, but for the forms of time and number. */
  lemma DescribeExactly(v: seq<string>, doc: Document)
    requires |v| == 14
    ensures DescribeValues(v) == Some(doc) <==>
            && v[..3] == ["grouping_signal_csv_v1", "1", "grouping_signal_set"] && v[3] == ScopeText(doc.scope)
            && v[4] == doc.signalSetId && Identifier(v[4]) && v[5] == doc.classId && Identifier(v[5])
            && ParseIso(v[6]) == Some(doc.createdAt) && v[7] == KindText(doc.source.kind) && SourceValid(doc.source)
            && v[8] == TextOrEmpty(doc.source.moduleId) && v[9] == TextOrEmpty(doc.source.snapshotId)
            && v[10] == TextOrEmpty(doc.source.digestAlgorithm) && v[11] == TextOrEmpty(doc.source.digest)
            && v[12] == doc.dimension.dimensionId && Identifier(v[12])
            && DecimalText(v[13]) && Value(v[13]) == doc.dimension.bandCount && Value(v[13]) >= 2 && doc.rows == []
  {
    hide ParseIso, Value, SourceValid, Identifier, TextOrEmpty, NullText, AllDigits, ScopeText, KindText;
    var s := doc.source;
    WordsDiffer(v[3], doc.scope, v[7], s.kind);
    assert v[..3] == [v[0], v[1], v[2]];
    NullTextOf(v[8], s.moduleId);
    NullTextOf(v[9], s.snapshotId);
    NullTextOf(v[10], s.digestAlgorithm);
    NullTextOf(v[11], s.digest);
    if SourceValid(s) { NothingEmpty(s); }
  }

  lemma WordsDiffer(scopeText: string, scope: Scope, kindText: string, kind: SourceKind)
    ensures "complete_signal" != "dimension_projection" && "teacher_authored" != "module_generated"
    ensures scopeText == ScopeText(scope) <==>
              if scope.CompleteSignal? then scopeText == "complete_signal" else scopeText == "dimension_projection"
    ensures kindText == KindText(kind) <==>
              if kind.TeacherAuthored? then kindText == "teacher_authored" else kindText == "module_generated"
  {
    assert "complete_signal"[0] != "dimension_projection"[0] && "teacher_authored"[0] != "module_generated"[0];
  }

  lemma NullTextOf(text: string, value: Option<string>)
    ensures NullText(text) == value <==> text == TextOrEmpty(value) && value != Some("")
  {
  }

  /** A valid source names nothing by the empty text. */
  lemma NothingEmpty(s: SignalSource)
    requires SourceValid(s)
    ensures Some("") !in {s.moduleId, s.snapshotId, s.digestAlgorithm, s.digest}
  {
  }

  /** What parsing a text's lines must find. */
  ghost predicate Reads(lines: seq<string>, doc: Document) {
    && Splits(lines)
    && (exists m :: Binds(lines[..Leading(lines)], m) && Describe(m) == Some(doc.(rows := [])))
    && RowsRead(TableRecords(lines[Leading(lines)..]), doc.dimension.bandCount, doc.rows)
  }

  lemma ReadsOnce(lines: seq<string>, a: Document, b: Document)
    requires Reads(lines, a) && Reads(lines, b)
    ensures a == b
  {
    var n := Leading(lines);
    var x :| Binds(lines[..n], x) && Describe(x) == Some(a.(rows := []));
    var y :| Binds(lines[..n], y) && Describe(y) == Some(b.(rows := []));
    OneBinding(lines[..n], x, y);
    OneReading(TableRecords(lines[n..]), a.dimension.bandCount, a.rows, b.rows);
  }

  method ParseLines(lines: seq<string>) returns (result: Result<Document, CsvError>)
    ensures result.Success? <==> exists doc :: Reads(lines, doc)
    ensures result.Success? ==> Reads(lines, result.value)
  {
    hide Describe, Binds, Splits, RowsRead;
    var split := SplitMetadata(lines);
    if split.Failure? { return Failure(split.error); }
    var metadata := split.value.0;
    forall m | Binds(lines[..Leading(lines)], m) ensures m == metadata {
      OneBinding(lines[..Leading(lines)], m, metadata);
    }
    var described := Describe(metadata);
    if described.None? { return Failure(InvalidMetadata); }
    var rows := ParseRows(split.value.1, described.value.dimension.bandCount);
    if rows.Failure? { return Failure(rows.error); }
    DescribedHasNoRows(metadata);
    assert Reads(lines, described.value.(rows := rows.value));
    return Success(described.value.(rows := rows.value));
  }

  lemma DescribedHasNoRows(m: map<string, string>)
    ensures Describe(m).Some? ==> Describe(m).value.rows == []
  {
  }

  /** `doc` is what the text, whatever its encoding details, says. */
  ghost predicate Means(data: string, doc: Document) {
    CsvText(data).Some? && Reads(SplitOn(CsvText(data).value, '\n'), doc)
  }

  /** `parse_grouping_signal_csv`. */
  method Parse(data: string) returns (result: Result<Document, CsvError>)
    ensures result.Success? <==> exists doc :: Means(data, doc)
    ensures result.Success? ==> Means(data, result.value)
  {
    hide Reads, CsvText, SplitOn;
    var text := CsvText(data);
    if text.None? { return Failure(UnreadableText); }
    result := ParseLines(SplitOn(text.value, '\n'));
    assert result.Success? ==> Means(data, result.value);
    assert forall doc :: Means(data, doc) ==> Reads(SplitOn(text.value, '\n'), doc);
  }

  // ---------------------------------------------------------------------- conversion

  datatype NewIdentity = NewIdentity(signalSetId: string, createdAt: Moment)

  /** The set a document stands for, under its own identity or a new one. */
  function SetOf(doc: Document, identity: Option<NewIdentity>): SignalSet {
    SignalSet(if identity.Some? then identity.value.signalSetId else doc.signalSetId, doc.classId,
              if identity.Some? then identity.value.createdAt else doc.createdAt, doc.source, [doc.dimension],
              Map(doc.rows, (row: CsvRow) => StudentBand(row.studentId, doc.dimension.dimensionId, row.band)))
  }

  method ToSignalSet(doc: Document, identity: Option<NewIdentity>) returns (result: Result<SignalSet, CsvError>)
    ensures result.Success? <==>
      && (doc.scope.DimensionProjection? ==> identity.Some?)
      && (identity.Some? ==> identity.value.signalSetId != doc.signalSetId)
      && SetValid(SetOf(doc, identity))
    ensures result.Success? ==> result.value == Ordered(SetOf(doc, identity)) && Canonical(result.value)
    ensures doc.scope.DimensionProjection? && identity.None? ==> result == Failure(NewIdentityRequired)
  {
    if doc.scope.DimensionProjection? && identity.None? { return Failure(NewIdentityRequired); }
    if identity.Some? {
      if !Identifier(identity.value.signalSetId) { return Failure(InvalidSignal); }
      if identity.value.signalSetId == doc.signalSetId { return Failure(SameIdentity); }
    }
    var built := Construct(SetOf(doc, identity));
    if built.None? { return Failure(InvalidSignal); }
    return Success(built.value);
  }

  // --------------------------------------------------------- exported text reads back

  lemma MetadataReadsBack(doc: Document)
    requires Valid(doc.createdAt) && doc.dimension.bandCount >= 0
    ensures AllBind(MetadataLines(doc))
    ensures forall i :: 0 <= i < 14 ==>
        MetadataLine(MetadataLines(doc)[i]) == Some(Binding(KEYS[i], MetadataValues(doc)[i]))
  {
    KeysDiffer();
    hide KEYS, MetadataValues;
    var lines := MetadataLines(doc);
    forall i | 0 <= i < 14 ensures MetadataLine(lines[i]) == Some(Binding(KEYS[i], MetadataValues(doc)[i])) {
      MetadataRoundTrip(i, MetadataValues(doc)[i]);
    }
    hide MetadataLine, MetadataLines;
    forall i, j | 0 <= i < j < 14 ensures MetadataLine(lines[i]).value.key != MetadataLine(lines[j]).value.key {
      assert KEYS[i] != KEYS[j];
    }
  }

  ghost predicate DocumentValid(doc: Document) {
    && Identifier(doc.signalSetId) && Identifier(doc.classId) && Valid(doc.createdAt) && SourceValid(doc.source)
    && DimensionValid(doc.dimension) && doc.rows != []
    && (forall i :: 0 <= i < |doc.rows| ==>
        Identifier(doc.rows[i].studentId) && 1 <= doc.rows[i].band <= doc.dimension.bandCount)
    && (forall i, j :: 0 <= i < j < |doc.rows| ==> doc.rows[i].studentId != doc.rows[j].studentId)
  }

  lemma SourceReturns(s: SignalSource)
    requires SourceValid(s)
    ensures SignalSource(s.kind, NullText(TextOrEmpty(s.moduleId)), NullText(TextOrEmpty(s.snapshotId)),
                         NullText(TextOrEmpty(s.digestAlgorithm)), NullText(TextOrEmpty(s.digest))) == s
  {
  }

  /** The metadata an export writes describes the document it was written for. */
  lemma DescribesItself(doc: Document, m: map<string, string>)
    requires DocumentValid(doc) && Binds(MetadataLines(doc), m)
    ensures Describe(m) == Some(doc.(rows := []))
  {
    MetadataReadsBack(doc);
    var lines := MetadataLines(doc);
    forall i | 0 <= i < 14 ensures KEYS[i] in m && m[KEYS[i]] == MetadataValues(doc)[i] {
      assert lines[i] in lines;
    }
    KeysDiffer();
    hide KEYS, Binds, MetadataLines, MetadataLine;
    assert seq(14, i requires 0 <= i < 14 => m[KEYS[i]]) == MetadataValues(doc);
    DescribesValues(doc);
  }

  lemma DescribesValues(doc: Document)
    requires DocumentValid(doc)
    ensures DescribeValues(MetadataValues(doc)) == Some(doc.(rows := []))
  {
    IsoRoundTrip(doc.createdAt);
    DecimalRoundTrip(doc.dimension.bandCount);
    SourceReturns(doc.source);
    hide IsoText, ParseIso, Decimal, Value, SourceValid, TextOrEmpty, NullText, Identifier;
  }

  lemma ConstantsArePlain()
    ensures PlainText("grouping_signal_csv_v1") && PlainText("1") && PlainText("grouping_signal_set")
            && PlainText("sha256")
    ensures PlainText("complete_signal") && PlainText("dimension_projection")
    ensures PlainText("teacher_authored") && PlainText("module_generated")
  {
  }

  lemma SourceTextIsPlain(s: SignalSource)
    requires SourceValid(s)
    ensures PlainText(TextOrEmpty(s.moduleId)) && PlainText(TextOrEmpty(s.snapshotId))
    ensures PlainText(TextOrEmpty(s.digestAlgorithm)) && PlainText(TextOrEmpty(s.digest))
  {
    ConstantsArePlain();
    hide Lowercase;
  }

  lemma ValuesArePlain(doc: Document)
    requires DocumentValid(doc)
    ensures forall i :: 0 <= i < 14 ==> PlainText(MetadataValues(doc)[i])
  {
    ConstantsArePlain();
    SourceTextIsPlain(doc.source);
    IsoRoundTrip(doc.createdAt);
    DigitsArePlain(Decimal(doc.dimension.bandCount));
    assert PlainText(doc.signalSetId) && PlainText(doc.classId) && PlainText(doc.dimension.dimensionId);
    assert PlainText(Decimal(doc.dimension.bandCount));
    hide PlainText, IsoText, Decimal, SourceValid, TextOrEmpty;
  }

  lemma LinesArePlain(doc: Document)
    requires DocumentValid(doc)
    ensures Writable(doc) && forall line :: line in DocumentLines(doc) ==> PlainText(line)
  {
    KeysDiffer();
    KeysArePlain();
    ValuesArePlain(doc);
    hide KEYS, MetadataValues, DocumentValid;
    forall i | 0 <= i < 14 ensures PlainText(WriteMetadata(KEYS[i], MetadataValues(doc)[i])) {
      assert KeyText(KEYS[i]);
      MetadataIsPlain(KEYS[i], MetadataValues(doc)[i]);
    }
    RowsArePlain(doc);
    HeaderIsPlain();
    hide PlainText, WriteMetadata, WriteRow, HEADER;
    var a, b := MetadataLines(doc), BodyLines(doc);
    assert AllPlain(a) && AllPlain(b);
    assert forall line :: line in a + b ==> PlainText(line);
  }

  ghost predicate AllPlain(lines: seq<string>) { forall k :: 0 <= k < |lines| ==> PlainText(lines[k]) }

  lemma HeaderIsPlain()
    ensures PlainText(HEADER) && !IsMetadata(HEADER)
  {
  }

  lemma MetadataIsPlain(key: string, value: string)
    requires KeyText(key) && PlainText(value)
    ensures PlainText(WriteMetadata(key, value))
  {
  }

  lemma RowsArePlain(doc: Document)
    requires DocumentValid(doc)
    ensures Writable(doc) && forall i :: 0 <= i < |doc.rows| ==> PlainText(WriteRow(doc.rows[i]))
  {
    forall i | 0 <= i < |doc.rows| ensures PlainText(WriteRow(doc.rows[i])) {
      RowRoundTrip(doc.rows[i], doc.dimension.bandCount);
    }
  }

  /** The header, the rows, and the nothing after the last line end. */
  function TableLines(doc: Document): (lines: seq<string>)
    requires Writable(doc)
    ensures lines != [] && lines[0] == HEADER
  {
    BodyLines(doc) + [""]
  }

  /** Exported lines, metadata in any order after the first, read back as their document. */
  lemma LinesReadBack(doc: Document, metadata: seq<string>)
    requires DocumentValid(doc)
    requires multiset(metadata) == multiset(MetadataLines(doc)) && metadata[0] == MetadataLines(doc)[0]
    ensures Writable(doc) && Reads(metadata + TableLines(doc), doc)
  {
    RowsReadBack(doc);
    MetadataReadsBack(doc);
    var m := Bound(doc);
    SameContents(metadata, MetadataLines(doc));
    assert MetadataLine(metadata[0]).value.key == "csv_contract" && MetadataLine(metadata[0]).Some?;
    hide KEYS, MetadataValues, MetadataLine, MetadataLines, DocumentValid, RowsRead, Describe, Binds;
    OrderOfMetadata(MetadataLines(doc), metadata, m);
    DescribesItself(doc, m);
    BoundLinesAreMetadata(metadata, m);
    HeaderIsPlain();
    TableReadsBack(doc, metadata, m);
  }

  lemma BoundLinesAreMetadata(lines: seq<string>, m: map<string, string>)
    requires Binds(lines, m)
    ensures forall k :: 0 <= k < |lines| ==> IsMetadata(lines[k])
  {
    assert forall k :: 0 <= k < |lines| ==> lines[k] in lines;
  }

  lemma TableReadsBack(doc: Document, metadata: seq<string>, m: map<string, string>)
    requires Writable(doc) && |metadata| == 14 && Binds(metadata, m) && Describe(m) == Some(doc.(rows := []))
    requires (forall k :: 0 <= k < 14 ==> IsMetadata(metadata[k])) && !IsMetadata(HEADER)
    requires MetadataLine(metadata[0]).Some? && MetadataLine(metadata[0]).value.key == "csv_contract"
    requires RowsRead(TableRecords(TableLines(doc)), doc.dimension.bandCount, doc.rows)
    ensures Reads(metadata + TableLines(doc), doc)
  {
    hide TableLines, MetadataLine, RowsRead, Describe, Binds, TableRecords, HEADER, IsMetadata, Reads, Writable;
    var table := TableLines(doc);
    var lines := metadata + table;
    LeadingMetadata(metadata, table);
    assert lines[..14] == metadata && lines[14..] == table && lines[0] == metadata[0];
    ReadsFrom(lines, 14, m, doc);
  }

  lemma ReadsFrom(lines: seq<string>, n: nat, m: map<string, string>, doc: Document)
    requires 0 < n < |lines| && Leading(lines) == n && Binds(lines[..n], m) && Describe(m) == Some(doc.(rows := []))
    requires MetadataLine(lines[0]).Some? && MetadataLine(lines[0]).value.key == "csv_contract"
    requires RowsRead(TableRecords(lines[n..]), doc.dimension.bandCount, doc.rows)
    ensures Reads(lines, doc)
  {
    hide MetadataLine, RowsRead, Describe, AllBind, TableRecords;
  }

  lemma Bound(doc: Document) returns (m: map<string, string>)
    requires Valid(doc.createdAt) && doc.dimension.bandCount >= 0
    ensures Binds(MetadataLines(doc), m)
  {
    hide KEYS, MetadataValues, MetadataLine, MetadataLines;
    MetadataReadsBack(doc);
    MetadataCount(doc);
    KeysDiffer();
    var lines := MetadataLines(doc);
    forall a, b | a in lines && b in lines && MetadataLine(a).value.key == MetadataLine(b).value.key ensures a == b {
      var i :| 0 <= i < 14 && lines[i] == a;
      var j :| 0 <= j < 14 && lines[j] == b;
    }
    m := map line | line in lines :: MetadataLine(line).value.key := MetadataLine(line).value.value;
  }

  lemma MetadataCount(doc: Document)
    requires Valid(doc.createdAt) && doc.dimension.bandCount >= 0
    ensures |MetadataLines(doc)| == 14
  {
    hide KEYS, MetadataValues;
  }

  lemma {:induction false} LeadingMetadata(metadata: seq<string>, rest: seq<string>)
    requires (forall k :: 0 <= k < |metadata| ==> IsMetadata(metadata[k])) && rest != [] && !IsMetadata(rest[0])
    ensures Leading(metadata + rest) == |metadata|
  {
    if metadata == [] {
      assert metadata + rest == rest;
    } else {
      assert (metadata + rest)[1..] == metadata[1..] + rest;
      LeadingMetadata(metadata[1..], rest);
    }
  }

  lemma RowsReadBack(doc: Document)
    requires DocumentValid(doc)
    ensures Writable(doc)
    ensures RowsRead(TableRecords(TableLines(doc)), doc.dimension.bandCount, doc.rows)
  {
    var table := TableLines(doc);
    assert table[..|table| - 1] == BodyLines(doc);
    forall i | 0 <= i < |doc.rows| ensures RowOf(WriteRow(doc.rows[i]), doc.dimension.bandCount) == Some(doc.rows[i]) {
      RowRoundTrip(doc.rows[i], doc.dimension.bandCount);
    }
  }
}
