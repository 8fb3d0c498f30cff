/** What comes back from exported signal CSV, however it was re-encoded or its metadata reordered. */
module SignalCsvRoundTrip {
  import opened Foundations
  import opened UtcText
  import opened Tables
  import opened GroupingSignals
  import opened SignalCsvText
  import opened SignalCsv

  // ------------------------------------------------------------ exported documents

  lemma SelectedDiffer(s: SignalSet, d: Dimension)
    requires SetValid(s) && d in s.dimensions
    ensures var selected := SelectedBands(s, d.dimensionId);
            && selected != []
            && (forall i, j :: 0 <= i < j < |selected| ==> selected[i].studentId != selected[j].studentId)
  {
    hide Identifier, SourceValid, Valid, Filter, SortBy;
    var keep := (b: StudentBand) => b.dimensionId == d.dimensionId;
    var bands, selected := s.studentBands, SelectedBands(s, d.dimensionId);
    FilterMembers(bands, keep);
    SortByContents(Filter(bands, keep), ByStudent);
    assert Represented(bands, d);
    var b :| b in bands && b.dimensionId == d.dimensionId;
    assert b in selected;
    DistinctBands(bands);
    DistinctByContents(Filter(bands, keep), selected);
    forall i, j | 0 <= i < j < |selected| ensures selected[i].studentId != selected[j].studentId {
      assert selected[i] in selected && selected[j] in selected && selected[i] != selected[j];
      OneBandPerKey(bands, selected[i], selected[j]);
    }
  }

  lemma DistinctBands(bands: seq<StudentBand>)
    requires BandsValid(bands)
    ensures Distinct(bands)
  {
  }

  lemma OneBandPerKey(bands: seq<StudentBand>, a: StudentBand, b: StudentBand)
    requires BandsValid(bands) && a in bands && b in bands && a != b
    ensures KeyOf(a) != KeyOf(b)
  {
    var x :| 0 <= x < |bands| && bands[x] == a;
    var y :| 0 <= y < |bands| && bands[y] == b;
    assert KeyOf(bands[x]) != KeyOf(bands[y]);
  }

  lemma ExportedIsValid(s: SignalSet, d: Dimension)
    requires SetValid(s) && d in s.dimensions
    ensures DocumentValid(DocumentOf(s, d))
  {
    hide Identifier, SourceValid, Valid, SelectedBands, Writable, BandsValid, WithinDeclared, Represented;
    SelectedDiffer(s, d);
    SelectedWritable(s, d);
    var selected, rows := SelectedBands(s, d.dimensionId), DocumentOf(s, d).rows;
    forall i | 0 <= i < |rows| ensures Identifier(rows[i].studentId) && 1 <= rows[i].band <= d.bandCount {
      assert selected[i] in selected;
      BandInRange(s, d, selected[i]);
    }
  }

  lemma BandInRange(s: SignalSet, d: Dimension, b: StudentBand)
    requires SetValid(s) && d in s.dimensions && b in s.studentBands && b.dimensionId == d.dimensionId
    ensures BandValid(b) && b.band <= d.bandCount
  {
    assert WithinDeclared(s.dimensions, b);
    OneSuchDimension(s, d);
  }

  // ------------------------------------------------------------------ re-encodings

  /** The same text with or without a byte-order mark, with LF or with CRLF line ends. */
  function Encode(text: string, bom: bool, crlf: bool): string {
    (if bom then [BOM] else []) + (if crlf then ToCrlf(text) else text)
  }

  lemma EncodingsAgree(text: string, bom: bool, crlf: bool)
    requires '\r' !in text && '\0' !in text && text != "" && text[0] != BOM
    ensures CsvText(Encode(text, bom, crlf)) == Some(text)
  {
    CrlfRoundTrip(text);
    var body := if crlf then ToCrlf(text) else text;
    assert body != "" && body[0] != BOM;
    assert [] + body == body && ([BOM] + body)[1..] == body;
    assert bom ==> Encode(text, bom, crlf)[0] == BOM;
  }

  lemma ReorderedOneWay(a: seq<string>, b: seq<string>, rest: seq<string>, doc: Document)
    requires (forall k :: 0 <= k < |a| ==> IsMetadata(a[k])) && (forall k :: 0 <= k < |b| ==> IsMetadata(b[k]))
    requires a != [] && b != [] && a[0] == b[0] && multiset(a) == multiset(b) && rest != [] && !IsMetadata(rest[0])
    requires Reads(a + rest, doc)
    ensures Reads(b + rest, doc)
  {
    LeadingMetadata(a, rest);
    LeadingMetadata(b, rest);
    SameContents(a, b);
    var n := |a|;
    assert (a + rest)[..n] == a && (a + rest)[n..] == rest && (b + rest)[..n] == b && (b + rest)[n..] == rest;
    hide MetadataLine, RowsRead, Describe, TableRecords, IsMetadata, AllBind;
    var m :| Binds(a, m) && Describe(m) == Some(doc.(rows := []));
    OrderOfMetadata(a, b, m);
    ReadsFrom(b + rest, n, m, doc);
  }

  /** For any text at all: the order of metadata lines after the first changes nothing. */
  lemma MetadataOrderDoesNotMatter(a: seq<string>, b: seq<string>, rest: seq<string>, doc: Document)
    requires (forall k :: 0 <= k < |a| ==> IsMetadata(a[k])) && (forall k :: 0 <= k < |b| ==> IsMetadata(b[k]))
    requires a != [] && b != [] && a[0] == b[0] && multiset(a) == multiset(b) && rest != [] && !IsMetadata(rest[0])
    ensures Reads(a + rest, doc) <==> Reads(b + rest, doc)
  {
    if Reads(a + rest, doc) { ReorderedOneWay(a, b, rest, doc); }
    if Reads(b + rest, doc) { ReorderedOneWay(b, a, rest, doc); }
  }

  lemma {:induction false} LeadingEnded(lines: seq<string>)
    ensures Leading(lines + [""]) == Leading(lines)
  {
    if lines == [] {
      assert lines + [""] == [""];
    } else {
      assert (lines + [""])[0] == lines[0] && (lines + [""])[1..] == lines[1..] + [""];
      LeadingEnded(lines[1..]);
    }
  }

  lemma EndedLinesRead(lines: seq<string>, doc: Document)
    requires lines != [] && lines[|lines| - 1] != ""
    ensures Reads(lines + [""], doc) <==> Reads(lines, doc)
  {
    hide MetadataLine, Describe, IsMetadata, AllBind, Leading, Binds;
    var more, n := lines + [""], Leading(lines);
    LeadingEnded(lines);
    assert more[..n] == lines[..n] && more[n..] == lines[n..] + [""];
    if n < |lines| {
      assert more[0] == lines[0];
      assert lines[n..][|lines[n..]| - 1] == lines[|lines| - 1];
      assert (lines[n..] + [""])[..|lines| - n] == lines[n..];
      assert TableRecords(more[n..]) == TableRecords(lines[n..]);
    } else {
      assert more[n..] == [""];
      assert TableRecords(more[n..]) == [];
    }
  }

  /** Whether the last line of a text is ended makes no difference. */
  lemma LastLineEndDoesNotMatter(data: string, doc: Document)
    requires CsvText(data).Some?
    requires var text := CsvText(data).value; text != "" && text[|text| - 1] != '\n'
    ensures Means(data + "\n", doc) <==> Means(data, doc)
  {
    hide Reads, SplitOn, ToLf;
    var text := CsvText(data).value;
    var body := if data != "" && data[0] == BOM then data[1..] else data;
    assert body != "" by { assert ToLf("") == Some("") by { EmptyToLf(); } }
    assert data != "" && (data + "\n")[0] == data[0] && (data[0] == BOM ==> (data + "\n")[1..] == body + "\n");
    EndedToLf(body);
    assert CsvText(data + "\n") == Some(text + "\n");
    assert text + "\n" == text + ['\n'];
    SplitEnded(text, '\n');
    EndedLinesRead(SplitOn(text, '\n'), doc);
  }

  lemma EmptyToLf()
    ensures ToLf("") == Some("")
  {
  }

  /** Exported text whose metadata lines after the first may have been reordered. */
  ghost predicate Reordered(lines: seq<string>, doc: Document)
    requires Writable(doc)
  {
    exists metadata | metadata != [] && multiset(metadata) == multiset(MetadataLines(doc)) ::
      metadata[0] == MetadataLines(doc)[0] && lines == metadata + BodyLines(doc)
  }

  /** `data` is an export of `doc`, reordered and re-encoded in any of the allowed ways. */
  ghost predicate Exported(data: string, doc: Document) {
    Writable(doc) && exists lines, bom, crlf :: Reordered(lines, doc) && data == Encode(JoinLines(lines), bom, crlf)
  }

  lemma {:induction false} JoinedIsPlain(lines: seq<string>)
    requires forall line :: line in lines ==> PlainText(line)
    ensures '\r' !in JoinLines(lines) && '\0' !in JoinLines(lines)
  {
    if lines != [] {
      assert lines[0] in lines && forall line :: line in lines[1..] ==> line in lines;
      JoinedIsPlain(lines[1..]);
    }
  }

  lemma FirstCharacter(doc: Document, lines: seq<string>)
    requires DocumentValid(doc) && Writable(doc) && Reordered(lines, doc)
    ensures JoinLines(lines) != "" && JoinLines(lines)[0] != BOM
  {
    KeyCount();
    hide MetadataValues;
    assert lines[0] == WriteMetadata(KEYS[0], MetadataValues(doc)[0]);
    assert lines[0][0] == '#';
  }

  lemma ReorderedIsPlain(doc: Document, lines: seq<string>)
    requires DocumentValid(doc) && Writable(doc) && Reordered(lines, doc)
    ensures forall line :: line in lines ==> PlainText(line)
  {
    LinesArePlain(doc);
    var metadata :| metadata != [] && multiset(metadata) == multiset(MetadataLines(doc))
                    && metadata[0] == MetadataLines(doc)[0] && lines == metadata + BodyLines(doc);
    SameContents(metadata, MetadataLines(doc));
    hide MetadataLines, BodyLines, PlainText, DocumentValid;
    assert forall line :: line in lines ==> line in DocumentLines(doc);
  }

  lemma LinesReturn(doc: Document, lines: seq<string>, bom: bool, crlf: bool)
    requires DocumentValid(doc) && Writable(doc) && Reordered(lines, doc)
    ensures var text := CsvText(Encode(JoinLines(lines), bom, crlf));
        text.Some? && SplitOn(text.value, '\n') == lines + [""]
  {
    ReorderedIsPlain(doc, lines);
    JoinedIsPlain(lines);
    FirstCharacter(doc, lines);
    hide DocumentValid, Reordered, Encode, CsvText, JoinLines;
    EncodingsAgree(JoinLines(lines), bom, crlf);
    SplitJoined(lines);
  }

  lemma ReorderedReads(doc: Document, lines: seq<string>)
    requires DocumentValid(doc) && Writable(doc) && Reordered(lines, doc)
    ensures Reads(lines + [""], doc)
  {
    hide DocumentValid, MetadataLines, BodyLines, Reads;
    var metadata :| metadata != [] && multiset(metadata) == multiset(MetadataLines(doc))
                    && metadata[0] == MetadataLines(doc)[0] && lines == metadata + BodyLines(doc);
    LinesReadBack(doc, metadata);
    LastLine(metadata, BodyLines(doc));
  }

  lemma LastLine(metadata: seq<string>, body: seq<string>)
    ensures metadata + body + [""] == metadata + (body + [""])
  {
  }

  /** Whatever was done to the text in between, it still says what was exported. */
  lemma ExportedMeans(data: string, doc: Document)
    requires DocumentValid(doc) && Exported(data, doc)
    ensures Means(data, doc)
  {
    var lines, bom, crlf :| Reordered(lines, doc) && data == Encode(JoinLines(lines), bom, crlf);
    hide DocumentValid, Reordered, Encode, CsvText, JoinLines, Reads, SplitOn;
    LinesReturn(doc, lines, bom, crlf);
    ReorderedReads(doc, lines);
  }

  lemma MeansOnce(data: string, a: Document, b: Document)
    requires Means(data, a) && Means(data, b)
    ensures a == b
  {
    ReadsOnce(SplitOn(CsvText(data).value, '\n'), a, b);
  }

  lemma PlainExport(doc: Document)
    requires Writable(doc)
    ensures Exported(JoinLines(DocumentLines(doc)), doc)
  {
    var lines := DocumentLines(doc);
    KeyCount();
    hide MetadataValues, KEYS, WriteMetadata;
    assert MetadataLines(doc) != [];
    assert Reordered(lines, doc);
    assert JoinLines(lines) == Encode(JoinLines(lines), false, false);
  }

  // -------------------------------------------------------------------- round trips

  /** `grouping_signal_set_from_csv`: parse, then convert. */
  method FromCsv(data: string, identity: Option<NewIdentity>) returns (result: Result<SignalSet, CsvError>)
    ensures forall doc | Means(data, doc) ::
      && (result.Success? <==>
            && (doc.scope.DimensionProjection? ==> identity.Some?)
            && (identity.Some? ==> identity.value.signalSetId != doc.signalSetId)
            && SetValid(SetOf(doc, identity)))
      && (result.Success? ==> result.value == Ordered(SetOf(doc, identity)))
      && (doc.scope.DimensionProjection? && identity.None? ==> result == Failure(NewIdentityRequired))
    ensures result.Success? ==> Canonical(result.value)
  {
    hide Means;
    var parsed := Parse(data);
    if parsed.Failure? { return Failure(parsed.error); }
    forall doc | Means(data, doc) ensures doc == parsed.value { MeansOnce(data, doc, parsed.value); }
    result := ToSignalSet(parsed.value, identity);
  }

  /** Rows turned back into bands of their dimension are the bands they came from. */
  lemma BandsReturn(s: SignalSet, d: Dimension, identity: Option<NewIdentity>)
    requires SetValid(s) && d in s.dimensions
    ensures SetOf(DocumentOf(s, d), identity).studentBands == SelectedBands(s, d.dimensionId)
  {
    SelectedWritable(s, d);
    var selected, bands := SelectedBands(s, d.dimensionId), SetOf(DocumentOf(s, d), identity).studentBands;
    hide SelectedBands, SetValid;
    forall i | 0 <= i < |selected| ensures bands[i] == selected[i] {
      assert selected[i] in selected;
    }
  }

  /** With one dimension, its bands are all bands, already in order. */
  lemma OneDimensionSelectsAll(s: SignalSet)
    requires Canonical(s) && |s.dimensions| == 1
    ensures SelectedBands(s, s.dimensions[0].dimensionId) == s.studentBands
  {
    var id := s.dimensions[0].dimensionId;
    var keep := (b: StudentBand) => b.dimensionId == id;
    forall b | b in s.studentBands ensures b.dimensionId == id { assert WithinDeclared(s.dimensions, b); }
    FilterEvery(s.studentBands, keep);
    CanonicalIsSorted(s);
    StrLeIsOrder();
    forall i, j | 0 <= i < j < |s.studentBands|
      ensures ByStudent(s.studentBands[i], s.studentBands[j]) && !ByStudent(s.studentBands[j], s.studentBands[i])
    {
      assert s.studentBands[i] in s.studentBands && s.studentBands[j] in s.studentBands;
      assert ByDimensionAndStudent(s.studentBands[i], s.studentBands[j]);
      assert KeyOf(s.studentBands[i]) != KeyOf(s.studentBands[j]);
    }
    AlreadyOrdered(s.studentBands, ByStudent);
  }

  lemma {:induction false} FilterEvery<T>(s: seq<T>, keep: T -> bool)
    requires forall x :: x in s ==> keep(x)
    ensures Filter(s, keep) == s
  {
    if s != [] {
      assert s[0] in s && forall x :: x in s[1..] ==> x in s;
      FilterEvery(s[1..], keep);
      assert s == [s[0]] + s[1..];
    }
  }

  /**
   A one-dimension set exported, re-encoded and reordered in any allowed way, and read
   again under its own identity, is the same set.
   */
  method CompleteRoundTrip(s: SignalSet, data: string) returns (back: Result<SignalSet, CsvError>)
    requires Canonical(s) && |s.dimensions| == 1 && Exported(data, DocumentOf(s, s.dimensions[0]))
    ensures back == Success(s)
  {
    back := FromCsv(data, None);
    ghost var d := s.dimensions[0];
    ExportedIsValid(s, d);
    ExportedMeans(data, DocumentOf(s, d));
    BandsReturn(s, d, None);
    OneDimensionSelectsAll(s);
    assert s.dimensions == [d];
    assert SetOf(DocumentOf(s, d), None) == s;
  }

  /** What a new identity makes of one dimension of a larger set. */
  function ProjectionOf(s: SignalSet, d: Dimension, identity: NewIdentity): SignalSet {
    SignalSet(identity.signalSetId, s.classId, identity.createdAt, s.source, [d], SelectedBands(s, d.dimensionId))
  }

  /**
   One dimension of several is a projection: it is refused under the exported identity, and
   under a new one it is exactly that dimension with exactly its students' bands.
   */
  method ProjectionRoundTrip(s: SignalSet, d: Dimension, data: string, identity: NewIdentity)
    returns (parsed: Result<Document, CsvError>, refused: Result<SignalSet, CsvError>,
             taken: Result<SignalSet, CsvError>)
    requires Canonical(s) && d in s.dimensions && |s.dimensions| > 1 && Exported(data, DocumentOf(s, d))
    requires Identifier(identity.signalSetId) && Valid(identity.createdAt)
    ensures parsed == Success(DocumentOf(s, d))
    ensures refused == Failure(NewIdentityRequired)
    ensures taken.Success? <==> identity.signalSetId != s.signalSetId
    ensures taken.Success? ==> taken.value == ProjectionOf(s, d, identity)
    ensures forall b :: b in ProjectionOf(s, d, identity).studentBands <==>
              b in s.studentBands && b.dimensionId == d.dimensionId
  {
    parsed := Parse(data);
    refused := FromCsv(data, None);
    taken := FromCsv(data, Some(identity));
    ExportedIsValid(s, d);
    ghost var doc := DocumentOf(s, d);
    ExportedMeans(data, doc);
    SelectedWritable(s, d);
    BandsReturn(s, d, Some(identity));
    ProjectionIsCanonical(s, d, identity);
    assert SetOf(doc, Some(identity)) == ProjectionOf(s, d, identity);
    assert doc.scope.DimensionProjection?;
    hide Means, Canonical, SetOf, ProjectionOf, Exported, SelectedBands;
    assert Means(data, parsed.value);
    MeansOnce(data, parsed.value, doc);
  }

  lemma ProjectionIsCanonical(s: SignalSet, d: Dimension, identity: NewIdentity)
    requires SetValid(s) && d in s.dimensions && Identifier(identity.signalSetId) && Valid(identity.createdAt)
    ensures Canonical(ProjectionOf(s, d, identity))
  {
    hide Identifier, SourceValid, Valid, SelectedBands, Filter, BandValid, BandsValid, DimensionsValid;
    var p := ProjectionOf(s, d, identity);
    ProjectedBands(s, d);
    BandsInOrder(p.studentBands);
    OneDimension(s, d);
    assert Ordered(p) == p;
  }

  lemma OneDimension(s: SignalSet, d: Dimension)
    requires SetValid(s) && d in s.dimensions
    ensures DimensionsValid([d]) && SortBy([d], ByDimension) == [d]
  {
  }

  lemma ProjectedBands(s: SignalSet, d: Dimension)
    requires SetValid(s) && d in s.dimensions
    ensures var bands := SelectedBands(s, d.dimensionId);
            && BandsValid(bands) && Sorted(bands, ByDimensionAndStudent) && Represented(bands, d)
            && (forall b :: b in bands ==> WithinDeclared([d], b))
  {
    hide Identifier, SourceValid, Valid, SelectedBands;
    var bands := SelectedBands(s, d.dimensionId);
    SelectedWritable(s, d);
    SelectedDiffer(s, d);
    SelectedInOrder(s, d);
    forall b | b in bands ensures BandValid(b) && WithinDeclared([d], b) {
      BandInRange(s, d, b);
      assert d in [d];
    }
    assert bands[0] in bands;
    BandsOfOneDimension(bands, d.dimensionId);
  }

  lemma SelectedInOrder(s: SignalSet, d: Dimension)
    ensures Sorted(SelectedBands(s, d.dimensionId), ByStudent)
  {
    StrLeIsOrder();
    SortBySorted(Filter(s.studentBands, (b: StudentBand) => b.dimensionId == d.dimensionId), ByStudent);
  }

  lemma BandsOfOneDimension(bands: seq<StudentBand>, id: string)
    requires bands != [] && forall b :: b in bands ==> b.dimensionId == id && BandValid(b)
    requires Sorted(bands, ByStudent)
    requires forall i, j :: 0 <= i < j < |bands| ==> bands[i].studentId != bands[j].studentId
    ensures BandsValid(bands) && Sorted(bands, ByDimensionAndStudent)
  {
    forall i, j | 0 <= i < j < |bands| ensures ByDimensionAndStudent(bands[i], bands[j]) {
      assert bands[i] in bands && bands[j] in bands && ByStudent(bands[i], bands[j]);
    }
  }

  /** The bytes the exporter itself writes are one of the texts the round trips are about. */
  method ExportThenImport(s: SignalSet) returns (text: Result<string, CsvError>, back: Result<SignalSet, CsvError>)
    requires Canonical(s) && |s.dimensions| == 1
    ensures text.Success? && back == Success(s)
  {
    var d := s.dimensions[0];
    assert d in s.dimensions;
    text := Export(s, d.dimensionId);
    SelectedWritable(s, d);
    PlainExport(DocumentOf(s, d));
    back := CompleteRoundTrip(s, text.value);
  }
}
