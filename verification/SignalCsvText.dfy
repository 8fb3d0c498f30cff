/** The text level of signal CSV: line endings, metadata lines, and the row table. */
module SignalCsvText {
  import opened Foundations
  import opened Decimals

  // ------------------------------------------------------------- splitting, joining

  /** Text between separators; always at least one piece. */
  function SplitOn(s: string, c: char): (parts: seq<string>)
    ensures parts != []
  {
    if s == "" then [""]
    else if s[0] == c then [""] + SplitOn(s[1..], c)
    else
      var rest := SplitOn(s[1..], c);
      [[s[0]] + rest[0]] + rest[1..]
  }

  function JoinLines(lines: seq<string>): string {
    if lines == [] then "" else lines[0] + "\n" + JoinLines(lines[1..])
  }

  lemma {:induction false} SplitFirst(line: string, c: char, rest: string)
    requires c !in line
    ensures SplitOn(line + [c] + rest, c) == [line] + SplitOn(rest, c)
  {
    var s := line + [c] + rest;
    if line == "" {
      assert s[1..] == rest;
    } else {
      assert s[1..] == line[1..] + [c] + rest && s[0] == line[0];
      SplitFirst(line[1..], c, rest);
      assert line == [line[0]] + line[1..];
    }
  }

  lemma {:induction false} SplitWhole(line: string, c: char)
    requires c !in line
    ensures SplitOn(line, c) == [line]
  {
    if line != "" {
      SplitWhole(line[1..], c);
      assert line == [line[0]] + line[1..];
    }
  }

  lemma StartsWithEnd(s: string, c: char)
    requires s != "" && s[0] == c
    ensures SplitOn(s, c) == [""] + SplitOn(s[1..], c)
  {
  }

  lemma StartsWithText(s: string, c: char)
    requires s != "" && s[0] != c
    ensures SplitOn(s, c) == [[s[0]] + SplitOn(s[1..], c)[0]] + SplitOn(s[1..], c)[1..]
  {
  }

  lemma {:induction false} SplitEnded(s: string, c: char)
    ensures SplitOn(s + [c], c) == SplitOn(s, c) + [""]
    ensures s != "" && s[|s| - 1] != c ==> SplitOn(s, c)[|SplitOn(s, c)| - 1] != ""
  {
    if s == "" {
      assert s + [c] == [c];
    } else {
      var rest := s[1..];
      var parts := SplitOn(rest, c);
      assert (s + [c])[0] == s[0] && (s + [c])[1..] == rest + [c];
      SplitEnded(rest, c);
      assert rest != "" ==> rest[|rest| - 1] == s[|s| - 1];
      hide SplitOn;
      if s[0] == c {
        StartsWithEnd(s, c);
        StartsWithEnd(s + [c], c);
        assert [""] + (parts + [""]) == ([""] + parts) + [""];
      } else {
        StartsWithText(s, c);
        StartsWithText(s + [c], c);
        assert (parts + [""])[1..] == parts[1..] + [""] && (parts + [""])[0] == parts[0];
      }
    }
  }

  lemma {:induction false} SplitJoined(lines: seq<string>)
    requires forall line :: line in lines ==> '\n' !in line
    ensures SplitOn(JoinLines(lines), '\n') == lines + [""]
  {
    if lines != [] {
      assert lines[0] in lines && forall line :: line in lines[1..] ==> line in lines;
      SplitJoined(lines[1..]);
      SplitFirst(lines[0], '\n', JoinLines(lines[1..]));
      assert lines[0] + "\n" + JoinLines(lines[1..]) == lines[0] + ['\n'] + JoinLines(lines[1..]);
    }
  }

  // ------------------------------------------------------------------- line endings

  const BOM: char := '\U{FEFF}'

  /** CRLF becomes LF; a carriage return on its own is refused. */
  function ToLf(s: string): Option<string> {
    if s == "" then Some("")
    else if s[0] == '\r' then
      if |s| == 1 || s[1] != '\n' then None
      else
        match ToLf(s[2..])
        case None => None
        case Some(rest) => Some("\n" + rest)
    else
      match ToLf(s[1..])
      case None => None
      case Some(rest) => Some([s[0]] + rest)
  }

  lemma {:induction false} EndedToLf(s: string)
    requires ToLf(s).Some?
    ensures ToLf(s + "\n") == Some(ToLf(s).value + "\n")
  {
    if s == "" {
      var t := s + "\n";
      assert t == "\n" && t[0] == '\n' && t[1..] == "";
      assert ToLf(t[1..]) == Some("");
      assert [t[0]] + "" == "\n";
    } else if s[0] == '\r' {
      var rest := ToLf(s[2..]).value;
      assert (s + "\n")[0] == s[0] && (s + "\n")[1] == s[1] && (s + "\n")[2..] == s[2..] + "\n";
      EndedToLf(s[2..]);
      assert "\n" + (rest + "\n") == ("\n" + rest) + "\n";
    } else {
      var rest := ToLf(s[1..]).value;
      assert (s + "\n")[0] == s[0] && (s + "\n")[1..] == s[1..] + "\n";
      EndedToLf(s[1..]);
      assert [s[0]] + (rest + "\n") == ([s[0]] + rest) + "\n";
    }
  }

  function ToCrlf(s: string): string {
    if s == "" then "" else (if s[0] == '\n' then "\r\n" else [s[0]]) + ToCrlf(s[1..])
  }

  lemma {:induction false} CrlfRoundTrip(s: string)
    requires '\r' !in s
    ensures ToLf(ToCrlf(s)) == Some(s) && ToLf(s) == Some(s)
    ensures '\0' !in s ==> '\0' !in ToCrlf(s)
  {
    if s != "" {
      CrlfRoundTrip(s[1..]);
      var t := ToCrlf(s);
      if s[0] == '\n' {
        assert t[0] == '\r' && t[1] == '\n' && t[2..] == ToCrlf(s[1..]);
      } else {
        assert t[0] == s[0] && t[1..] == ToCrlf(s[1..]);
      }
      assert s == [s[0]] + s[1..];
    }
  }

  /** `_csv_text`: an optional byte-order mark, no NUL, LF or CRLF endings. */
  function CsvText(data: string): Option<string> {
    var text := if data != "" && data[0] == BOM then data[1..] else data;
    if '\0' in text then None else ToLf(text)
  }

  // ----------------------------------------------------------------------- metadata

  const KEYS: seq<string> := [
    "csv_contract", "schema_version", "record_type", "representation_scope", "signal_set_id", "class_id", "created_at",
    "source.kind", "source.module_id", "source.snapshot_id", "source.snapshot_digest_algorithm",
    "source.snapshot_digest",
    "dimension_id", "band_count"]

  predicate KeyText(s: string) {
    s != "" && forall k :: 0 <= k < |s| ==> IdentifierChar(s[k]) || s[k] == '.'
  }

  lemma KeysArePlain()
    ensures |KEYS| == 14 && forall i :: 0 <= i < 14 ==> KeyText(KEYS[i])
  {
    PlainRecordKeys();
    PlainSourceKeys();
    hide KeyText;
  }

  lemma PlainRecordKeys()
    ensures KeyText("csv_contract") && KeyText("schema_version") && KeyText("record_type")
    ensures KeyText("representation_scope") && KeyText("signal_set_id") && KeyText("class_id") && KeyText("created_at")
    ensures KeyText("dimension_id") && KeyText("band_count")
  {
  }

  lemma PlainSourceKeys()
    ensures KeyText("source.kind") && KeyText("source.module_id") && KeyText("source.snapshot_id")
    ensures KeyText("source.snapshot_digest_algorithm") && KeyText("source.snapshot_digest")
  {
    PlainDigestKeys();
    assert KeyText("source.kind") && KeyText("source.module_id") && KeyText("source.snapshot_id");
    hide KeyText;
  }

  lemma PlainDigestKeys()
    ensures KeyText("source.snapshot_digest_algorithm") && KeyText("source.snapshot_digest")
  {
  }

  /** Length and first character tell the keys apart. */
  function KeyCode(s: string): int
    requires s != ""
  {
    1000 * |s| + s[0] as int
  }

  const CODES: seq<int> := [12099, 14115, 11114, 20114, 13115, 8099, 10099, 11115, 16115, 18115, 32115, 22115, 12100,
                            10098]

  lemma KeyCodes(i: nat)
    requires i < 14
    ensures |KEYS| == 14 && KEYS[i] != "" && KeyCode(KEYS[i]) == CODES[i]
  {
    hide KeyText;
    assert 'c' as int == 99 && 's' as int == 115 && 'r' as int == 114 && 'd' as int == 100 && 'b' as int == 98;
  }

  lemma KeysDiffer()
    ensures |KEYS| == 14 && Distinct(KEYS)
    ensures forall i :: 0 <= i < 14 ==> KEYS[i] != "" && '=' !in KEYS[i] && '\n' !in KEYS[i] && !Indented(KEYS[i])
  {
    KeysArePlain();
    forall i | 0 <= i < 14 ensures KEYS[i] != "" && KeyCode(KEYS[i]) == CODES[i] { KeyCodes(i); }
    hide KEYS;
    forall i | 0 <= i < 14 ensures '=' !in KEYS[i] && '\n' !in KEYS[i] && !Indented(KEYS[i]) {
      assert KeyText(KEYS[i]);
    }
    CodesDiffer();
    hide CODES;
    forall i, j | 0 <= i < j < 14 ensures KEYS[i] != KEYS[j] { assert CODES[i] != CODES[j]; }
  }

  lemma CodesDiffer()
    ensures Distinct(CODES)
  {
  }

  predicate Whitespace(c: char) {
    c == ' ' || c == '\t' || c == '\n' || c == '\r' || c == '\U{000B}' || c == '\U{000C}'
  }

  predicate Indented(s: string) { s != "" && (Whitespace(s[0]) || Whitespace(s[|s| - 1])) }

  predicate IsMetadata(line: string) { |line| >= 2 && line[0] == '#' && line[1] == ' ' }

  datatype Binding = Binding(key: string, value: string)

  /** Text before and after the first `=`. */
  function AtEquals(s: string): Option<Binding> {
    if s == "" then None
    else if s[0] == '=' then Some(Binding("", s[1..]))
    else
      match AtEquals(s[1..])
      case None => None
      case Some(b) => Some(Binding([s[0]] + b.key, b.value))
  }

  lemma {:induction false} AtEqualsOf(key: string, value: string)
    requires '=' !in key
    ensures AtEquals(key + "=" + value) == Some(Binding(key, value))
  {
    var s := key + "=" + value;
    if key == "" {
      assert s[0] == '=' && s[1..] == value;
    } else {
      assert s[0] == key[0] && s[1..] == key[1..] + "=" + value;
      AtEqualsOf(key[1..], value);
      assert key == [key[0]] + key[1..];
    }
  }

  /** `# key=value` with a known key. */
  function MetadataLine(line: string): Option<Binding> {
    if !IsMetadata(line) then None
    else
      match AtEquals(line[2..])
      case None => None
      case Some(b) => if b.key == "" || Indented(b.key) || b.key !in KEYS then None else Some(b)
  }

  function WriteMetadata(key: string, value: string): string { "# " + key + "=" + value }

  lemma MetadataRoundTrip(i: nat, value: string)
    requires i < 14
    ensures MetadataLine(WriteMetadata(KEYS[i], value)) == Some(Binding(KEYS[i], value))
  {
    KeysDiffer();
    hide KEYS;
    var line := WriteMetadata(KEYS[i], value);
    assert line[2..] == KEYS[i] + "=" + value;
    AtEqualsOf(KEYS[i], value);
    assert KEYS[i] in KEYS;
  }

  /** A line is metadata exactly when it is what would be written for a known key and some value. */
  lemma MetadataExactly(line: string, b: Binding)
    ensures MetadataLine(line) == Some(b) <==> b.key in KEYS && line == WriteMetadata(b.key, b.value)
  {
    KeysDiffer();
    hide KEYS;
    if b.key in KEYS && line == WriteMetadata(b.key, b.value) {
      var i :| 0 <= i < 14 && KEYS[i] == b.key;
      MetadataRoundTrip(i, b.value);
    }
    if MetadataLine(line) == Some(b) {
      AtEqualsJoins(line[2..]);
      assert line == "# " + line[2..];
    }
  }

  lemma {:induction false} AtEqualsJoins(s: string)
    ensures AtEquals(s).Some? ==> s == AtEquals(s).value.key + "=" + AtEquals(s).value.value
  {
    if s != "" && s[0] != '=' { AtEqualsJoins(s[1..]); }
  }

  /** How many lines lead the text as metadata. */
  function Leading(lines: seq<string>): (n: nat)
    ensures n <= |lines| && (forall k :: 0 <= k < n ==> IsMetadata(lines[k])) && (n < |lines| ==> !IsMetadata(lines[n]))
  {
    if lines == [] || !IsMetadata(lines[0]) then 0 else 1 + Leading(lines[1..])
  }

  ghost predicate AllBind(lines: seq<string>) {
    && (forall line :: line in lines ==> MetadataLine(line).Some?)
    && (forall i, j :: 0 <= i < j < |lines| && MetadataLine(lines[i]).Some? && MetadataLine(lines[j]).Some? ==>
          MetadataLine(lines[i]).value.key != MetadataLine(lines[j]).value.key)
  }

  /** `m` holds exactly the bindings of the lines. */
  ghost predicate Binds(lines: seq<string>, m: map<string, string>) {
    && AllBind(lines)
    && (forall line :: line in lines ==> MetadataLine(line).value.key in m
                                         && m[MetadataLine(line).value.key] == MetadataLine(line).value.value)
    && (forall key :: key in m ==> exists line :: line in lines && MetadataLine(line).value.key == key)
  }

  /** The order of metadata lines does not matter to what they bind. */
  lemma OrderOfMetadata(a: seq<string>, b: seq<string>, m: map<string, string>)
    requires multiset(a) == multiset(b) && Binds(a, m)
    ensures Binds(b, m)
  {
    hide MetadataLine;
    SameContents(a, b);
    DistinctLines(a);
    DistinctByContents(a, b);
    forall i, j | 0 <= i < j < |b| ensures MetadataLine(b[i]).value.key != MetadataLine(b[j]).value.key {
      assert b[i] in a && b[j] in a && b[i] != b[j];
      var x :| 0 <= x < |a| && a[x] == b[i];
      var y :| 0 <= y < |a| && a[y] == b[j];
      assert x < y || y < x;
    }
  }

  lemma DistinctLines(a: seq<string>)
    requires AllBind(a)
    ensures Distinct(a)
  {
    forall i, j | 0 <= i < j < |a| ensures a[i] != a[j] { assert a[i] in a && a[j] in a; }
  }

  lemma OneBinding(lines: seq<string>, m: map<string, string>, n: map<string, string>)
    requires Binds(lines, m) && Binds(lines, n)
    ensures m == n
  {
    assert m.Keys == n.Keys;
    forall key | key in m ensures m[key] == n[key] {
      var line :| line in lines && MetadataLine(line).value.key == key;
    }
  }

  datatype CsvError =
    | MissingContract | MalformedMetadata | MissingHeader | MissingKey | InvalidMetadata | InvalidHeader
    | InvalidRow | DuplicateStudent | BandOutOfRange | NoRows | QuotedField | UnreadableText
    | NewIdentityRequired | IdentityIncomplete | SameIdentity | InvalidSignal | UnknownDimension

  ghost predicate Splits(lines: seq<string>) {
    var n := Leading(lines);
    && 0 < n < |lines| && AllBind(lines[..n]) && MetadataLine(lines[0]).Some?
      && MetadataLine(lines[0]).value.key == "csv_contract"
  }

  /** The metadata loop: it stops at the first line that is not metadata, which is the header. */
  method SplitMetadata(lines: seq<string>) returns (result: Result<(map<string, string>, seq<string>), CsvError>)
    ensures result.Success? <==> Splits(lines)
    ensures result.Success? ==>
        Binds(lines[..Leading(lines)], result.value.0) && result.value.1 == lines[Leading(lines)..]
  {
    if lines == [] || lines[0] == "" { return Failure(MissingContract); }
    var metadata: map<string, string> := map[];
    var i := 0;
    LeadingIs(lines, 0);
    while i < |lines| && IsMetadata(lines[i])
      invariant 0 <= i <= Leading(lines) && Binds(lines[..i], metadata)
      invariant i > 0 ==> MetadataLine(lines[0]).Some? && MetadataLine(lines[0]).value.key == "csv_contract"
    {
      var binding := MetadataLine(lines[i]);
      LeadingIs(lines, i);
      if binding.None? {
        BadLine(lines, i);
        return Failure(MalformedMetadata);
      }
      if i == 0 && binding.value.key != "csv_contract" { return Failure(MissingContract); }
      if binding.value.key in metadata {
        RepeatedKey(lines, i, metadata);
        return Failure(MalformedMetadata);
      }
      BindOneMore(lines, i, metadata);
      metadata := metadata[binding.value.key := binding.value.value];
      i := i + 1;
    }
    if i == |lines| || i == 0 { return Failure(MissingHeader); }
    return Success((metadata, lines[i..]));
  }

  lemma {:induction false} LeadingIs(lines: seq<string>, i: nat)
    requires i <= Leading(lines)
    ensures i < |lines| ==> (i < Leading(lines) <==> IsMetadata(lines[i]))
  {
  }

  lemma BadLine(lines: seq<string>, i: nat)
    requires i < Leading(lines) && MetadataLine(lines[i]).None?
    ensures !Splits(lines)
  {
    assert lines[..Leading(lines)][i] == lines[i];
  }

  lemma RepeatedKey(lines: seq<string>, i: nat, m: map<string, string>)
    requires i < Leading(lines) && Binds(lines[..i], m) && MetadataLine(lines[i]).Some?
             && MetadataLine(lines[i]).value.key in m
    ensures !Splits(lines)
  {
    var line :| line in lines[..i] && MetadataLine(line).value.key == MetadataLine(lines[i]).value.key;
    var k :| 0 <= k < i && lines[..i][k] == line;
    var all := lines[..Leading(lines)];
    assert all[k] == line && all[i] == lines[i];
  }

  lemma BindOneMore(lines: seq<string>, i: nat, m: map<string, string>)
    requires i < |lines| && Binds(lines[..i], m) && MetadataLine(lines[i]).Some?
             && MetadataLine(lines[i]).value.key !in m
    ensures Binds(lines[..i + 1], m[MetadataLine(lines[i]).value.key := MetadataLine(lines[i]).value.value])
  {
    var more := lines[..i + 1];
    assert more == lines[..i] + [lines[i]];
    forall k | 0 <= k < i
      ensures MetadataLine(lines[k]).Some? && MetadataLine(lines[k]).value.key != MetadataLine(lines[i]).value.key
    {
      assert lines[..i][k] == lines[k] && lines[k] in lines[..i];
    }
    forall key | key in m ensures exists line :: line in more && MetadataLine(line).value.key == key {
      var line :| line in lines[..i] && MetadataLine(line).value.key == key;
      assert line in more;
    }
    assert lines[i] in more;
  }

  // --------------------------------------------------------------------------- rows

  datatype CsvRow = CsvRow(studentId: string, band: int)

  const HEADER: string := "student_id,band"

  predicate DecimalText(s: string) { s != "" && AllDigits(s) }

  /** One table line without quotes as a row, if it is one. */
  function RowOf(line: string, bandCount: int): Option<CsvRow> {
    var fields := SplitOn(line, ',');
    if |fields| != 2 || '"' in line || !Identifier(fields[0]) || !DecimalText(fields[1]) then None
    else if 1 <= Value(fields[1]) <= bandCount then Some(CsvRow(fields[0], Value(fields[1])))
    else None
  }

  function WriteRow(row: CsvRow): string
    requires row.band >= 0
  {
    row.studentId + "," + Decimal(row.band)
  }

  lemma RowRoundTrip(row: CsvRow, bandCount: int)
    requires Identifier(row.studentId) && 1 <= row.band <= bandCount
    ensures RowOf(WriteRow(row), bandCount) == Some(row)
    ensures '\n' !in WriteRow(row) && '\r' !in WriteRow(row) && '\0' !in WriteRow(row)
  {
    hide Identifier, SplitOn, Decimal, Value, AllDigits;
    var id, number := row.studentId, Decimal(row.band);
    IdentifierIsPlain(id);
    DigitsArePlain(number);
    assert WriteRow(row) == id + [','] + number;
    SplitFirst(id, ',', number);
    SplitWhole(number, ',');
    DecimalRoundTrip(row.band);
  }

  /** A line is a row exactly when it is an identifier and, after one comma, a number in range, leading zeros or not. */
  lemma RowExactly(line: string, bandCount: int, row: CsvRow)
    ensures RowOf(line, bandCount) == Some(row) <==>
            && Identifier(row.studentId) && 1 <= row.band <= bandCount
            && exists number :: DecimalText(number) && Value(number) == row.band && line == row.studentId + "," + number
  {
    hide Identifier, Value, AllDigits;
    if Identifier(row.studentId) && exists number ::
        DecimalText(number) && Value(number) == row.band && line == row.studentId + "," + number
    {
      var number :| DecimalText(number) && Value(number) == row.band && line == row.studentId + "," + number;
      IdentifierIsPlain(row.studentId);
      DigitsArePlain(number);
      assert line == row.studentId + [','] + number;
      SplitFirst(row.studentId, ',', number);
      SplitWhole(number, ',');
    }
    if RowOf(line, bandCount) == Some(row) {
      var fields := SplitOn(line, ',');
      SplitJoins(line, ',');
      assert line == row.studentId + "," + fields[1];
    }
  }

  lemma {:induction false} SplitJoins(s: string, c: char)
    ensures |SplitOn(s, c)| == 2 ==> s == SplitOn(s, c)[0] + [c] + SplitOn(s, c)[1]
    ensures |SplitOn(s, c)| == 1 ==> s == SplitOn(s, c)[0]
  {
    if s != "" { SplitJoins(s[1..], c); }
  }

  /** Identifiers never contain a separator, a quote or a line end. */
  lemma IdentifierIsPlain(s: string)
    requires Identifier(s)
    ensures ',' !in s && '"' !in s && '\n' !in s && '\r' !in s && '\0' !in s
  {
  }

  lemma DigitsArePlain(s: string)
    requires AllDigits(s)
    ensures ',' !in s && '"' !in s && '\n' !in s && '\r' !in s && '\0' !in s
  {
  }

  /** A trailing line end closes the last record; it does not begin another. */
  function TableRecords(lines: seq<string>): seq<string> {
    if lines != [] && lines[|lines| - 1] == "" then lines[..|lines| - 1] else lines
  }

  ghost predicate RowsRead(records: seq<string>, bandCount: int, rows: seq<CsvRow>) {
    && |records| == |rows| + 1 && records[0] == HEADER && rows != []
    && (forall i :: 0 <= i < |rows| ==> RowOf(records[i + 1], bandCount) == Some(rows[i]))
    && (forall i, j :: 0 <= i < j < |rows| ==> rows[i].studentId != rows[j].studentId)
  }

  ghost predicate Seen(rows: seq<CsvRow>, seen: set<string>) {
    forall id :: id in seen <==> exists k :: 0 <= k < |rows| && rows[k].studentId == id
  }

  lemma SeenOneMore(rows: seq<CsvRow>, seen: set<string>, row: CsvRow)
    requires Seen(rows, seen)
    ensures Seen(rows + [row], seen + {row.studentId})
  {
    var more := rows + [row];
    assert more[|rows|].studentId == row.studentId;
    forall id | id in seen ensures exists k :: 0 <= k < |more| && more[k].studentId == id {
      var k :| 0 <= k < |rows| && rows[k].studentId == id;
      assert more[k].studentId == id;
    }
  }

  method ParseRows(lines: seq<string>, bandCount: int) returns (result: Result<seq<CsvRow>, CsvError>)
    ensures result.Success? <==> exists rows :: RowsRead(TableRecords(lines), bandCount, rows)
    ensures result.Success? ==> RowsRead(TableRecords(lines), bandCount, result.value)
  {
    var records := TableRecords(lines);
    if records == [] { return Failure(MissingHeader); }
    if records[0] != HEADER { return Failure(InvalidHeader); }
    var rows: seq<CsvRow> := [];
    var seen: set<string> := {};
    for i := 1 to |records|
      invariant |rows| == i - 1
      invariant forall k :: 0 <= k < |rows| ==> RowOf(records[k + 1], bandCount) == Some(rows[k])
      invariant forall j, k :: 0 <= j < k < |rows| ==> rows[j].studentId != rows[k].studentId
      invariant Seen(rows, seen)
    {
      var line := records[i];
      var fields := SplitOn(line, ',');
      NotARow(records, bandCount, i);
      if '"' in line { return Failure(QuotedField); }
      if line == "" || |fields| != 2 || !Identifier(fields[0]) { return Failure(InvalidRow); }
      if fields[0] in seen {
        RepeatedStudent(records, bandCount, rows, i);
        return Failure(DuplicateStudent);
      }
      if !DecimalText(fields[1]) { return Failure(InvalidRow); }
      var band := Value(fields[1]);
      if band < 1 || band > bandCount { return Failure(BandOutOfRange); }
      assert RowOf(records[i], bandCount) == Some(CsvRow(fields[0], band));
      SeenOneMore(rows, seen, CsvRow(fields[0], band));
      seen := seen + {fields[0]};
      rows := rows + [CsvRow(fields[0], band)];
    }
    if rows == [] { return Failure(NoRows); }
    assert RowsRead(records, bandCount, rows);
    return Success(rows);
  }

  lemma RepeatedStudent(records: seq<string>, bandCount: int, rows: seq<CsvRow>, i: nat)
    requires 1 <= i < |records| && |rows| == i - 1
    requires forall k :: 0 <= k < |rows| ==> RowOf(records[k + 1], bandCount) == Some(rows[k])
    requires exists k :: 0 <= k < |rows| && rows[k].studentId == SplitOn(records[i], ',')[0]
    ensures forall all :: !RowsRead(records, bandCount, all)
  {
    var k :| 0 <= k < |rows| && rows[k].studentId == SplitOn(records[i], ',')[0];
    forall all ensures !RowsRead(records, bandCount, all) {
      if RowsRead(records, bandCount, all) { ReadAt(records, bandCount, all, k, i - 1); }
    }
  }

  lemma ReadAt(records: seq<string>, bandCount: int, rows: seq<CsvRow>, j: nat, k: nat)
    requires RowsRead(records, bandCount, rows) && j < k < |rows|
    ensures RowOf(records[j + 1], bandCount) == Some(rows[j]) && RowOf(records[k + 1], bandCount) == Some(rows[k])
    ensures rows[j].studentId != rows[k].studentId
  {
  }

  lemma ReadOne(records: seq<string>, bandCount: int, rows: seq<CsvRow>, k: nat)
    requires RowsRead(records, bandCount, rows) && k < |rows|
    ensures RowOf(records[k + 1], bandCount) == Some(rows[k])
  {
  }

  lemma NotARow(records: seq<string>, bandCount: int, i: nat)
    requires 1 <= i < |records|
    ensures RowOf(records[i], bandCount).None? ==> forall rows :: !RowsRead(records, bandCount, rows)
  {
    forall rows ensures RowsRead(records, bandCount, rows) ==> RowOf(records[i], bandCount).Some? {
      if RowsRead(records, bandCount, rows) { ReadOne(records, bandCount, rows, i - 1); }
    }
  }

  lemma OneReading(records: seq<string>, bandCount: int, a: seq<CsvRow>, b: seq<CsvRow>)
    requires RowsRead(records, bandCount, a) && RowsRead(records, bandCount, b)
    ensures a == b
  {
    forall i | 0 <= i < |a| ensures a[i] == b[i] { assert RowOf(records[i + 1], bandCount) == Some(a[i]); }
  }
}
