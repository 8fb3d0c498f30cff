/** Class rosters: row validation, the table a roster is written as, and reading it back. */
module Rosters {
  import opened Foundations
  import opened Tables

  datatype StudentRecord = StudentRecord(
    classId: string,
    studentId: string,
    lastName: string,
    firstName: string,
    period: string,
    extraFields: map<string, string>)

  datatype Roster = Roster(classId: string, students: seq<StudentRecord>, columns: seq<string>)

  const REQUIRED: seq<string> := ["class_id", "student_id", "last_name", "first_name", "period"]

  predicate Required(column: string) {
    column == "class_id" || column == "student_id" || column == "last_name" || column == "first_name"
      || column == "period"
  }

  lemma RequiredIsListed()
    ensures forall c :: c in REQUIRED <==> Required(c)
  {
    assert REQUIRED[0] == "class_id" && REQUIRED[1] == "student_id" && REQUIRED[2] == "last_name";
    assert REQUIRED[3] == "first_name" && REQUIRED[4] == "period";
  }

  // ------------------------------------------------------------------------- text

  /** The characters `str.strip` removes. */
  predicate Space(c: char) {
    || '\t' <= c <= '\r' || '\U{1c}' <= c <= ' ' || c == '\U{85}' || c == '\U{a0}' || c == '\U{1680}'
    || '\U{2000}' <= c <= '\U{200a}' || c == '\U{2028}' || c == '\U{2029}' || c == '\U{202f}' || c == '\U{205f}'
      || c == '\U{3000}'
  }

  /** The same characters, one by one. */
  lemma SpaceExactly(c: char)
    ensures Space(c) <==> c as int in {
              0x09, 0x0a, 0x0b, 0x0c, 0x0d, 0x1c, 0x1d, 0x1e, 0x1f, 0x20, 0x85, 0xa0, 0x1680, 0x2000, 0x2001, 0x2002,
              0x2003, 0x2004, 0x2005, 0x2006, 0x2007, 0x2008, 0x2009, 0x200a, 0x2028, 0x2029, 0x202f, 0x205f, 0x3000}
  {
  }

  predicate Trimmed(s: string) { s == "" || (!Space(s[0]) && !Space(s[|s| - 1])) }

  function Strip(s: string): (t: string)
    ensures Trimmed(t) && (Trimmed(s) ==> t == s)
  {
    if s == "" then ""
    else if Space(s[0]) then Strip(s[1..])
    else if Space(s[|s| - 1]) then Strip(s[..|s| - 1])
    else s
  }

  // ------------------------------------------------------------- what is acceptable

  type Row = map<string, string>

  /** A row may carry a value under the header as written or under its stripped name. */
  function RowValue(row: Row, column: string): Option<string> {
    if column in row then Some(row[column])
    else if Strip(column) in row then Some(row[Strip(column)])
    else None
  }

  function TextAt(row: Row, column: string): string {
    var value := RowValue(row, column);
    if value.None? then "" else Strip(value.value)
  }

  /** Stripped values under stripped names. */
  function Values(columns: seq<string>, row: Row): map<string, string> {
    if columns == [] then map[]
    else
      var n := |columns| - 1;
      Values(columns[..n], row)[Strip(columns[n]) := TextAt(row, columns[n])]
  }

  function Names(columns: seq<string>): seq<string> { Map(columns, Strip) }

  /** `stripped` says under the stripped names what `row` says under the headers as written. */
  ghost predicate Stripped(columns: seq<string>, row: Row, stripped: Row) {
    && (forall c :: c in stripped <==> c in Names(columns))
    && (forall k :: 0 <= k < |columns| ==>
          columns[k] in row && Strip(columns[k]) in stripped && stripped[Strip(columns[k])] == row[columns[k]])
  }

  /** Rows keyed either way are read alike. */
  lemma StrippedRowsReadAlike(columns: seq<string>, row: Row, stripped: Row)
    requires Distinct(Names(columns)) && Stripped(columns, row, stripped)
    ensures Values(columns, stripped) == Values(columns, row)
    ensures forall k :: 0 <= k < |columns| ==> RowValue(stripped, columns[k]) == Some(row[columns[k]])
  {
    hide Strip;
    forall k | 0 <= k < |columns| ensures RowValue(stripped, columns[k]) == Some(row[columns[k]]) {
      if columns[k] in stripped {
        var j :| 0 <= j < |columns| && Names(columns)[j] == columns[k];
        assert Strip(columns[j]) == columns[k] && Trimmed(columns[k]);
        assert Names(columns)[k] == Strip(columns[k]) == columns[k];
        assert j == k;
      }
    }
    SameReadings(columns, row, stripped);
  }

  lemma {:induction false} SameReadings(columns: seq<string>, row: Row, other: Row)
    requires forall k :: 0 <= k < |columns| ==> RowValue(other, columns[k]) == RowValue(row, columns[k])
    ensures Values(columns, other) == Values(columns, row)
  {
    if columns != [] { SameReadings(columns[..|columns| - 1], row, other); }
  }

  ghost predicate HeadersValid(columns: seq<string>) {
    && Distinct(Names(columns)) && "" !in Names(columns)
    && (forall c :: Required(c) ==> c in Names(columns))
  }

  ghost predicate FieldsPresent(columns: seq<string>, row: Row) {
    forall k :: 0 <= k < |columns| && Required(Strip(columns[k])) ==> RowValue(row, columns[k]).Some?
  }

  function Text(values: map<string, string>, column: string): string {
    if column in values then values[column] else ""
  }

  function ClassIn(columns: seq<string>, row: Row): string { Text(Values(columns, row), "class_id") }

  function StudentIn(columns: seq<string>, row: Row): string { Text(Values(columns, row), "student_id") }

  /** One row on its own: every required field present and not blank, both identifiers valid. */
  ghost predicate RowAcceptable(columns: seq<string>, row: Row) {
    && FieldsPresent(columns, row)
    && (forall c :: Required(c) ==> Text(Values(columns, row), c) != "")
    && Identifier(ClassIn(columns, row)) && Identifier(StudentIn(columns, row))
  }

  /** The rows together: one class, no student twice. */
  ghost predicate RowsAgree(columns: seq<string>, rows: seq<Row>) {
    && (forall i :: 0 <= i < |rows| ==> RowAcceptable(columns, rows[i]))
    && (forall i :: 0 <= i < |rows| ==> ClassIn(columns, rows[i]) == ClassIn(columns, rows[0]))
    && (forall i, j :: 0 <= i < j < |rows| ==> StudentIn(columns, rows[i]) != StudentIn(columns, rows[j]))
  }

  ghost predicate Acceptable(columns: seq<string>, rows: seq<Row>) {
    HeadersValid(columns) && rows != [] && RowsAgree(columns, rows)
  }

  function StudentFrom(values: map<string, string>): StudentRecord {
    StudentRecord(Text(values, "class_id"), Text(values, "student_id"), Text(values, "last_name"),
                  Text(values, "first_name"), Text(values, "period"),
                  map c | c in values && !Required(c) :: values[c])
  }

  function StudentsFrom(columns: seq<string>, rows: seq<Row>): seq<StudentRecord> {
    seq(|rows|, i requires 0 <= i < |rows| => StudentFrom(Values(columns, rows[i])))
  }

  /** The roster acceptable rows stand for. */
  ghost function Reading(columns: seq<string>, rows: seq<Row>): Option<Roster> {
    if Acceptable(columns, rows) then
      Some(Roster(ClassIn(columns, rows[0]), StudentsFrom(columns, rows), Names(columns)))
    else None
  }

  // --------------------------------------------------------------------- the issues

  datatype IssueCode =
    | BlankHeader | DuplicateHeader | MissingRequiredColumn | EmptyRoster
    | MissingRequiredField | BlankRequiredValue | MalformedRow | UnsupportedField | InconsistentRosterClass
    | InvalidClassId | InconsistentClassId | InvalidStudentId | DuplicateStudentId

  /** `row` counts from zero; header issues have none. */
  datatype Issue = Issue(code: IssueCode, row: nat, column: string)

  ghost predicate EarlierClass(columns: seq<string>, rows: seq<Row>, i: nat, id: string) {
    exists j :: 0 <= j < i && j < |rows| && ClassIn(columns, rows[j]) == id && Identifier(id)
  }

  ghost predicate EarlierStudent(columns: seq<string>, rows: seq<Row>, i: nat, id: string) {
    exists j :: 0 <= j < i && j < |rows| && StudentIn(columns, rows[j]) == id
  }

  /** What each reported issue asserts about the input. */
  ghost predicate RowIssueIsReal(columns: seq<string>, rows: seq<Row>, issue: Issue) {
    && issue.row < |rows|
    && var row := rows[issue.row];
       match issue.code
       case MissingRequiredField =>
         Required(issue.column) && exists k ::
             0 <= k < |columns| && Strip(columns[k]) == issue.column && RowValue(row, columns[k]).None?
       case BlankRequiredValue => Required(issue.column) && Text(Values(columns, row), issue.column) == ""
       case InvalidClassId => ClassIn(columns, row) != "" && !Identifier(ClassIn(columns, row))
       case InconsistentClassId =>
         exists id :: EarlierClass(columns, rows, issue.row, id) && id != ClassIn(columns, row)
       case InvalidStudentId => StudentIn(columns, row) != "" && !Identifier(StudentIn(columns, row))
       case DuplicateStudentId => EarlierStudent(columns, rows, issue.row, StudentIn(columns, row))
       case _ => false
  }

  ghost predicate HeaderIssueIsReal(columns: seq<string>, issue: Issue) {
    match issue.code
    case BlankHeader => "" in Names(columns)
    case DuplicateHeader => exists i, j ::
        0 <= i < j < |columns| && Strip(columns[i]) == Strip(columns[j]) == issue.column
    case MissingRequiredColumn => Required(issue.column) && issue.column !in Names(columns)
    case _ => false
  }

  ghost predicate IssueIsReal(columns: seq<string>, rows: seq<Row>, issue: Issue) {
    HeaderIssueIsReal(columns, issue) || RowIssueIsReal(columns, rows, issue) || (issue.code.EmptyRoster? && rows == [])
  }

  // ----------------------------------------------------------------- the validator

  ghost predicate HeaderIssuesAreReal(columns: seq<string>, issues: seq<Issue>) {
    forall issue :: issue in issues ==> HeaderIssueIsReal(columns, issue)
  }

  ghost predicate NamesGood(names: seq<string>) { Distinct(names) && "" !in names }

  lemma OneMoreName(names: seq<string>, name: string)
    ensures NamesGood(names + [name]) <==> NamesGood(names) && name != "" && name !in names
    ensures NamesGood([])
  {
    var more := names + [name];
    assert more[..|names|] == names && more[|names|] == name;
    assert forall c :: c in more <==> c in names || c == name;
    if NamesGood(more) {
      forall i, j | 0 <= i < j < |names| ensures names[i] != names[j] { assert more[i] != more[j]; }
    }
  }

  lemma NameClash(columns: seq<string>, k: nat)
    requires k < |columns| && Strip(columns[k]) in Names(columns)[..k]
    ensures HeaderIssueIsReal(columns, Issue(DuplicateHeader, 0, Strip(columns[k])))
  {
    var j :| 0 <= j < k && Names(columns)[..k][j] == Strip(columns[k]);
    assert Names(columns)[j] == Strip(columns[j]);
  }

  lemma BlankName(columns: seq<string>, k: nat)
    requires k < |columns| && Strip(columns[k]) == ""
    ensures HeaderIssueIsReal(columns, Issue(BlankHeader, 0, ""))
  {
    assert Names(columns)[k] == "";
  }

  method CheckNames(columns: seq<string>) returns (issues: seq<Issue>, seen: set<string>)
    ensures issues == [] <==> NamesGood(Names(columns))
    ensures forall c :: c in seen <==> c in Names(columns)
    ensures HeaderIssuesAreReal(columns, issues)
  {
    hide NamesGood, HeaderIssueIsReal, Strip;
    issues, seen := [], {};
    OneMoreName([], "");
    assert Names(columns)[..0] == [];
    for k := 0 to |columns|
      invariant HeaderIssuesAreReal(columns, issues)
      invariant forall c :: c in seen <==> c in Names(columns)[..k]
      invariant issues == [] <==> NamesGood(Names(columns)[..k])
    {
      var trimmed := Strip(columns[k]);
      assert Names(columns)[..k + 1] == Names(columns)[..k] + [trimmed];
      OneMoreName(Names(columns)[..k], trimmed);
      if trimmed == "" {
        BlankName(columns, k);
        issues := issues + [Issue(BlankHeader, 0, "")];
      } else if trimmed in seen {
        NameClash(columns, k);
        issues := issues + [Issue(DuplicateHeader, 0, trimmed)];
      }
      seen := seen + {trimmed};
    }
    assert Names(columns)[..|columns|] == Names(columns);
  }

  method ValidateColumns(columns: seq<string>) returns (issues: seq<Issue>)
    ensures issues == [] <==> HeadersValid(columns)
    ensures HeaderIssuesAreReal(columns, issues)
  {
    hide NamesGood;
    var seen;
    issues, seen := CheckNames(columns);
    RequiredIsListed();
    for k := 0 to |REQUIRED|
      invariant HeaderIssuesAreReal(columns, issues)
      invariant issues == [] <==> NamesGood(Names(columns)) && forall t :: 0 <= t < k ==> REQUIRED[t] in Names(columns)
    {
      assert REQUIRED[k] in REQUIRED;
      if REQUIRED[k] !in seen { issues := issues + [Issue(MissingRequiredColumn, 0, REQUIRED[k])]; }
    }
    HeadersAre(columns);
  }

  lemma HeadersAre(columns: seq<string>)
    ensures HeadersValid(columns) <==>
              NamesGood(Names(columns)) && forall t :: 0 <= t < |REQUIRED| ==> REQUIRED[t] in Names(columns)
  {
    RequiredIsListed();
    if forall t :: 0 <= t < |REQUIRED| ==> REQUIRED[t] in Names(columns) {
      forall c | Required(c) ensures c in Names(columns) {
        assert c in REQUIRED;
        var t :| 0 <= t < |REQUIRED| && REQUIRED[t] == c;
      }
    } else {
      var t :| 0 <= t < |REQUIRED| && REQUIRED[t] !in Names(columns);
      assert REQUIRED[t] in REQUIRED;
    }
  }

  ghost predicate RowIssuesAreReal(columns: seq<string>, rows: seq<Row>, issues: seq<Issue>) {
    forall issue :: issue in issues ==> RowIssueIsReal(columns, rows, issue)
  }

  lemma FreshName(columns: seq<string>, row: Row, k: nat)
    requires HeadersValid(columns) && k < |columns|
    ensures Text(Values(columns[..k], row), Strip(columns[k])) == ""
    ensures Values(columns[..k + 1], row) == Values(columns[..k], row)[Strip(columns[k]) := TextAt(row, columns[k])]
  {
    assert columns[..k + 1][..k] == columns[..k];
    ValueNames(columns[..k], row);
    assert forall j :: 0 <= j < k ==>
        Names(columns)[j] != Names(columns)[k] && Names(columns[..k])[j] == Names(columns)[j];
  }

  lemma {:induction false} ValueNames(columns: seq<string>, row: Row)
    ensures forall c :: c in Values(columns, row) <==> c in Names(columns)
  {
    if columns != [] {
      var n := |columns| - 1;
      ValueNames(columns[..n], row);
      assert Names(columns) == Names(columns[..n]) + [Strip(columns[n])];
    } else {
      assert Names(columns) == [];
    }
  }

  /** The values of one row; a missing required field has none. */
  method ReadValues(columns: seq<string>, rows: seq<Row>, i: nat)
    returns (issues: seq<Issue>, invalid: set<string>, values: map<string, string>)
    requires HeadersValid(columns) && i < |rows|
    ensures issues == [] <==> FieldsPresent(columns, rows[i])
    ensures issues == [] <==> invalid == {}
    ensures issues == [] ==> values == Values(columns, rows[i])
    ensures forall c :: Text(values, c) == Text(Values(columns, rows[i]), c)
    ensures RowIssuesAreReal(columns, rows, issues)
  {
    hide HeadersValid, Strip, FieldsPresent, Values, RowIssueIsReal;
    var row := rows[i];
    issues, invalid, values := [], {}, map[];
    NoFields(columns[..0], row);
    for k := 0 to |columns|
      invariant issues == [] <==> FieldsPresent(columns[..k], row)
      invariant issues == [] <==> invalid == {}
      invariant issues == [] ==> values == Values(columns[..k], row)
      invariant forall c :: Text(values, c) == Text(Values(columns[..k], row), c)
      invariant RowIssuesAreReal(columns, rows, issues)
    {
      var column := Strip(columns[k]);
      FreshName(columns, row, k);
      OneMoreField(columns, row, k);
      var value := RowValue(row, columns[k]);
      if value.None? && Required(column) {
        MissingFieldIsReal(columns, rows, i, k);
        issues, invalid := issues + [Issue(MissingRequiredField, i, column)], invalid + {column};
      } else {
        values := values[column := TextAt(row, columns[k])];
      }
    }
    assert columns[..|columns|] == columns;
  }

  lemma NoFields(columns: seq<string>, row: Row)
    requires columns == []
    ensures FieldsPresent(columns, row) && Values(columns, row) == map[]
  {
  }

  lemma MissingFieldIsReal(columns: seq<string>, rows: seq<Row>, i: nat, k: nat)
    requires i < |rows| && k < |columns| && RowValue(rows[i], columns[k]).None? && Required(Strip(columns[k]))
    ensures RowIssueIsReal(columns, rows, Issue(MissingRequiredField, i, Strip(columns[k])))
  {
  }

  lemma OneMoreField(columns: seq<string>, row: Row, k: nat)
    requires k < |columns|
    ensures FieldsPresent(columns[..k + 1], row) <==>
              FieldsPresent(columns[..k], row) && (Required(Strip(columns[k])) ==> RowValue(row, columns[k]).Some?)
  {
    assert columns[..k + 1] == columns[..k] + [columns[k]];
    forall j | 0 <= j < k ensures columns[..k + 1][j] == columns[..k][j] {}
  }

  ghost predicate FieldsFilled(columns: seq<string>, row: Row) {
    forall c :: Required(c) ==> Text(Values(columns, row), c) != ""
  }

  method CheckBlanks(columns: seq<string>, rows: seq<Row>, i: nat, values: map<string, string>, before: seq<Issue>,
                     missing: set<string>)
    returns (issues: seq<Issue>, invalid: set<string>)
    requires i < |rows| && forall c :: Text(values, c) == Text(Values(columns, rows[i]), c)
    requires before == [] <==> missing == {}
    requires RowIssuesAreReal(columns, rows, before)
    ensures issues == [] <==> before == [] && FieldsFilled(columns, rows[i])
    ensures issues == [] <==> invalid == {}
    ensures RowIssuesAreReal(columns, rows, issues)
  {
    issues, invalid := before, missing;
    RequiredIsListed();
    for k := 0 to |REQUIRED|
      invariant issues == [] <==> before == [] && forall t :: 0 <= t < k ==> Text(values, REQUIRED[t]) != ""
      invariant issues == [] <==> invalid == {}
      invariant RowIssuesAreReal(columns, rows, issues)
    {
      var column := REQUIRED[k];
      assert column in REQUIRED;
      if column !in invalid && Text(values, column) == "" {
        assert RowIssueIsReal(columns, rows, Issue(BlankRequiredValue, i, column));
        issues, invalid := issues + [Issue(BlankRequiredValue, i, column)], invalid + {column};
      }
    }
    AllFilled(columns, rows[i]);
  }

  lemma AllFilled(columns: seq<string>, row: Row)
    ensures FieldsFilled(columns, row) <==> forall t :: 0 <= t < |REQUIRED| ==>
              Text(Values(columns, row), REQUIRED[t]) != ""
  {
    RequiredIsListed();
    if forall t :: 0 <= t < |REQUIRED| ==> Text(Values(columns, row), REQUIRED[t]) != "" {
      forall c | Required(c) ensures Text(Values(columns, row), c) != "" {
        assert c in REQUIRED;
        var t :| 0 <= t < |REQUIRED| && REQUIRED[t] == c;
      }
    } else {
      var t :| 0 <= t < |REQUIRED| && Text(Values(columns, row), REQUIRED[t]) == "";
      assert REQUIRED[t] in REQUIRED;
    }
  }

  ghost predicate Tracked(columns: seq<string>, rows: seq<Row>, i: nat, expected: Option<string>, seen: set<string>) {
    && (expected.Some? ==> EarlierClass(columns, rows, i, expected.value))
    && (forall id :: id in seen ==> EarlierStudent(columns, rows, i, id))
  }

  lemma TrackedLater(columns: seq<string>, rows: seq<Row>, i: nat, expected: Option<string>, seen: set<string>)
    requires i < |rows| && Tracked(columns, rows, i, expected, seen)
    ensures Tracked(columns, rows, i + 1, expected, seen)
    ensures EarlierStudent(columns, rows, i + 1, StudentIn(columns, rows[i]))
    ensures Identifier(ClassIn(columns, rows[i])) ==> EarlierClass(columns, rows, i + 1, ClassIn(columns, rows[i]))
  {
    hide ClassIn, StudentIn, Identifier;
    if expected.Some? {
      var j :| 0 <= j < i && j < |rows| && ClassIn(columns, rows[j]) == expected.value && Identifier(expected.value);
      assert 0 <= j < i + 1;
    }
    forall id | id in seen ensures EarlierStudent(columns, rows, i + 1, id) {
      var j :| 0 <= j < i && j < |rows| && StudentIn(columns, rows[j]) == id;
      assert 0 <= j < i + 1;
    }
  }

  /** The checks of one row, given the class and the students of the rows before it. */
  method ValidateRow(columns: seq<string>, rows: seq<Row>, i: nat, expected: Option<string>, seen: set<string>)
    returns (issues: seq<Issue>, values: map<string, string>, class': Option<string>, seen': set<string>)
    requires HeadersValid(columns) && i < |rows| && Tracked(columns, rows, i, expected, seen)
    ensures issues == [] <==>
      && RowAcceptable(columns, rows[i]) && (expected.Some? ==> ClassIn(columns, rows[i]) == expected.value)
      && StudentIn(columns, rows[i]) !in seen
    ensures issues == [] ==>
      && values == Values(columns, rows[i]) && class' == Some(ClassIn(columns, rows[i]))
      && seen' == seen + {StudentIn(columns, rows[i])}
    ensures Tracked(columns, rows, i + 1, class', seen')
    ensures RowIssuesAreReal(columns, rows, issues)
  {
    hide HeadersValid, Values, Identifier, FieldsPresent, EarlierClass, EarlierStudent;
    var missing, invalid;
    issues, missing, values := ReadValues(columns, rows, i);
    issues, invalid := CheckBlanks(columns, rows, i, values, issues, missing);
    RowParts(columns, rows[i]);
    TrackedLater(columns, rows, i, expected, seen);
    class', seen' := expected, seen;
    var classId := Text(values, "class_id");
    if classId != "" {
      if !Identifier(classId) {
        issues := issues + [Issue(InvalidClassId, i, "class_id")];
      } else if expected.None? {
        class' := Some(classId);
      } else if classId != expected.value {
        issues := issues + [Issue(InconsistentClassId, i, "class_id")];
      }
    }
    var studentId := Text(values, "student_id");
    if studentId != "" {
      if !Identifier(studentId) {
        issues := issues + [Issue(InvalidStudentId, i, "student_id")];
      } else {
        if studentId in seen { issues := issues + [Issue(DuplicateStudentId, i, "student_id")]; }
        seen' := seen + {studentId};
      }
    }
  }

  lemma RowParts(columns: seq<string>, row: Row)
    ensures RowAcceptable(columns, row) <==>
      && FieldsPresent(columns, row) && FieldsFilled(columns, row)
      && Identifier(ClassIn(columns, row)) && Identifier(StudentIn(columns, row))
    ensures FieldsFilled(columns, row) ==> ClassIn(columns, row) != "" && StudentIn(columns, row) != ""
  {
    hide Values, FieldsPresent, Identifier;
    assert Required("class_id") && Required("student_id");
  }

  /** `validate_roster_rows`: accepts exactly acceptable rows, and reports only defects that are there. */
  method ValidateRosterRows(columns: seq<string>, rows: seq<Row>) returns (result: Result<Roster, seq<Issue>>)
    ensures result.Success? <==> Acceptable(columns, rows)
    ensures result.Success? ==> Reading(columns, rows) == Some(result.value)
    ensures result.Failure? ==> result.error != [] && forall issue :: issue in result.error ==>
              IssueIsReal(columns, rows, issue)
  {
    hide HeadersValid, RowsAgree, HeaderIssueIsReal, RowIssueIsReal, StudentFrom, StudentsFrom, Tracked, SoFar;
    hide RowAcceptable, ClassIn, StudentIn, Values, Names, Strip;
    var issues := ValidateColumns(columns);
    if issues != [] { return Failure(issues); }
    if rows == [] { return Failure([Issue(EmptyRoster, 0, "")]); }
    var students: seq<StudentRecord> := [];
    var expected: Option<string> := None;
    var seen: set<string> := {};
    NothingRead(columns, rows);
    for i := 0 to |rows|
      invariant RowIssuesAreReal(columns, rows, issues)
      invariant Tracked(columns, rows, i, expected, seen)
      invariant issues == [] <==> RowsAgree(columns, rows[..i])
      invariant issues == [] ==> students == StudentsFrom(columns, rows[..i])
      invariant issues == [] ==> SoFar(columns, rows[..i], expected, seen)
    {
      var found, values;
      var expected0, seen0 := expected, seen;
      found, values, expected, seen := ValidateRow(columns, rows, i, expected, seen);
      assert rows[..i + 1] == rows[..i] + [rows[i]];
      if issues == [] { OneMoreRow(columns, rows[..i], rows[i], expected0, seen0); }
      AgreeingPrefix(columns, rows[..i], rows[i]);
      if found == [] { students := students + [StudentFrom(values)]; }
      issues := issues + found;
    }
    assert rows[..|rows|] == rows;
    if issues != [] { return Failure(issues); }
    ReadSoFar(columns, rows, expected, seen);
    return Success(Roster(expected.value, students, Names(columns)));
  }

  /** After acceptable rows, the loop variables hold their class and their students. */
  ghost predicate SoFar(columns: seq<string>, rows: seq<Row>, expected: Option<string>, seen: set<string>) {
    && (expected == if rows == [] then None else Some(ClassIn(columns, rows[0])))
    && (forall id :: id in seen <==> exists i :: 0 <= i < |rows| && StudentIn(columns, rows[i]) == id)
  }

  lemma NothingRead(columns: seq<string>, rows: seq<Row>)
    ensures RowsAgree(columns, rows[..0]) && StudentsFrom(columns, rows[..0]) == []
    ensures SoFar(columns, rows[..0], None, {}) && Tracked(columns, rows, 0, None, {})
  {
  }

  lemma ReadSoFar(columns: seq<string>, rows: seq<Row>, expected: Option<string>, seen: set<string>)
    requires SoFar(columns, rows, expected, seen) && rows != []
    ensures expected == Some(ClassIn(columns, rows[0]))
  {
  }

  lemma AgreeingPrefix(columns: seq<string>, rows: seq<Row>, row: Row)
    ensures RowsAgree(columns, rows + [row]) ==> RowsAgree(columns, rows)
  {
    var more := rows + [row];
    forall i | 0 <= i < |rows| ensures more[i] == rows[i] {}
  }

  lemma OneMoreRow(columns: seq<string>, rows: seq<Row>, row: Row, expected: Option<string>, seen: set<string>)
    requires RowsAgree(columns, rows) && SoFar(columns, rows, expected, seen)
    ensures RowsAgree(columns, rows + [row]) <==>
      && RowAcceptable(columns, row) && (expected.Some? ==> ClassIn(columns, row) == expected.value)
      && StudentIn(columns, row) !in seen
    ensures RowsAgree(columns, rows + [row]) ==>
      && SoFar(columns, rows + [row], Some(ClassIn(columns, row)), seen + {StudentIn(columns, row)})
      && StudentsFrom(columns, rows + [row]) == StudentsFrom(columns, rows) + [StudentFrom(Values(columns, row))]
  {
    hide RowAcceptable, ClassIn, StudentIn, StudentFrom, Values;
    var more := rows + [row];
    forall i | 0 <= i < |rows| ensures more[i] == rows[i] {}
    assert more[|rows|] == row;
  }

  // ----------------------------------------------------------------- valid rosters

  ghost predicate StudentValid(classId: string, columns: seq<string>, s: StudentRecord) {
    && s.classId == classId && Identifier(s.classId) && Identifier(s.studentId)
    && s.lastName != "" && s.firstName != "" && s.period != ""
    && Trimmed(s.lastName) && Trimmed(s.firstName) && Trimmed(s.period)
    && (forall c :: c in s.extraFields <==> c in columns && !Required(c))
    && (forall c :: c in s.extraFields ==> Trimmed(s.extraFields[c]))
  }

  ghost predicate ColumnsValid(columns: seq<string>) {
    && Distinct(columns) && "" !in columns && (forall c :: c in columns ==> Trimmed(c))
    && (forall c :: Required(c) ==> c in columns)
  }

  /** What validation establishes. */
  ghost predicate RosterValid(r: Roster) {
    && ColumnsValid(r.columns) && r.students != []
    && (forall i :: 0 <= i < |r.students| ==> StudentValid(r.classId, r.columns, r.students[i]))
    && (forall i, j :: 0 <= i < j < |r.students| ==> r.students[i].studentId != r.students[j].studentId)
  }

  lemma {:induction false} ValuesTrimmed(columns: seq<string>, row: Row)
    ensures forall c :: c in Values(columns, row) ==> Trimmed(Values(columns, row)[c])
  {
    if columns != [] { ValuesTrimmed(columns[..|columns| - 1], row); }
  }

  lemma NamesAreColumns(columns: seq<string>)
    requires HeadersValid(columns)
    ensures ColumnsValid(Names(columns))
  {
    forall c | c in Names(columns) ensures Trimmed(c) {
      var k :| 0 <= k < |columns| && Names(columns)[k] == c;
    }
  }

  lemma StudentIsValid(columns: seq<string>, row: Row)
    requires HeadersValid(columns) && RowAcceptable(columns, row)
    ensures StudentValid(ClassIn(columns, row), Names(columns), StudentFrom(Values(columns, row)))
  {
    hide HeadersValid, Identifier, Trimmed, Values, FieldsPresent, Names;
    ValuesTrimmed(columns, row);
    ValueNames(columns, row);
    var values := Values(columns, row);
    assert Required("last_name") && Required("first_name") && Required("period");
    assert Text(values, "last_name") != "" && Text(values, "first_name") != "" && Text(values, "period") != "";
  }

  /** Whatever validation accepts is a valid roster. */
  lemma ReadingIsValid(columns: seq<string>, rows: seq<Row>)
    requires Reading(columns, rows).Some?
    ensures RosterValid(Reading(columns, rows).value)
  {
    hide HeadersValid, RowAcceptable, StudentValid, ColumnsValid, Values, Names;
    var r := Reading(columns, rows).value;
    NamesAreColumns(columns);
    forall i | 0 <= i < |r.students| ensures StudentValid(r.classId, r.columns, r.students[i]) {
      StudentIsValid(columns, rows[i]);
      assert ClassIn(columns, rows[i]) == r.classId;
    }
    forall i, j | 0 <= i < j < |r.students| ensures r.students[i].studentId != r.students[j].studentId {
      assert StudentIn(columns, rows[i]) != StudentIn(columns, rows[j]);
    }
  }

  // ---------------------------------------------------------------- writing it out

  /** The file a roster is written as: header and rows of cells. */
  datatype Table = Table(columns: seq<string>, rows: seq<seq<string>>)

  function Cell(s: StudentRecord, column: string): string {
    if column == "class_id" then s.classId
    else if column == "student_id" then s.studentId
    else if column == "last_name" then s.lastName
    else if column == "first_name" then s.firstName
    else if column == "period" then s.period
    else if column in s.extraFields then s.extraFields[column]
    else ""
  }

  function CsvRow(s: StudentRecord, columns: seq<string>): Row { map c | c in columns :: Cell(s, c) }

  function CsvRows(students: seq<StudentRecord>, columns: seq<string>): seq<Row> {
    seq(|students|, i requires 0 <= i < |students| => CsvRow(students[i], columns))
  }

  function RowCells(s: StudentRecord, columns: seq<string>): (cells: seq<string>)
    ensures |cells| == |columns| && forall k :: 0 <= k < |columns| ==> cells[k] == Cell(s, columns[k])
  {
    seq(|columns|, k requires 0 <= k < |columns| => Cell(s, columns[k]))
  }

  function TableOf(r: Roster): Table {
    Table(r.columns, seq(|r.students|, i requires 0 <= i < |r.students| => RowCells(r.students[i], r.columns)))
  }

  lemma IdentifierIsTrimmed(s: string)
    requires Identifier(s)
    ensures Trimmed(s) && s != ""
  {
    assert IdentifierChar(s[0]) && IdentifierChar(s[|s| - 1]);
  }

  /** Trimmed cells under trimmed names are read as they are. */
  lemma {:induction false} ValuesAreTheRow(columns: seq<string>, row: Row)
    requires forall c :: c in columns ==> Trimmed(c) && c in row && Trimmed(row[c])
    ensures Values(columns, row) == map c | c in columns :: row[c]
    ensures FieldsPresent(columns, row) && Names(columns) == columns
  {
    hide Trimmed;
    forall k | 0 <= k < |columns| ensures Strip(columns[k]) == columns[k] { assert columns[k] in columns; }
    if columns != [] {
      var n := |columns| - 1;
      ValuesAreTheRow(columns[..n], row);
      assert columns == columns[..n] + [columns[n]];
      assert columns[n] in columns && TextAt(row, columns[n]) == row[columns[n]];
    }
  }

  lemma CellsTrimmed(classId: string, columns: seq<string>, s: StudentRecord)
    requires StudentValid(classId, columns, s) && ColumnsValid(columns)
    ensures forall c :: c in columns ==> Trimmed(c) && Trimmed(Cell(s, c))
    ensures forall c :: Required(c) ==> Cell(s, c) != ""
  {
    hide Identifier, Trimmed;
    IdentifierIsTrimmed(s.classId);
    IdentifierIsTrimmed(s.studentId);
  }

  lemma ValuesReturn(classId: string, columns: seq<string>, s: StudentRecord)
    requires StudentValid(classId, columns, s) && ColumnsValid(columns)
    ensures Values(columns, CsvRow(s, columns)) == CsvRow(s, columns) && FieldsPresent(columns, CsvRow(s, columns))
    ensures forall c :: Required(c) ==> Text(CsvRow(s, columns), c) == Cell(s, c) != ""
  {
    hide StudentValid, Trimmed, Values, FieldsPresent, Cell, Required;
    CellsTrimmed(classId, columns, s);
    var row := CsvRow(s, columns);
    ValuesAreTheRow(columns, row);
    assert Values(columns, row) == row;
  }

  lemma RecordReturns(classId: string, columns: seq<string>, s: StudentRecord)
    requires StudentValid(classId, columns, s) && ColumnsValid(columns)
    ensures StudentFrom(CsvRow(s, columns)) == s
  {
    hide Identifier, Trimmed;
    assert StudentFrom(CsvRow(s, columns)).extraFields == s.extraFields;
  }

  lemma StudentReturns(classId: string, columns: seq<string>, s: StudentRecord)
    requires StudentValid(classId, columns, s) && ColumnsValid(columns)
    ensures RowAcceptable(columns, CsvRow(s, columns))
    ensures Values(columns, CsvRow(s, columns)) == CsvRow(s, columns)
    ensures StudentFrom(CsvRow(s, columns)) == s
    ensures ClassIn(columns, CsvRow(s, columns)) == s.classId && StudentIn(columns, CsvRow(s, columns)) == s.studentId
  {
    ValuesReturn(classId, columns, s);
    RecordReturns(classId, columns, s);
    hide Identifier, Trimmed, Values, FieldsPresent, ColumnsValid, CsvRow;
    assert Required("class_id") && Required("student_id");
  }

  lemma NamesOfValid(columns: seq<string>)
    requires ColumnsValid(columns)
    ensures HeadersValid(columns) && Names(columns) == columns
  {
    forall k | 0 <= k < |columns| ensures Strip(columns[k]) == columns[k] { assert columns[k] in columns; }
    assert Names(columns) == columns;
  }

  /** A valid roster's own rows validate back to that roster. */
  lemma ValidRosterReturns(r: Roster)
    requires RosterValid(r)
    ensures Reading(r.columns, CsvRows(r.students, r.columns)) == Some(r)
  {
    hide StudentValid, ColumnsValid, HeadersValid, RowAcceptable, ClassIn, StudentIn, StudentFrom, Values, CsvRow,
         Names;
    var rows := CsvRows(r.students, r.columns);
    NamesOfValid(r.columns);
    forall i | 0 <= i < |rows|
      ensures RowAcceptable(r.columns, rows[i]) && ClassIn(r.columns, rows[i]) == r.classId
      ensures StudentIn(r.columns, rows[i]) == r.students[i].studentId
      ensures StudentFrom(Values(r.columns, rows[i])) == r.students[i]
    {
      StudentReturns(r.classId, r.columns, r.students[i]);
      ClassOfValid(r.classId, r.columns, r.students[i]);
    }
    assert StudentsFrom(r.columns, rows) == r.students;
  }

  lemma ClassOfValid(classId: string, columns: seq<string>, s: StudentRecord)
    requires StudentValid(classId, columns, s)
    ensures s.classId == classId
  {
  }

  // --------------------------------------------------------------- reading it back

  /** One record of the file under its header: the last of equal names wins, missing cells are empty. */
  function RowDict(columns: seq<string>, cells: seq<string>): Row {
    if columns == [] then map[]
    else
      var n := |columns| - 1;
      var rest := RowDict(columns[..n], if |cells| > n then cells[..n] else cells);
      rest[columns[n] := if |cells| > n then cells[n] else ""]
  }

  /** No later column has the name of column `k`. */
  ghost predicate LastUnder(columns: seq<string>, k: nat) {
    k < |columns| && forall j :: k < j < |columns| ==> columns[j] != columns[k]
  }

  /** Cell by cell: a name's last column decides, and cells that are not there are empty. */
  lemma {:induction false} RowDictReads(columns: seq<string>, cells: seq<string>, k: nat)
    requires LastUnder(columns, k)
    ensures columns[k] in RowDict(columns, cells)
    ensures RowDict(columns, cells)[columns[k]] == if k < |cells| then cells[k] else ""
    decreases |columns|
  {
    var n := |columns| - 1;
    if k < n {
      var before := if |cells| > n then cells[..n] else cells;
      assert LastUnder(columns[..n], k) && columns[..n][k] == columns[k] && columns[n] != columns[k];
      RowDictReads(columns[..n], before, k);
      var last := if |cells| > n then cells[n] else "";
      assert RowDict(columns, cells) == RowDict(columns[..n], before)[columns[n] := last];
    }
  }

  function DictRows(columns: seq<string>, rows: seq<seq<string>>): seq<Row> {
    seq(|rows|, i requires 0 <= i < |rows| => RowDict(columns, rows[i]))
  }

  predicate NotBlank(cells: seq<string>) { cells != [] }

  /** The records under a header already decoded: blank ones are skipped, overlong ones refused. */
  ghost function ReadTable(columns: seq<string>, rows: seq<seq<string>>): Option<Roster> {
    if exists row :: row in rows && |row| > |columns| then None
    else Reading(columns, DictRows(columns, Filter(rows, NotBlank)))
  }

  const SIGNATURE: char := '\U{feff}'

  /** The csv writer puts quotes around such a cell. */
  predicate Quoted(cell: string) {
    exists k :: 0 <= k < |cell| && (cell[k] == ',' || cell[k] == '"' || cell[k] == '\r' || cell[k] == '\n')
  }

  /** Written first in a file, such a header does not start it with the character decoding takes for a signature. */
  predicate Unmarked(header: string) { header == "" || header[0] != SIGNATURE || Quoted(header) }

  /** The header as it is decoded: rosters are written as plain UTF-8, and read with a signature dropped. */
  function Decoded(columns: seq<string>): seq<string> {
    if columns == [] || Unmarked(columns[0]) then columns else [columns[0][1..]] + columns[1..]
  }

  /** What loading a roster file finds. */
  ghost function LoadTable(t: Table): Option<Roster> { ReadTable(Decoded(t.columns), t.rows) }

  lemma {:induction false} DictOfCells(s: StudentRecord, columns: seq<string>)
    ensures RowDict(columns, RowCells(s, columns)) == CsvRow(s, columns)
  {
    hide Cell;
    if columns != [] {
      var n := |columns| - 1;
      DictOfCells(s, columns[..n]);
      assert RowCells(s, columns)[..n] == RowCells(s, columns[..n]);
      assert columns == columns[..n] + [columns[n]];
    }
  }

  lemma {:induction false} NothingBlank(rows: seq<seq<string>>)
    requires forall k :: 0 <= k < |rows| ==> rows[k] != []
    ensures Filter(rows, NotBlank) == rows
  {
    if rows != [] { NothingBlank(rows[1..]); }
  }

  /** Under its own header, what the writer writes for a valid roster reads as that roster. */
  lemma WrittenRosterReads(r: Roster)
    requires RosterValid(r)
    ensures ReadTable(r.columns, TableOf(r).rows) == Some(r)
  {
    hide StudentValid, Reading, RowDict, CsvRow;
    var t := TableOf(r);
    assert Required("period") && r.columns != [];
    NothingBlank(t.rows);
    forall i | 0 <= i < |t.rows| ensures RowDict(t.columns, t.rows[i]) == CsvRow(r.students[i], r.columns) {
      DictOfCells(r.students[i], r.columns);
    }
    assert DictRows(t.columns, t.rows) == CsvRows(r.students, r.columns);
    ValidRosterReturns(r);
  }

  /** The canonical table determines a valid roster. */
  lemma TableDeterminesRoster(a: Roster, b: Roster)
    requires RosterValid(a) && RosterValid(b) && TableOf(a) == TableOf(b)
    ensures a == b
  {
    hide RosterValid, ReadTable;
    WrittenRosterReads(a);
    WrittenRosterReads(b);
  }

  // ------------------------------------------------- a first header that looks like a signature

  predicate Marked(r: Roster) { r.columns != [] && !Unmarked(r.columns[0]) }

  function RenamedStudent(s: StudentRecord, columns: seq<string>, from: string, to: string): StudentRecord {
    s.(extraFields := map c | c in columns && !Required(c) :: Cell(s, if c == to then from else c))
  }

  /** The roster with its first column called `name`. */
  function Renamed(r: Roster, name: string): Roster
    requires r.columns != []
  {
    var columns := [name] + r.columns[1..];
    Roster(r.classId,
           seq(|r.students|, i requires 0 <= i < |r.students| =>
                 RenamedStudent(r.students[i], columns, r.columns[0], name)),
           columns)
  }

  /** What a written roster's file holds for its reader. */
  function FileMeaning(r: Roster): Option<Roster>
    requires r.columns != []
  {
    var header := r.columns[0];
    if Unmarked(header) then Some(r)
    else
      var name := Strip(header[1..]);
      if name == "" || name in r.columns[1..] then None else Some(Renamed(r, name))
  }

  lemma {:induction false} DictAt(columns: seq<string>, cells: seq<string>, k: nat)
    requires Distinct(columns) && |cells| == |columns| && k < |columns|
    ensures RowValue(RowDict(columns, cells), columns[k]) == Some(cells[k])
  {
    var n := |columns| - 1;
    if k < n {
      DictAt(columns[..n], cells[..n], k);
      assert columns[..n][k] == columns[k] != columns[n];
      if columns[k] !in RowDict(columns[..n], cells[..n]) { NamesInDict(columns[..n], cells[..n], k); }
    }
  }

  lemma {:induction false} NamesInDict(columns: seq<string>, cells: seq<string>, k: nat)
    requires k < |columns|
    ensures columns[k] in RowDict(columns, cells)
  {
    var n := |columns| - 1;
    if k < n { NamesInDict(columns[..n], if |cells| > n then cells[..n] else cells, k); }
  }

  /** Two headers with the same stripped names and rows with the same values give the same reading. */
  lemma SameValues(a: seq<string>, x: Row, b: seq<string>, y: Row)
    requires Names(a) == Names(b) && forall k :: 0 <= k < |a| && k < |b| ==> RowValue(x, a[k]) == RowValue(y, b[k])
    ensures Values(a, x) == Values(b, y) && (FieldsPresent(a, x) <==> FieldsPresent(b, y))
  {
    hide RowValue, Strip, Values;
    assert |a| == |Names(a)| == |Names(b)| == |b|;
    assert forall k :: 0 <= k < |a| ==> Strip(a[k]) == Names(a)[k] == Names(b)[k] == Strip(b[k]);
    SameValuesByName(a, x, b, y);
  }

  lemma {:induction false} SameValuesByName(a: seq<string>, x: Row, b: seq<string>, y: Row)
    requires |a| == |b| && forall k :: 0 <= k < |a| ==>
        Strip(a[k]) == Strip(b[k]) && RowValue(x, a[k]) == RowValue(y, b[k])
    ensures Values(a, x) == Values(b, y)
  {
    hide RowValue, Strip;
    if a != [] {
      var n := |a| - 1;
      SameValuesByName(a[..n], x, b[..n], y);
    }
  }

  lemma SameReading(a: seq<string>, b: seq<string>, rows: seq<seq<string>>)
    requires Distinct(a) && Distinct(b) && Names(a) == Names(b)
    requires forall i :: 0 <= i < |rows| ==> |rows[i]| == |a| == |b|
    ensures Reading(a, DictRows(a, rows)) == Reading(b, DictRows(b, rows))
  {
    hide RowDict, Values, FieldsPresent, StudentFrom, Names, RowValue, Distinct;
    var x, y := DictRows(a, rows), DictRows(b, rows);
    forall i | 0 <= i < |rows|
      ensures Values(a, x[i]) == Values(b, y[i]) && (RowAcceptable(a, x[i]) <==> RowAcceptable(b, y[i]))
      ensures ClassIn(a, x[i]) == ClassIn(b, y[i]) && StudentIn(a, x[i]) == StudentIn(b, y[i])
    {
      forall k | 0 <= k < |a| ensures RowValue(x[i], a[k]) == RowValue(y[i], b[k]) {
        DictAt(a, rows[i], k);
        DictAt(b, rows[i], k);
      }
      SameValues(a, x[i], b, y[i]);
    }
    hide RowAcceptable, ClassIn, StudentIn;
    assert StudentsFrom(a, x) == StudentsFrom(b, y);
  }

  lemma RenamedColumns(columns: seq<string>, name: string)
    requires ColumnsValid(columns) && columns != [] && !Unmarked(columns[0])
    requires name != "" && Trimmed(name) && name !in columns[1..]
    ensures var to := [name] + columns[1..];
            && ColumnsValid(to) && !Required(columns[0]) && !Required(name)
            && (forall k :: 0 < k < |columns| ==> to[k] == columns[k] && columns[k] != columns[0] && columns[k] != name)
            && (forall c :: c in to <==> c == name || (c in columns && c != columns[0]))
  {
    hide Trimmed, Quoted, Distinct;
    var to := [name] + columns[1..];
    assert !Required(columns[0]);
    DistinctTail(columns, name);
    assert columns == [columns[0]] + columns[1..];
    assert forall c :: c in columns <==> c == columns[0] || c in columns[1..];
    assert columns[0] !in columns[1..];
    assert forall c :: Required(c) ==> c in columns[1..];
    assert forall k :: 0 < k < |columns| ==> to[k] == columns[k] && columns[k] in columns[1..];
  }

  lemma DistinctTail(columns: seq<string>, name: string)
    requires Distinct(columns) && columns != [] && name !in columns[1..]
    ensures columns[0] !in columns[1..] && Distinct([name] + columns[1..])
  {
    var to := [name] + columns[1..];
    assert forall k :: 0 < k < |columns| ==> to[k] == columns[k] && columns[k] in columns[1..];
  }

  lemma RenamedStudentValid(classId: string, columns: seq<string>, name: string, s: StudentRecord)
    requires ColumnsValid(columns) && columns != [] && !Unmarked(columns[0]) && StudentValid(classId, columns, s)
    requires name != "" && Trimmed(name) && name !in columns[1..]
    ensures var to := [name] + columns[1..];
            var s' := RenamedStudent(s, to, columns[0], name);
            ColumnsValid(to) && StudentValid(classId, to, s') && RowCells(s', to) == RowCells(s, columns)
  {
    hide ColumnsValid, Trimmed, Identifier, Unmarked, Cell, Required;
    RenamedColumns(columns, name);
    CellsTrimmed(classId, columns, s);
    var to := [name] + columns[1..];
    var s' := RenamedStudent(s, to, columns[0], name);
    assert StudentValid(classId, to, s');
    RenamedCells(columns, name, s);
  }

  lemma RenamedCells(columns: seq<string>, name: string, s: StudentRecord)
    requires columns != [] && !Required(columns[0]) && !Required(name)
    requires forall k :: 0 < k < |columns| ==> columns[k] != name
    requires forall c :: c in s.extraFields <==> c in columns && !Required(c)
    ensures var to := [name] + columns[1..];
            RowCells(RenamedStudent(s, to, columns[0], name), to) == RowCells(s, columns)
  {
    hide Required, Cell;
    var to := [name] + columns[1..];
    var s' := RenamedStudent(s, to, columns[0], name);
    forall k | 0 <= k < |columns| ensures Cell(s', to[k]) == Cell(s, columns[k]) {
      assert to[k] in to && columns[k] in columns;
      if Required(to[k]) { CellOfRequired(s, s', to[k]); } else { CellOfExtra(s', to[k]); }
    }
  }

  lemma CellOfExtra(s: StudentRecord, c: string)
    requires !Required(c) && c in s.extraFields
    ensures Cell(s, c) == s.extraFields[c]
  {
  }

  lemma CellOfRequired(s: StudentRecord, s': StudentRecord, c: string)
    requires Required(c) && s'.(extraFields := s.extraFields) == s
    ensures Cell(s, c) == Cell(s', c)
  {
  }

  lemma RenamedIsValid(r: Roster, name: string)
    requires RosterValid(r) && Marked(r)
    requires name != "" && Trimmed(name) && name !in r.columns[1..]
    ensures RosterValid(Renamed(r, name)) && TableOf(Renamed(r, name)).rows == TableOf(r).rows
  {
    hide StudentValid, ColumnsValid, Trimmed, RowCells, Unmarked;
    var r' := Renamed(r, name);
    forall i | 0 <= i < |r.students|
      ensures ColumnsValid(r'.columns) && StudentValid(r.classId, r'.columns, r'.students[i])
      ensures RowCells(r'.students[i], r'.columns) == RowCells(r.students[i], r.columns)
    {
      RenamedStudentValid(r.classId, r.columns, name, r.students[i]);
    }
    assert StudentValid(r.classId, r'.columns, r'.students[0]);
  }

  lemma DecodedNames(r: Roster)
    requires RosterValid(r) && Marked(r)
    ensures r.columns[0] != "" && Names(Decoded(r.columns)) == [Strip(r.columns[0][1..])] + r.columns[1..]
    ensures Strip(r.columns[0][1..]) !in r.columns[1..] ==> Distinct(Decoded(r.columns))
  {
    hide StudentValid, Trimmed, Unmarked;
    var t, rest := r.columns[0][1..], r.columns[1..];
    forall c | c in rest ensures Strip(c) == c { assert c in r.columns; }
    assert Names([t] + rest) == [Strip(t)] + rest;
    forall k | 0 < k < |r.columns| ensures ([t] + rest)[k] == r.columns[k] && r.columns[k] in rest {}
  }

  lemma MarkedRosterLoads(r: Roster)
    requires RosterValid(r) && Marked(r)
    ensures LoadTable(TableOf(r)) == FileMeaning(r)
  {
    hide StudentValid, RosterValid, Unmarked, RowCells, Trimmed;
    DecodedNames(r);
    var name := Strip(r.columns[0][1..]);
    var rest, rows, decoded := r.columns[1..], TableOf(r).rows, Decoded(r.columns);
    assert forall i :: 0 <= i < |rows| ==> |rows[i]| == |decoded| > 0;
    NothingBlank(rows);
    if name == "" || name in rest {
      BadNames(decoded, name, rest);
    } else {
      var r' := Renamed(r, name);
      RenamedIsValid(r, name);
      WrittenRosterReads(r');
      NamesOfRoster(r');
      SameReading(decoded, r'.columns, rows);
    }
  }

  lemma NamesOfRoster(r: Roster)
    requires RosterValid(r)
    ensures Names(r.columns) == r.columns && Distinct(r.columns)
  {
    NamesOfValid(r.columns);
  }

  lemma BadNames(columns: seq<string>, name: string, rest: seq<string>)
    requires Names(columns) == [name] + rest && (name == "" || name in rest)
    ensures !HeadersValid(columns)
  {
    assert Names(columns)[0] == name;
    if name in rest {
      var k :| 0 <= k < |rest| && rest[k] == name;
      assert Names(columns)[k + 1] == name;
    }
  }

  /**
   What loading a written roster finds. It is that roster exactly when its first header does
   not begin with an unquoted signature character. Otherwise the header loses the character:
   the file is refused when nothing is left or another column has that name, and holds a
   roster with another column, under another canonical table, in every other case.
   */
  lemma WrittenRosterLoads(r: Roster)
    requires RosterValid(r)
    ensures r.columns != [] && LoadTable(TableOf(r)) == FileMeaning(r)
    ensures LoadTable(TableOf(r)) == Some(r) <==> Unmarked(r.columns[0])
    ensures !Unmarked(r.columns[0]) <==>
            && [SIGNATURE] <= r.columns[0] && ',' !in r.columns[0] && '"' !in r.columns[0]
            && '\r' !in r.columns[0] && '\n' !in r.columns[0]
    ensures var found := LoadTable(TableOf(r));
            found.Some? ==> RosterValid(found.value) && (TableOf(found.value) == TableOf(r) <==> Unmarked(r.columns[0]))
  {
    UnmarkedExactly(r.columns);
    hide StudentValid, Reading, RowCells, Unmarked;
    assert Required("period") && r.columns != [];
    if Unmarked(r.columns[0]) {
      WrittenRosterReads(r);
    } else {
      MarkedRosterLoads(r);
      StripShortens(r.columns[0][1..]);
      var name := Strip(r.columns[0][1..]);
      if name != "" && name !in r.columns[1..] { RenamedIsValid(r, name); }
    }
  }

  lemma UnmarkedExactly(columns: seq<string>)
    ensures columns != [] ==>
              (!Unmarked(columns[0]) <==>
                && [SIGNATURE] <= columns[0] && ',' !in columns[0] && '"' !in columns[0]
                && '\r' !in columns[0] && '\n' !in columns[0])
  {
  }

  lemma {:induction false} StripShortens(s: string)
    ensures |Strip(s)| <= |s|
  {
    if s != "" {
      if Space(s[0]) { StripShortens(s[1..]); }
      else if Space(s[|s| - 1]) { StripShortens(s[..|s| - 1]); }
    }
  }

  /** A valid roster whose own file cannot be read back: the header loses its mark and is then a duplicate. */
  lemma MarkedRosterIsRefused()
    ensures var columns := ["\U{feff}class_id"] + REQUIRED;
            var r := Roster("c", [StudentRecord("c", "s", "Doe", "Jo", "1", map["\U{feff}class_id" := ""])], columns);
            RosterValid(r) && LoadTable(TableOf(r)).None?
  {
    MarkedWitness("\U{feff}class_id");
    var columns := ["\U{feff}class_id"] + REQUIRED;
    var r := Roster("c", [StudentRecord("c", "s", "Doe", "Jo", "1", map["\U{feff}class_id" := ""])], columns);
    MarkedRosterLoads(r);
    assert "\U{feff}class_id"[1..] == "class_id" == REQUIRED[0];
    assert columns[1..] == REQUIRED;
    assert Trimmed("class_id");
  }

  /** A valid roster whose own file holds another roster. */
  lemma MarkedRosterIsAnother()
    ensures var columns := ["\U{feff}notes"] + REQUIRED;
            var r := Roster("c", [StudentRecord("c", "s", "Doe", "Jo", "1", map["\U{feff}notes" := ""])], columns);
            RosterValid(r) && LoadTable(TableOf(r)) == Some(Renamed(r, "notes"))
              && Renamed(r, "notes").columns != r.columns
  {
    MarkedWitness("\U{feff}notes");
    var columns := ["\U{feff}notes"] + REQUIRED;
    var r := Roster("c", [StudentRecord("c", "s", "Doe", "Jo", "1", map["\U{feff}notes" := ""])], columns);
    MarkedRosterLoads(r);
    assert "\U{feff}notes"[1..] == "notes";
    assert columns[1..] == REQUIRED;
    RequiredIsListed();
    assert Trimmed("notes");
    assert Renamed(r, "notes").columns[0] == "notes";
  }

  lemma MarkedWitness(header: string)
    requires |header| > 1 && header[0] == SIGNATURE && Trimmed(header)
    requires forall k :: 0 < k < |header| ==> 'a' <= header[k] <= 'z' || header[k] == '_'
    ensures var r := Roster("c", [StudentRecord("c", "s", "Doe", "Jo", "1", map[header := ""])], [header] + REQUIRED);
            RosterValid(r) && Marked(r)
  {
    var columns := [header] + REQUIRED;
    var s := StudentRecord("c", "s", "Doe", "Jo", "1", map[header := ""]);
    RequiredIsListed();
    assert !Required(header) && forall c :: c in columns <==> c == header || Required(c);
    WitnessColumns(header);
    hide Required;
    assert StudentValid("c", columns, s);
  }

  lemma RequiredDistinct()
    ensures Distinct([""] + REQUIRED)
  {
    assert |REQUIRED[0]| == 8 && |REQUIRED[1]| == 10 && |REQUIRED[2]| == 9 && |REQUIRED[3]| == 10 && |REQUIRED[4]| == 6;
    assert REQUIRED[1][0] != REQUIRED[3][0];
  }

  lemma WitnessColumns(header: string)
    requires !Required(header) && Trimmed(header) && header != ""
    ensures ColumnsValid([header] + REQUIRED)
  {
    hide Distinct, Trimmed;
    RequiredIsListed();
    var columns := [header] + REQUIRED;
    assert forall c :: c in columns <==> c == header || Required(c);
    RequiredDistinct();
    assert ([""] + REQUIRED)[1..] == REQUIRED;
    DistinctTail([""] + REQUIRED, header);
    hide REQUIRED;
    forall c | Required(c) ensures Trimmed(c) && c != "" { RequiredTrimmed(c); }
  }

  lemma RequiredTrimmed(c: string)
    requires Required(c)
    ensures Trimmed(c) && c != ""
  {
  }

  /** `load_roster`. */
  method LoadRoster(t: Table) returns (result: Result<Roster, seq<Issue>>)
    ensures result.Success? <==> LoadTable(t).Some?
    ensures result.Success? ==> LoadTable(t) == Some(result.value) && RosterValid(result.value)
  {
    hide Reading, RosterValid, Acceptable, Unmarked;
    var columns := Decoded(t.columns);
    var rows: seq<Row> := [];
    var malformed: seq<Issue> := [];
    for i := 0 to |t.rows|
      invariant rows == DictRows(columns, Filter(t.rows[..i], NotBlank))
      invariant malformed == [] <==> forall k :: 0 <= k < i ==> |t.rows[k]| <= |columns|
    {
      var cells := t.rows[i];
      OneMoreRecord(columns, t.rows, i);
      if cells != [] {
        if |cells| > |columns| { malformed := malformed + [Issue(MalformedRow, i, "")]; }
        rows := rows + [RowDict(columns, cells)];
      }
    }
    assert t.rows[..|t.rows|] == t.rows;
    assert forall k :: 0 <= k < |t.rows| ==> t.rows[k] in t.rows;
    if malformed != [] { return Failure(malformed); }
    result := ValidateRosterRows(columns, rows);
    ReadingWhenAcceptable(columns, rows);
  }

  lemma ReadingWhenAcceptable(columns: seq<string>, rows: seq<Row>)
    ensures Reading(columns, rows).Some? <==> Acceptable(columns, rows)
    ensures Reading(columns, rows).Some? ==> RosterValid(Reading(columns, rows).value)
  {
    hide Acceptable, RosterValid;
    if Reading(columns, rows).Some? { ReadingIsValid(columns, rows); }
  }

  lemma OneMoreRecord(columns: seq<string>, rows: seq<seq<string>>, i: nat)
    requires i < |rows|
    ensures DictRows(columns, Filter(rows[..i + 1], NotBlank))
         == DictRows(columns, Filter(rows[..i], NotBlank)) + if rows[i] != [] then [RowDict(columns, rows[i])] else []
  {
    assert rows[..i + 1] == rows[..i] + [rows[i]];
    FilterConcat(rows[..i], [rows[i]], NotBlank);
    assert Filter([rows[i]], NotBlank) == if rows[i] != [] then [rows[i]] else [];
    hide Filter, RowDict;
  }

  // ----------------------------------------------------------- rosters as arguments

  ghost predicate FieldsSupported(r: Roster) {
    forall i :: 0 <= i < |r.students| ==> StudentSupported(r.columns, r.students[i])
  }

  ghost predicate StudentSupported(columns: seq<string>, s: StudentRecord) {
    forall f :: f in s.extraFields ==> f in columns
  }

  /** What `_validate_roster_instance` makes of a roster passed in: the same roster with its text stripped. */
  ghost function Validated(r: Roster): Option<Roster> {
    var read := Reading(r.columns, CsvRows(r.students, r.columns));
    if FieldsSupported(r) && read.Some? && read.value.classId == r.classId then read else None
  }

  /** Validation returns valid rosters and leaves them alone; so validating twice is validating once. */
  lemma ValidatedIsValid(r: Roster)
    ensures Validated(r).Some? ==> RosterValid(Validated(r).value)
    ensures RosterValid(r) <==> Validated(r) == Some(r)
  {
    hide Acceptable, StudentsFrom;
    if Validated(r).Some? { ReadingIsValid(r.columns, CsvRows(r.students, r.columns)); }
    if RosterValid(r) {
      ValidRosterReturns(r);
      assert FieldsSupported(r);
    }
  }

  method ValidateRosterInstance(r: Roster) returns (result: Result<Roster, seq<Issue>>)
    ensures result.Success? <==> Validated(r).Some?
    ensures result.Success? ==> Validated(r) == Some(result.value) && RosterValid(result.value)
  {
    hide Reading, RosterValid, Acceptable;
    var issues: seq<Issue> := [];
    for i := 0 to |r.students|
      invariant issues == [] <==> forall k :: 0 <= k < i ==> StudentSupported(r.columns, r.students[k])
    {
      var unsupported := set f | f in r.students[i].extraFields && f !in r.columns;
      assert unsupported == {} <==> StudentSupported(r.columns, r.students[i]) by {
        assert forall f :: f in unsupported <==> f in r.students[i].extraFields && f !in r.columns;
      }
      if unsupported != {} { issues := issues + [Issue(UnsupportedField, i, "")]; }
    }
    if issues != [] { return Failure(issues); }
    result := ValidateRosterRows(r.columns, CsvRows(r.students, r.columns));
    ReadingWhenAcceptable(r.columns, CsvRows(r.students, r.columns));
    if result.Success? && result.value.classId != r.classId {
      return Failure([Issue(InconsistentRosterClass, 0, "class_id")]);
    }
  }
}
