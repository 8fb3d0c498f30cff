/**
 Revision directories as two independent readers see them: the audit, which reports every
 defect and carries on, and the catalog's loader, which stops at the first.
 */
module CanonicalHistories {
  import opened Foundations

  // ------------------------------------------------------------ directory listings

  /** A visible entry that does not belong, or one whose name begins with a dot. */
  datatype Artifact = HiddenArtifact | StrayArtifact

  /** `content` is `None` when the file cannot be read or parsed as a record. */
  datatype RevisionEntry<T> = Misplaced(artifact: Artifact) | RevisionFile(number: int, content: Option<T>)

  datatype PointerFile = NoPointer | MalformedPointer | PointsTo(number: int)

  /** One school year's or one work's directory. */
  datatype Namespace<K, T> = Namespace(
    key: K,
    others: seq<Artifact>,
    revisions: seq<RevisionEntry<T>>,
    pointer: PointerFile,
    producerRoot: bool)

  datatype TopEntry<K, T> = MisplacedTop(artifact: Artifact) | Directory(namespace: Namespace<K, T>)

  datatype HistoryRules<!K, !T> = HistoryRules(key: T -> K, rev: T -> int, step: (T, T) -> bool)

  /** Names in one directory are unique. */
  ghost predicate NumbersUnique<T>(entries: seq<RevisionEntry<T>>) {
    forall i, j | 0 <= i < j < |entries| && entries[i].RevisionFile? && entries[j].RevisionFile? ::
      entries[i].number != entries[j].number
  }

  // -------------------------------------------------------------------- histories

  predicate Readable<K(==), T>(u: HistoryRules<K, T>, key: K, e: RevisionEntry<T>) {
    e.RevisionFile? && e.content.Some? && u.key(e.content.value) == key && u.rev(e.content.value) == e.number
  }

  function Records<K(==), T>(u: HistoryRules<K, T>, key: K, entries: seq<RevisionEntry<T>>): seq<T> {
    if entries == [] then []
    else
      var n := |entries| - 1;
      Records(u, key, entries[..n]) + if Readable(u, key, entries[n]) then [entries[n].content.value] else []
  }

  function ByRev<K, T>(u: HistoryRules<K, T>): (T, T) -> bool { (a: T, b: T) => u.rev(a) <= u.rev(b) }

  /** The readable revisions of one directory, in revision order. */
  function History<K(==), T>(u: HistoryRules<K, T>, ns: Namespace<K, T>): seq<T> {
    SortBy(Records(u, ns.key, ns.revisions), ByRev(u))
  }

  ghost predicate Steps<K, T>(u: HistoryRules<K, T>, h: seq<T>) {
    forall i :: 0 < i < |h| ==> u.step(h[i - 1], h[i])
  }

  ghost predicate AllReadable<K, T>(u: HistoryRules<K, T>, key: K, entries: seq<RevisionEntry<T>>) {
    forall e :: e in entries ==> e == Misplaced(HiddenArtifact) || Readable(u, key, e)
  }

  function Latest<K, T>(u: HistoryRules<K, T>, h: seq<T>): PointerFile {
    if h == [] then NoPointer else PointsTo(u.rev(h[|h| - 1]))
  }

  /** Nothing misplaced in sight, every revision readable, each following the one before, the last selected. */
  ghost predicate HistorySound<K, T>(u: HistoryRules<K, T>, ns: Namespace<K, T>) {
    && StrayArtifact !in ns.others
    && AllReadable(u, ns.key, ns.revisions)
    && Steps(u, History(u, ns))
    && ns.pointer == Latest(u, History(u, ns))
  }

  lemma {:induction false} RecordsMembers<K, T(!new)>(u: HistoryRules<K, T>, key: K, entries: seq<RevisionEntry<T>>)
    ensures forall r :: r in Records(u, key, entries) <==> u.key(r) == key && RevisionFile(u.rev(r), Some(r)) in entries
  {
    if entries != [] {
      var n := |entries| - 1;
      RecordsMembers(u, key, entries[..n]);
      assert entries == entries[..n] + [entries[n]];
    }
  }

  lemma {:induction false} RecordsDistinct<K, T(!new)>(u: HistoryRules<K, T>, key: K, entries: seq<RevisionEntry<T>>)
    requires NumbersUnique(entries)
    ensures forall i, j :: 0 <= i < j < |Records(u, key, entries)| ==>
              u.rev(Records(u, key, entries)[i]) != u.rev(Records(u, key, entries)[j])
  {
    if entries != [] {
      var n := |entries| - 1;
      RecordsDistinct(u, key, entries[..n]);
      if Readable(u, key, entries[n]) {
        RecordsMembers(u, key, entries[..n]);
        var before := Records(u, key, entries[..n]);
        forall i | 0 <= i < |before| ensures u.rev(before[i]) != entries[n].number {
          var k :| 0 <= k < n && entries[k] == RevisionFile(u.rev(before[i]), Some(before[i]));
        }
      }
    }
  }

  /** The history of a directory holds its records, in strictly rising order. */
  lemma HistoryRises<K, T(!new)>(u: HistoryRules<K, T>, ns: Namespace<K, T>)
    requires NumbersUnique(ns.revisions)
    ensures forall i, j :: 0 <= i < j < |History(u, ns)| ==> u.rev(History(u, ns)[i]) < u.rev(History(u, ns)[j])
    ensures forall r :: r in History(u, ns) <==> u.key(r) == ns.key && RevisionFile(u.rev(r), Some(r)) in ns.revisions
  {
    var records := Records(u, ns.key, ns.revisions);
    var h := History(u, ns);
    RecordsMembers(u, ns.key, ns.revisions);
    RecordsDistinct(u, ns.key, ns.revisions);
    SortByContents(records, ByRev(u));
    SortBySorted(records, ByRev(u));
    DistinctByContents(records, h);
    forall i, j | 0 <= i < j < |h| ensures u.rev(h[i]) < u.rev(h[j]) {
      assert h[i] in records && h[j] in records && h[i] != h[j];
      assert ByRev(u)(h[i], h[j]);
    }
  }

  /** Reading revision `n` by its name. */
  function LoadRevision<K(==), T>(u: HistoryRules<K, T>, key: K, entries: seq<RevisionEntry<T>>, n: int): Option<T> {
    if entries == [] then None
    else if entries[0].RevisionFile? && entries[0].number == n then
      if Readable(u, key, entries[0]) then entries[0].content else None
    else LoadRevision(u, key, entries[1..], n)
  }

  lemma {:induction false} LoadedIsListed<K, T(!new)>(u: HistoryRules<K, T>, key: K, entries: seq<RevisionEntry<T>>,
                                                      n: int)
    requires NumbersUnique(entries)
    ensures var r := LoadRevision(u, key, entries, n);
            && (r.Some? ==> u.key(r.value) == key && u.rev(r.value) == n && RevisionFile(n, r) in entries)
            && (forall x :: u.key(x) == key && u.rev(x) == n && RevisionFile(n, Some(x)) in entries ==> r == Some(x))
  {
    if entries != [] {
      LoadedIsListed(u, key, entries[1..], n);
      assert entries == [entries[0]] + entries[1..];
      if entries[0].RevisionFile? && entries[0].number == n {
        forall x | RevisionFile(n, Some(x)) in entries ensures entries[0] == RevisionFile(n, Some(x)) {
          var k :| 0 <= k < |entries| && entries[k] == RevisionFile(n, Some(x));
        }
      }
    }
  }

  // --------------------------------------------------------------------- findings

  datatype Severity = Info | Warning | Error

  datatype Domain = AcademicPeriodsDomain | RegistrationsDomain | PublicationsDomain

  datatype Code =
    | HiddenFound | UnexpectedEntry | RevisionInvalid | TransitionInvalid
    | PointerInvalid | PointerMissing | OrphanRevision | ProducerWorkMissing
    | RecordInvalid | RegistrationMissing | LogicalRevisionDuplicate | SeriesInvalid | CompetingHead
    | WithdrawalInvalid | WithdrawalOrphan | WithdrawalChronology

  datatype Finding = Finding(severity: Severity, domain: Domain, code: Code)

  ghost predicate Clean(findings: seq<Finding>) {
    forall f :: f in findings ==> f.severity != Error
  }

  /** Every finding is one of these. */
  ghost predicate Only(findings: seq<Finding>, allowed: set<Finding>) {
    forall f :: f in findings ==> f in allowed
  }

  lemma CleanConcat(a: seq<Finding>, b: seq<Finding>)
    ensures Clean(a + b) <==> Clean(a) && Clean(b)
  {
    assert forall f :: f in a + b <==> f in a || f in b;
  }

  lemma OneFinding(f: Finding)
    ensures Clean([f]) <==> f.severity != Error
    ensures Clean([])
  {
    assert f in [f];
  }

  function ArtifactFinding(a: Artifact, domain: Domain): Finding {
    if a.HiddenArtifact? then Finding(Warning, domain, HiddenFound) else Finding(Error, domain, UnexpectedEntry)
  }

  // ------------------------------------------------------------------- the audit

  method ScanArtifacts(others: seq<Artifact>, domain: Domain) returns (findings: seq<Finding>)
    ensures Clean(findings) <==> StrayArtifact !in others
    ensures Only(findings, {Finding(Warning, domain, HiddenFound), Finding(Error, domain, UnexpectedEntry)})
  {
    findings := [];
    for i := 0 to |others|
      invariant Clean(findings) <==> StrayArtifact !in others[..i]
      invariant Only(findings, {Finding(Warning, domain, HiddenFound), Finding(Error, domain, UnexpectedEntry)})
    {
      var f := ArtifactFinding(others[i], domain);
      CleanConcat(findings, [f]);
      OneFinding(f);
      assert others[..i + 1] == others[..i] + [others[i]];
      findings := findings + [f];
    }
    assert others[..|others|] == others;
  }

  method ScanRevisions<K(==), T>(u: HistoryRules<K, T>, key: K, entries: seq<RevisionEntry<T>>, domain: Domain)
    returns (findings: seq<Finding>, valid: seq<T>)
    ensures Clean(findings) <==> AllReadable(u, key, entries)
    ensures Only(findings, {Finding(Warning, domain, HiddenFound), Finding(Error, domain, UnexpectedEntry),
                            Finding(Error, domain, RevisionInvalid)})
    ensures Finding(Error, domain, RevisionInvalid) in findings <==>
              exists e :: e in entries && e.RevisionFile? && !Readable(u, key, e)
    ensures valid == Records(u, key, entries)
  {
    findings, valid := [], [];
    for i := 0 to |entries|
      invariant Clean(findings) <==> AllReadable(u, key, entries[..i])
      invariant Only(findings, {Finding(Warning, domain, HiddenFound), Finding(Error, domain, UnexpectedEntry),
                                Finding(Error, domain, RevisionInvalid)})
      invariant Finding(Error, domain, RevisionInvalid) in findings <==>
                  exists e :: e in entries[..i] && e.RevisionFile? && !Readable(u, key, e)
      invariant valid == Records(u, key, entries[..i])
    {
      var e := entries[i];
      assert entries[..i + 1] == entries[..i] + [e] && entries[..i + 1][..i] == entries[..i];
      if e.RevisionFile? && Readable(u, key, e) {
        valid := valid + [e.content.value];
      } else {
        var f := if e.Misplaced? then ArtifactFinding(e.artifact, domain) else Finding(Error, domain, RevisionInvalid);
        CleanConcat(findings, [f]);
        OneFinding(f);
        findings := findings + [f];
      }
    }
    assert entries[..|entries|] == entries;
  }

  lemma StepsOneMore<K, T>(u: HistoryRules<K, T>, h: seq<T>, i: nat)
    requires i < |h|
    ensures Steps(u, h[..i + 1]) <==> Steps(u, h[..i]) && (i > 0 ==> u.step(h[i - 1], h[i]))
  {
    var s, t := h[..i + 1], h[..i];
    if Steps(u, s) {
      assert i > 0 ==> u.step(s[i - 1], s[i]);
      forall k | 0 < k < |t| ensures u.step(t[k - 1], t[k]) { assert u.step(s[k - 1], s[k]); }
    }
    if Steps(u, t) && (i > 0 ==> u.step(h[i - 1], h[i])) {
      forall k | 0 < k < |s| ensures u.step(s[k - 1], s[k]) { assert k < i ==> u.step(t[k - 1], t[k]); }
    }
  }

  method ScanTransitions<K, T>(u: HistoryRules<K, T>, valid: seq<T>, domain: Domain) returns (findings: seq<Finding>)
    ensures Clean(findings) <==> Steps(u, valid)
    ensures Only(findings, {Finding(Error, domain, TransitionInvalid)})
  {
    findings := [];
    for i := 0 to |valid|
      invariant Clean(findings) <==> Steps(u, valid[..i])
      invariant Only(findings, {Finding(Error, domain, TransitionInvalid)})
    {
      StepsOneMore(u, valid, i);
      if i > 0 && !u.step(valid[i - 1], valid[i]) {
        var f := Finding(Error, domain, TransitionInvalid);
        CleanConcat(findings, [f]);
        OneFinding(f);
        findings := findings + [f];
      }
    }
    assert valid[..|valid|] == valid;
  }

  /** Readable revisions lie beyond what is selected: no pointer at all, or one that selects an earlier revision. */
  ghost predicate Orphaned<K, T>(u: HistoryRules<K, T>, pointer: PointerFile, valid: seq<T>) {
    && valid != []
    && (pointer.NoPointer?
        || (pointer.PointsTo? && pointer.number != u.rev(valid[|valid| - 1]) && exists r ::
            r in valid && u.rev(r) == pointer.number))
  }

  /** The pointer must select the last valid revision, and exist exactly when there is one. */
  method ScanPointer<K(==), T(!new)>(u: HistoryRules<K, T>, ns: Namespace<K, T>, valid: seq<T>, domain: Domain)
    returns (findings: seq<Finding>)
    requires NumbersUnique(ns.revisions) && valid == History(u, ns)
    ensures Clean(findings) <==> ns.pointer == Latest(u, valid)
    ensures Only(findings, {Finding(Error, domain, PointerMissing), Finding(Error, domain, PointerInvalid),
                            Finding(Error, domain, OrphanRevision)})
    ensures Finding(Error, domain, PointerMissing) in findings <==> ns.pointer.NoPointer? && valid != []
    ensures Finding(Error, domain, PointerInvalid) in findings <==>
              !ns.pointer.NoPointer? && ns.pointer != Latest(u, valid)
    ensures Finding(Error, domain, OrphanRevision) in findings <==> Orphaned(u, ns.pointer, valid)
  {
    HistoryRises(u, ns);
    var invalid := Finding(Error, domain, PointerInvalid);
    var orphan := Finding(Error, domain, OrphanRevision);
    match ns.pointer {
      case NoPointer =>
        findings := if valid != [] then [Finding(Error, domain, PointerMissing), orphan] else [];
        assert valid != [] ==> orphan in findings;
      case MalformedPointer =>
        findings := [invalid];
        assert invalid in findings;
      case PointsTo(n) =>
        LoadedIsListed(u, ns.key, ns.revisions, n);
        var current := LoadRevision(u, ns.key, ns.revisions, n);
        if current.None? {
          findings := [invalid];
          assert invalid in findings;
          assert valid != [] ==> valid[|valid| - 1] in valid;
        } else if valid != [] && u.rev(current.value) != u.rev(valid[|valid| - 1]) {
          findings := [invalid, orphan];
          assert invalid in findings;
        } else {
          findings := [];
          assert current.value in valid;
        }
    }
  }

  /** One directory's scan: every defect is reported, none stops the scan. */
  method ScanHistory<K(==), T(!new)>(u: HistoryRules<K, T>, ns: Namespace<K, T>, domain: Domain, needsProducer: bool)
    returns (findings: seq<Finding>, valid: seq<T>)
    requires NumbersUnique(ns.revisions)
    ensures Clean(findings) <==> HistorySound(u, ns) && (needsProducer ==> ns.producerRoot)
    ensures valid == History(u, ns)
    ensures Finding(Error, domain, RevisionInvalid) in findings <==>
              exists e :: e in ns.revisions && e.RevisionFile? && !Readable(u, ns.key, e)
    ensures Finding(Error, domain, TransitionInvalid) in findings <==> !Steps(u, valid)
    ensures Finding(Error, domain, PointerMissing) in findings <==> ns.pointer.NoPointer? && valid != []
    ensures Finding(Error, domain, PointerInvalid) in findings <==>
              !ns.pointer.NoPointer? && ns.pointer != Latest(u, valid)
    ensures Finding(Error, domain, OrphanRevision) in findings <==> Orphaned(u, ns.pointer, valid)
    ensures Finding(Error, domain, ProducerWorkMissing) in findings <==> needsProducer && !ns.producerRoot
  {
    hide Clean, Steps, AllReadable, Orphaned, Readable, Latest, SortBy, Only;
    var artifacts := ScanArtifacts(ns.others, domain);
    var unreadable, records := ScanRevisions(u, ns.key, ns.revisions, domain);
    valid := SortBy(records, ByRev(u));
    var transitions := ScanTransitions(u, valid, domain);
    var pointer := ScanPointer(u, ns, valid, domain);
    var producer := if needsProducer && !ns.producerRoot then [Finding(Error, domain, ProducerWorkMissing)] else [];
    findings := artifacts + unreadable + transitions + pointer + producer;
    OneFinding(Finding(Error, domain, ProducerWorkMissing));
    OnlyOne(transitions, Finding(Error, domain, TransitionInvalid));
    FiveParts(artifacts, unreadable, transitions, pointer, producer);
    PartsTell(domain, artifacts, unreadable, transitions, pointer, producer);
  }

  /** Each code can only come from its own scan. */
  lemma PartsTell(domain: Domain, a: seq<Finding>, b: seq<Finding>, c: seq<Finding>, d: seq<Finding>, e: seq<Finding>)
    requires Only(a, {Finding(Warning, domain, HiddenFound), Finding(Error, domain, UnexpectedEntry)})
    requires Only(b, {Finding(Warning, domain, HiddenFound), Finding(Error, domain, UnexpectedEntry),
                      Finding(Error, domain, RevisionInvalid)})
    requires Only(c, {Finding(Error, domain, TransitionInvalid)})
    requires Only(d, {Finding(Error, domain, PointerMissing), Finding(Error, domain, PointerInvalid),
                      Finding(Error, domain, OrphanRevision)})
    requires e == [] || e == [Finding(Error, domain, ProducerWorkMissing)]
    ensures var all := a + b + c + d + e;
            && (Finding(Error, domain, RevisionInvalid) in all <==> Finding(Error, domain, RevisionInvalid) in b)
            && (Finding(Error, domain, TransitionInvalid) in all <==> Finding(Error, domain, TransitionInvalid) in c)
            && (Finding(Error, domain, PointerMissing) in all <==> Finding(Error, domain, PointerMissing) in d)
            && (Finding(Error, domain, PointerInvalid) in all <==> Finding(Error, domain, PointerInvalid) in d)
            && (Finding(Error, domain, OrphanRevision) in all <==> Finding(Error, domain, OrphanRevision) in d)
            && (Finding(Error, domain, ProducerWorkMissing) in all <==> e != [])
  {
    InFiveParts(a, b, c, d, e);
    assert e != [] ==> e[0] in e;
  }

  lemma InFiveParts(a: seq<Finding>, b: seq<Finding>, c: seq<Finding>, d: seq<Finding>, e: seq<Finding>)
    ensures forall f :: f in a + b + c + d + e <==> f in a || f in b || f in c || f in d || f in e
  {
  }

  lemma OnlyOne(findings: seq<Finding>, f: Finding)
    requires Only(findings, {f}) && f.severity.Error?
    ensures Clean(findings) <==> f !in findings
  {
  }

  lemma FiveParts(a: seq<Finding>, b: seq<Finding>, c: seq<Finding>, d: seq<Finding>, e: seq<Finding>)
    ensures Clean(a + b + c + d + e) <==> Clean(a) && Clean(b) && Clean(c) && Clean(d) && Clean(e)
  {
    CleanConcat(a + b + c + d, e);
    CleanConcat(a + b + c, d);
    CleanConcat(a + b, c);
    CleanConcat(a, b);
  }

  // ------------------------------------------------------------- the catalog loader

  datatype SourceError =
    | UnexpectedSource | PointerWithoutRevisions | RevisionsWithoutPointer
    | InvalidRecord | InvalidHistory | InvalidPointer
    | DuplicateLogicalRevision | MissingRegistration | InvalidSeries | OrphanWithdrawal | InvalidWithdrawal

  /** Discovery: names only, nothing is opened. */
  method DiscoverHistory<K, T(==)>(ns: Namespace<K, T>) returns (error: Option<SourceError>)
    ensures error.None? <==>
      && StrayArtifact !in ns.others && Misplaced(StrayArtifact) !in ns.revisions
      && (ns.pointer.NoPointer? <==> forall e :: e in ns.revisions ==> e.Misplaced?)
  {
    if StrayArtifact in ns.others || Misplaced(StrayArtifact) in ns.revisions { return Some(UnexpectedSource); }
    var visible := exists e :: e in ns.revisions && e.RevisionFile?;
    if !ns.pointer.NoPointer? && !visible { return Some(PointerWithoutRevisions); }
    if ns.pointer.NoPointer? && visible { return Some(RevisionsWithoutPointer); }
    return None;
  }

  method ParseRevisions<K(==), T>(u: HistoryRules<K, T>, key: K, entries: seq<RevisionEntry<T>>)
    returns (result: Result<seq<T>, SourceError>)
    requires Misplaced(StrayArtifact) !in entries
    ensures result.Success? <==> AllReadable(u, key, entries)
    ensures result.Success? ==> result.value == Records(u, key, entries)
  {
    var group: seq<T> := [];
    for i := 0 to |entries|
      invariant AllReadable(u, key, entries[..i]) && group == Records(u, key, entries[..i])
    {
      var e := entries[i];
      assert e in entries && entries[..i + 1] == entries[..i] + [e] && entries[..i + 1][..i] == entries[..i];
      if e.RevisionFile? {
        if !Readable(u, key, e) { return Failure(InvalidRecord); }
        group := group + [e.content.value];
      } else {
        assert e.artifact != StrayArtifact;
      }
    }
    assert entries[..|entries|] == entries;
    return Success(group);
  }

  /** Each revision with its `is_current` flag. */
  function Marked<T>(h: seq<T>): (m: seq<(T, bool)>)
    ensures |m| == |h|
  {
    seq(|h|, i requires 0 <= i < |h| => (h[i], i == |h| - 1))
  }

  /** One directory's history, or the first defect met. */
  method LoadHistory<K(==), T(==,!new)>(u: HistoryRules<K, T>, ns: Namespace<K, T>)
    returns (result: Result<seq<(T, bool)>, SourceError>)
    requires NumbersUnique(ns.revisions)
    ensures result.Success? <==> HistorySound(u, ns)
    ensures result.Success? ==> result.value == Marked(History(u, ns))
  {
    HistoryRises(u, ns);
    var error := DiscoverHistory(ns);
    if error.Some? {
      DiscoveryRefusal(u, ns);
      return Failure(error.value);
    }
    var group := ParseRevisions(u, ns.key, ns.revisions);
    if group.Failure? { return Failure(group.error); }
    NoRecordsNoHistory(u, ns);
    if group.value == [] { return Success([]); }
    result := CheckHistory(u, SortBy(group.value, ByRev(u)), ns.pointer);
  }

  method CheckHistory<K, T(!new)>(u: HistoryRules<K, T>, ordered: seq<T>, pointer: PointerFile)
    returns (result: Result<seq<(T, bool)>, SourceError>)
    requires ordered != [] && forall i, j :: 0 <= i < j < |ordered| ==> u.rev(ordered[i]) < u.rev(ordered[j])
    ensures result.Success? <==> Steps(u, ordered) && pointer == Latest(u, ordered)
    ensures result.Success? ==> result.value == Marked(ordered)
  {
    for i := 1 to |ordered|
      invariant forall k :: 0 < k < i ==> u.step(ordered[k - 1], ordered[k])
    {
      if !u.step(ordered[i - 1], ordered[i]) { return Failure(InvalidHistory); }
    }
    if !pointer.PointsTo? { return Failure(InvalidPointer); }
    var current := pointer.number;
    if current != u.rev(ordered[|ordered| - 1]) { return Failure(InvalidPointer); }
    var marked := seq(|ordered|, i requires 0 <= i < |ordered| => (ordered[i], u.rev(ordered[i]) == current));
    assert marked == Marked(ordered);
    return Success(marked);
  }

  lemma NoRecordsNoHistory<K, T(!new)>(u: HistoryRules<K, T>, ns: Namespace<K, T>)
    requires AllReadable(u, ns.key, ns.revisions)
    ensures Records(u, ns.key, ns.revisions) == [] <==> forall e :: e in ns.revisions ==> e.Misplaced?
    ensures Records(u, ns.key, ns.revisions) == [] <==> History(u, ns) == []
  {
    RecordsMembers(u, ns.key, ns.revisions);
    SortByContents(Records(u, ns.key, ns.revisions), ByRev(u));
    var records := Records(u, ns.key, ns.revisions);
    forall e | e in ns.revisions && e.RevisionFile? ensures e.content.value in records {
      assert Readable(u, ns.key, e);
    }
    if records != [] { assert records[0] in records; }
  }

  /** What discovery refuses, no sound history has. */
  lemma DiscoveryRefusal<K, T(!new)>(u: HistoryRules<K, T>, ns: Namespace<K, T>)
    ensures HistorySound(u, ns) ==>
              && StrayArtifact !in ns.others && Misplaced(StrayArtifact) !in ns.revisions
              && (ns.pointer.NoPointer? <==> forall e :: e in ns.revisions ==> e.Misplaced?)
  {
    if HistorySound(u, ns) {
      NoRecordsNoHistory(u, ns);
      SortByContents(Records(u, ns.key, ns.revisions), ByRev(u));
    }
  }
}
