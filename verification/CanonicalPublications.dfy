/** The publication and withdrawal collections as the audit and the catalog's loader read them. */
module CanonicalPublications {
  import opened Foundations
  import opened PublicationRecords
  import opened CanonicalHistories

  datatype CollectionEntry<T> = StrayFile | CanonicalFile(id: string, content: Option<T>)

  predicate Loads<T>(e: CollectionEntry<T>, idOf: T -> string) {
    e.CanonicalFile? && e.content.Some? && idOf(e.content.value) == e.id
  }

  function Contents<T>(entries: seq<CollectionEntry<T>>, idOf: T -> string): seq<T> {
    if entries == [] then []
    else
      var n := |entries| - 1;
      Contents(entries[..n], idOf) + if Loads(entries[n], idOf) then [entries[n].content.value] else []
  }

  ghost predicate AllLoad<T>(entries: seq<CollectionEntry<T>>, idOf: T -> string) {
    forall e :: e in entries ==> Loads(e, idOf)
  }

  ghost predicate FilesUnique<T>(entries: seq<CollectionEntry<T>>) {
    forall i, j | 0 <= i < j < |entries| && entries[i].CanonicalFile? && entries[j].CanonicalFile? ::
      entries[i].id != entries[j].id
  }

  ghost predicate IdsDiffer<T>(items: seq<T>, idOf: T -> string) {
    forall i, j :: 0 <= i < j < |items| ==> idOf(items[i]) != idOf(items[j])
  }

  function RecordId(r: PublicationRecord): string { r.publicationId }

  function WithdrawalId(d: PublicationWithdrawal): string { d.publicationId }

  lemma {:induction false} ContentsMembers<T(!new)>(entries: seq<CollectionEntry<T>>, idOf: T -> string)
    ensures forall x :: x in Contents(entries, idOf) <==> CanonicalFile(idOf(x), Some(x)) in entries
  {
    if entries != [] {
      var n := |entries| - 1;
      ContentsMembers(entries[..n], idOf);
      assert entries == entries[..n] + [entries[n]];
    }
  }

  lemma {:induction false} ContentsDiffer<T(!new)>(entries: seq<CollectionEntry<T>>, idOf: T -> string)
    requires FilesUnique(entries)
    ensures IdsDiffer(Contents(entries, idOf), idOf)
  {
    if entries != [] {
      var n := |entries| - 1;
      ContentsDiffer(entries[..n], idOf);
      ContentsMembers(entries[..n], idOf);
      var before := Contents(entries[..n], idOf);
      forall i | 0 <= i < |before| && Loads(entries[n], idOf) ensures idOf(before[i]) != entries[n].id {
        var k :| 0 <= k < n && entries[k] == CanonicalFile(idOf(before[i]), Some(before[i]));
      }
    }
  }

  // ----------------------------------------------------------------- sound contents

  datatype Reference = Reference(work: ModuleWorkRef, revision: int)

  ghost predicate ReferenceStands(registered: set<Reference>, r: PublicationRecord) {
    r.kind.AcademicResultSet? ==>
      r.registrationRevision.Some? && Reference(r.work, r.registrationRevision.value) in registered
  }

  function SeriesKey(r: PublicationRecord): SeriesId { r.Series() }

  function SeriesOf(records: seq<PublicationRecord>, s: SeriesId): seq<PublicationRecord> {
    Group(records, SeriesKey, s)
  }

  ghost predicate SeriesSound(records: seq<PublicationRecord>) {
    forall s :: SeriesOf(records, s) == [] || FormsChain(SeriesOf(records, s))
  }

  ghost predicate Withdraws(records: seq<PublicationRecord>, d: PublicationWithdrawal) {
    exists r :: r in records && ValidWithdrawal(r, d)
  }

  ghost predicate CollectionsSound(records: seq<PublicationRecord>, withdrawals: seq<PublicationWithdrawal>,
                                   registered: set<Reference>)
  {
    && (forall r :: r in records ==> ReferenceStands(registered, r))
    && SeriesSound(records)
    && (forall d :: d in withdrawals ==> Withdraws(records, d))
  }

  // --------------------------------------------------------------- grouping by key

  /** A dictionary of lists, keys in order of first appearance. */
  method GroupBy<T, K(==,!new)>(items: seq<T>, keyOf: T -> K) returns (order: seq<K>, groups: map<K, seq<T>>)
    ensures Grouped(items, keyOf, order, groups)
  {
    order, groups := [], map[];
    NothingGrouped(items[..0], keyOf);
    hide Grouped;
    for i := 0 to |items|
      invariant Grouped(items[..i], keyOf, order, groups)
    {
      var k := keyOf(items[i]);
      assert items[..i + 1] == items[..i] + [items[i]];
      if k !in groups {
        GroupedNewKey(items[..i], keyOf, order, groups, items[i]);
        order := order + [k];
        groups := groups[k := [items[i]]];
      } else {
        GroupedOldKey(items[..i], keyOf, order, groups, items[i]);
        groups := groups[k := groups[k] + [items[i]]];
      }
    }
    assert items[..|items|] == items;
  }

  ghost predicate Grouped<T, K(!new)>(items: seq<T>, keyOf: T -> K, order: seq<K>, groups: map<K, seq<T>>) {
    && (forall k :: k in order <==> k in groups)
    && (forall k :: k in groups ==> groups[k] != [])
    && (forall k :: Group(items, keyOf, k) == if k in groups then groups[k] else [])
  }

  lemma NothingGrouped<T, K(!new)>(items: seq<T>, keyOf: T -> K)
    requires items == []
    ensures Grouped(items, keyOf, [], map[])
  {
  }

  lemma GroupOneMore<T, K(!new)>(items: seq<T>, keyOf: T -> K, x: T, k: K)
    ensures keyOf(x) == k ==> Group(items + [x], keyOf, k) == Group(items, keyOf, k) + [x]
    ensures keyOf(x) != k ==> Group(items + [x], keyOf, k) == Group(items, keyOf, k)
  {
    FilterConcat(items, [x], (y: T) => keyOf(y) == k);
  }

  lemma GroupedNewKey<T, K(!new)>(items: seq<T>, keyOf: T -> K, order: seq<K>, groups: map<K, seq<T>>, x: T)
    requires Grouped(items, keyOf, order, groups) && keyOf(x) !in groups
    ensures Grouped(items + [x], keyOf, order + [keyOf(x)], groups[keyOf(x) := [x]])
  {
    hide Group;
    var more := groups[keyOf(x) := [x]];
    forall k ensures Group(items + [x], keyOf, k) == if k in more then more[k] else [] {
      GroupOneMore(items, keyOf, x, k);
    }
  }

  lemma GroupedOldKey<T, K(!new)>(items: seq<T>, keyOf: T -> K, order: seq<K>, groups: map<K, seq<T>>, x: T)
    requires Grouped(items, keyOf, order, groups) && keyOf(x) in groups
    ensures Grouped(items + [x], keyOf, order, groups[keyOf(x) := groups[keyOf(x)] + [x]])
  {
    hide Group;
    var more := groups[keyOf(x) := groups[keyOf(x)] + [x]];
    forall k ensures Group(items + [x], keyOf, k) == if k in more then more[k] else [] {
      GroupOneMore(items, keyOf, x, k);
    }
  }

  /** The lists of the dictionary, in order of first appearance. */
  function Parts<T, K(==)>(order: seq<K>, groups: map<K, seq<T>>): seq<seq<T>>
    requires forall k :: k in order ==> k in groups
  {
    seq(|order|, i requires 0 <= i < |order| => groups[order[i]])
  }

  ghost predicate AllChains(parts: seq<seq<PublicationRecord>>) {
    forall part :: part in parts ==> FormsChain(part)
  }

  ghost predicate Partitions(records: seq<PublicationRecord>, parts: seq<seq<PublicationRecord>>) {
    && (forall part :: part in parts ==> part != [] && exists s :: part == SeriesOf(records, s))
    && (forall s :: SeriesOf(records, s) != [] ==> SeriesOf(records, s) in parts)
  }

  /** The records of each series, series in order of first appearance. */
  method GroupSeries(records: seq<PublicationRecord>) returns (parts: seq<seq<PublicationRecord>>)
    ensures Partitions(records, parts)
  {
    var order, groups := GroupBy(records, SeriesKey);
    parts := Parts(order, groups);
    PartsPartition(records, order, groups);
  }

  lemma PartsPartition(records: seq<PublicationRecord>, order: seq<SeriesId>,
                       groups: map<SeriesId, seq<PublicationRecord>>)
    requires Grouped(records, SeriesKey, order, groups)
    ensures Partitions(records, Parts(order, groups))
  {
    hide Group;
    var parts := Parts(order, groups);
    forall part | part in parts ensures part != [] && exists s :: part == SeriesOf(records, s) {
      var i :| 0 <= i < |parts| && parts[i] == part;
      assert part == SeriesOf(records, order[i]);
    }
    forall s | SeriesOf(records, s) != [] ensures SeriesOf(records, s) in parts {
      var i :| 0 <= i < |order| && order[i] == s;
      assert parts[i] == SeriesOf(records, s);
    }
  }

  lemma SoundIffAllChains(records: seq<PublicationRecord>, parts: seq<seq<PublicationRecord>>)
    requires Partitions(records, parts)
    ensures SeriesSound(records) <==> AllChains(parts)
  {
    hide FormsChain, SeriesOf;
  }

  datatype LogicalRevision = LogicalRevision(series: SeriesId, revision: int)

  function LogicalKey(r: PublicationRecord): LogicalRevision { LogicalRevision(r.Series(), r.recordSetRevision) }

  /** In sound series every logical revision is recorded once. */
  lemma SoundRevisionsDiffer(records: seq<PublicationRecord>, x: PublicationRecord, y: PublicationRecord)
    requires SeriesSound(records) && x in records && y in records && LogicalKey(x) == LogicalKey(y)
    ensures x == y
  {
    var s := x.Series();
    GroupMembers(records, SeriesKey, s);
    LocallyValidIffChain(SeriesOf(records, s));
  }

  // ------------------------------------------------------------------- the audit

  lemma NoEntries<T>(entries: seq<CollectionEntry<T>>, idOf: T -> string)
    requires entries == []
    ensures AllLoad(entries, idOf) && Contents(entries, idOf) == []
  {
  }

  lemma OneEntryMore<T>(entries: seq<CollectionEntry<T>>, idOf: T -> string, i: nat)
    requires i < |entries|
    ensures AllLoad(entries[..i + 1], idOf) <==> AllLoad(entries[..i], idOf) && Loads(entries[i], idOf)
    ensures Contents(entries[..i + 1], idOf)
            == Contents(entries[..i], idOf) + if Loads(entries[i], idOf) then [entries[i].content.value] else []
  {
    assert entries[..i + 1] == entries[..i] + [entries[i]] && entries[..i + 1][..i] == entries[..i];
  }

  method ScanCollection<T>(entries: seq<CollectionEntry<T>>, idOf: T -> string, stray: Code, invalid: Code)
    returns (findings: seq<Finding>, items: seq<T>)
    ensures Clean(findings) <==> AllLoad(entries, idOf)
    ensures items == Contents(entries, idOf)
  {
    NoEntries(entries[..0], idOf);
    hide AllLoad, Contents, Clean;
    findings, items := [], [];
    OneFinding(Finding(Error, PublicationsDomain, stray));
    for i := 0 to |entries|
      invariant Clean(findings) <==> AllLoad(entries[..i], idOf)
      invariant items == Contents(entries[..i], idOf)
    {
      var e := entries[i];
      OneEntryMore(entries, idOf, i);
      if e.CanonicalFile? && Loads(e, idOf) {
        items := items + [e.content.value];
      } else {
        var f := Finding(Error, PublicationsDomain, if e.StrayFile? then stray else invalid);
        CleanConcat(findings, [f]);
        OneFinding(f);
        findings := findings + [f];
      }
    }
    assert entries[..|entries|] == entries;
  }

  /** The referenced registration revision has been read, or can be. */
  ghost predicate ReferenceFound(observed: set<Reference>, onDisk: Reference -> bool, r: PublicationRecord) {
    r.kind.AcademicResultSet? ==>
      && r.registrationRevision.Some?
      && (Reference(r.work, r.registrationRevision.value) in observed
          || onDisk(Reference(r.work, r.registrationRevision.value)))
  }

  lemma FoundIsObserved(records: seq<PublicationRecord>, observed: set<Reference>, onDisk: Reference -> bool)
    requires forall x :: onDisk(x) ==> x in observed
    ensures (forall r :: r in records ==> ReferenceFound(observed, onDisk, r)) <==>
            (forall r :: r in records ==> ReferenceStands(observed, r))
  {
    forall r ensures ReferenceFound(observed, onDisk, r) <==> ReferenceStands(observed, r) {}
  }

  /**
   `observed` holds every registration revision the registration scan has read; `onDisk` tries
   to load one it has not.
   */
  method ScanReferences(records: seq<PublicationRecord>, observed: set<Reference>, onDisk: Reference -> bool)
    returns (findings: seq<Finding>)
    ensures Clean(findings) <==> forall r :: r in records ==> ReferenceFound(observed, onDisk, r)
  {
    findings := [];
    var missing := Finding(Error, PublicationsDomain, RegistrationMissing);
    OneFinding(missing);
    for i := 0 to |records|
      invariant Clean(findings) <==> forall r :: r in records[..i] ==> ReferenceFound(observed, onDisk, r)
    {
      var r := records[i];
      assert records[..i + 1] == records[..i] + [r] && r in records[..i + 1];
      if r.kind.AcademicResultSet? {
        if r.registrationRevision.None? {
          CleanConcat(findings, [missing]);
          findings := findings + [missing];
        } else {
          var reference := Reference(r.work, r.registrationRevision.value);
          if reference !in observed && !onDisk(reference) {
            CleanConcat(findings, [missing]);
            findings := findings + [missing];
          }
        }
      }
    }
    assert records[..|records|] == records;
  }

  /** One finding for each of several records. */
  function ForEach(records: seq<PublicationRecord>, code: Code): (findings: seq<Finding>)
    ensures |findings| == |records|
  {
    seq(|records|, _ => Finding(Error, PublicationsDomain, code))
  }

  lemma ForEachIsDirty(records: seq<PublicationRecord>, code: Code)
    ensures Clean(ForEach(records, code)) <==> records == []
  {
    if records != [] { assert ForEach(records, code)[0] in ForEach(records, code); }
  }

  lemma NothingElse(allowed: set<Finding>)
    ensures Only([], allowed)
  {
  }

  lemma AlsoForEach(findings: seq<Finding>, records: seq<PublicationRecord>, code: Code)
    requires Only(findings, {Finding(Error, PublicationsDomain, code)})
    ensures Only(findings + ForEach(records, code), {Finding(Error, PublicationsDomain, code)})
    ensures findings + [] == findings
  {
  }

  /** No two of the records bind the same logical revision. */
  ghost predicate RevisionsOnce(records: seq<PublicationRecord>) {
    forall i, j :: 0 <= i < j < |records| ==> LogicalKey(records[i]) != LogicalKey(records[j])
  }

  lemma SoundRevisionsOnce(records: seq<PublicationRecord>)
    requires SeriesSound(records) && IdsDiffer(records, RecordId)
    ensures RevisionsOnce(records)
  {
    hide SeriesSound;
    forall i, j | 0 <= i < j < |records| ensures LogicalKey(records[i]) != LogicalKey(records[j]) {
      assert RecordId(records[i]) != RecordId(records[j]);
      if LogicalKey(records[i]) == LogicalKey(records[j]) { SoundRevisionsDiffer(records, records[i], records[j]); }
    }
  }

  lemma DistinctRecords(records: seq<PublicationRecord>)
    requires IdsDiffer(records, RecordId)
    ensures Distinct(records)
  {
    forall i, j | 0 <= i < j < |records| ensures records[i] != records[j] {
      assert RecordId(records[i]) != RecordId(records[j]);
    }
  }

  lemma TwoRecordsClash(records: seq<PublicationRecord>, x: PublicationRecord, y: PublicationRecord)
    requires x in records && y in records && x != y && LogicalKey(x) == LogicalKey(y)
    ensures !RevisionsOnce(records)
  {
    var i :| 0 <= i < |records| && records[i] == x;
    var j :| 0 <= j < |records| && records[j] == y;
    assert LogicalKey(records[if i < j then i else j]) == LogicalKey(records[if i < j then j else i]);
  }

  /** Bound once means bound by at most one record, key by key. */
  lemma OnceIffShortGroups(records: seq<PublicationRecord>)
    requires IdsDiffer(records, RecordId)
    ensures RevisionsOnce(records) <==> forall k :: |Group(records, LogicalKey, k)| <= 1
  {
    hide IdsDiffer, Group;
    DistinctRecords(records);
    if k :| |Group(records, LogicalKey, k)| > 1 {
      GroupMembers(records, LogicalKey, k);
      var g := Group(records, LogicalKey, k);
      assert g[0] in g && g[1] in g;
      TwoRecordsClash(records, g[0], g[1]);
    }
    if !RevisionsOnce(records) {
      var i, j :| 0 <= i < j < |records| && LogicalKey(records[i]) == LogicalKey(records[j]);
      var k := LogicalKey(records[i]);
      GroupMembers(records, LogicalKey, k);
      var g := Group(records, LogicalKey, k);
      assert records[i] in g && records[j] in g && records[i] != records[j];
    }
  }

  method ScanDuplicates(records: seq<PublicationRecord>) returns (findings: seq<Finding>)
    requires IdsDiffer(records, RecordId)
    ensures Clean(findings) <==> RevisionsOnce(records)
    ensures Only(findings, {Finding(Error, PublicationsDomain, LogicalRevisionDuplicate)})
  {
    hide RevisionsOnce, IdsDiffer, Clean, Grouped, Short, ForEach, Only;
    OnceIffShortGroups(records);
    var order, groups := GroupBy(records, LogicalKey);
    GroupedKeys(records, order, groups);
    ShortGroups(records, order, groups);
    findings := [];
    OneFinding(Finding(Error, PublicationsDomain, LogicalRevisionDuplicate));
    NothingElse({Finding(Error, PublicationsDomain, LogicalRevisionDuplicate)});
    for i := 0 to |order|
      invariant Clean(findings) <==> Short(Parts(order, groups)[..i])
      invariant Only(findings, {Finding(Error, PublicationsDomain, LogicalRevisionDuplicate)})
    {
      var same := groups[order[i]];
      var found := if |same| > 1 then ForEach(same, LogicalRevisionDuplicate) else [];
      ForEachIsDirty(same, LogicalRevisionDuplicate);
      CleanConcat(findings, found);
      AlsoForEach(findings, same, LogicalRevisionDuplicate);
      OneMoreShort(Parts(order, groups), i);
      findings := findings + found;
    }
  }

  lemma GroupedKeys(records: seq<PublicationRecord>, order: seq<LogicalRevision>,
                    groups: map<LogicalRevision, seq<PublicationRecord>>)
    requires Grouped(records, LogicalKey, order, groups)
    ensures forall k :: k in order ==> k in groups && groups[k] != []
  {
  }

  lemma ShortGroups(records: seq<PublicationRecord>, order: seq<LogicalRevision>,
                    groups: map<LogicalRevision, seq<PublicationRecord>>)
    requires Grouped(records, LogicalKey, order, groups)
    ensures Short(Parts(order, groups)[..|order|]) <==> forall k :: |Group(records, LogicalKey, k)| <= 1
    ensures Short(Parts(order, groups)[..0])
  {
    hide Group;
    var parts := Parts(order, groups);
    assert parts[..|order|] == parts;
    if k :| |Group(records, LogicalKey, k)| > 1 {
      assert k in groups;
      var t :| 0 <= t < |order| && order[t] == k;
      assert |parts[t]| > 1;
    }
    if part :| part in parts && |part| > 1 {
      var t :| 0 <= t < |order| && parts[t] == part;
      assert order[t] in order;
      assert |Group(records, LogicalKey, order[t])| > 1;
    }
  }

  ghost predicate Short(parts: seq<seq<PublicationRecord>>) { forall part :: part in parts ==> |part| <= 1 }

  lemma OneMoreShort(parts: seq<seq<PublicationRecord>>, i: nat)
    requires i < |parts|
    ensures Short(parts[..i + 1]) <==> Short(parts[..i]) && |parts[i]| <= 1
  {
    assert parts[..i + 1] == parts[..i] + [parts[i]];
  }

  method ScanSeries(records: seq<PublicationRecord>) returns (findings: seq<Finding>)
    ensures Clean(findings) <==> SeriesSound(records)
  {
    var parts := GroupSeries(records);
    SoundIffAllChains(records, parts);
    findings := [];
    assert forall part :: part in parts ==> part != [];
    hide Partitions, FormsChain, SeriesSound;
    for i := 0 to |parts|
      invariant Clean(findings) <==> AllChains(parts[..i])
    {
      assert parts[i] in parts;
      var found := ScanOneSeries(parts[i]);
      CleanConcat(findings, found);
      assert parts[..i + 1] == parts[..i] + [parts[i]];
      findings := findings + found;
    }
    assert parts[..|parts|] == parts;
  }

  method ScanOneSeries(group: seq<PublicationRecord>) returns (findings: seq<Finding>)
    requires group != []
    ensures Clean(findings) <==> FormsChain(group)
  {
    var validated := ValidatePublicationRecordSeries(group);
    var invalid := if validated.Failure? then ForEach(group, SeriesInvalid) else [];
    ForEachIsDirty(group, SeriesInvalid);
    var heads := Heads(group);
    var competing := if |heads| > 1 then ForEach(heads, CompetingHead) else [];
    ForEachIsDirty(heads, CompetingHead);
    CleanConcat(invalid, competing);
    findings := invalid + competing;
  }

  function FindById(records: seq<PublicationRecord>, id: string): Option<PublicationRecord> {
    if records == [] then None
    else if records[0].publicationId == id then Some(records[0])
    else FindById(records[1..], id)
  }

  lemma {:induction false} FoundById(records: seq<PublicationRecord>, d: PublicationWithdrawal)
    requires IdsDiffer(records, RecordId)
    ensures var r := FindById(records, d.publicationId);
            Withdraws(records, d) <==> r.Some? && ValidWithdrawal(r.value, d)
  {
    if records != [] {
      forall i, j | 0 <= i < j < |records| - 1 ensures RecordId(records[1..][i]) != RecordId(records[1..][j]) {
        assert RecordId(records[i + 1]) != RecordId(records[j + 1]);
      }
      FoundById(records[1..], d);
      assert forall k :: 0 < k < |records| ==> RecordId(records[0]) != RecordId(records[k]);
      assert forall x :: x in records <==> x == records[0] || x in records[1..];
    }
  }

  method ScanWithdrawals(records: seq<PublicationRecord>, entries: seq<CollectionEntry<PublicationWithdrawal>>)
    returns (findings: seq<Finding>)
    requires IdsDiffer(records, RecordId)
    ensures Clean(findings) <==>
      AllLoad(entries, WithdrawalId) && forall d :: d in Contents(entries, WithdrawalId) ==> Withdraws(records, d)
  {
    var unreadable, withdrawals := ScanCollection(entries, WithdrawalId, WithdrawalInvalid, WithdrawalInvalid);
    findings := unreadable;
    for i := 0 to |withdrawals|
      invariant Clean(findings) <==>
        AllLoad(entries, WithdrawalId) && forall d :: d in withdrawals[..i] ==> Withdraws(records, d)
    {
      var d := withdrawals[i];
      assert withdrawals[..i + 1] == withdrawals[..i] + [d];
      FoundById(records, d);
      var record := FindById(records, d.publicationId);
      if record.None? || !ValidWithdrawal(record.value, d) {
        var f := Finding(Error, PublicationsDomain, if record.None? then WithdrawalOrphan else WithdrawalChronology);
        CleanConcat(findings, [f]);
        OneFinding(f);
        findings := findings + [f];
      }
    }
    assert withdrawals[..|withdrawals|] == withdrawals;
  }

  /**
   The whole publication scan of an audit without filters, where the registration scan has
   already read all there is.
   */
  method ScanPublications(publications: seq<CollectionEntry<PublicationRecord>>,
                          withdrawals: seq<CollectionEntry<PublicationWithdrawal>>, observed: set<Reference>,
                          onDisk: Reference -> bool)
    returns (findings: seq<Finding>)
    requires FilesUnique(publications) && forall x :: onDisk(x) ==> x in observed
    ensures Clean(findings) <==>
      && AllLoad(publications, RecordId) && AllLoad(withdrawals, WithdrawalId)
      && CollectionsSound(Contents(publications, RecordId), Contents(withdrawals, WithdrawalId), observed)
  {
    ContentsDiffer(publications, RecordId);
    hide SeriesSound, ReferenceStands, ReferenceFound, Withdraws, IdsDiffer, AllLoad, RevisionsOnce;
    var unreadable, records := ScanCollection(publications, RecordId, UnexpectedEntry, RecordInvalid);
    var references := ScanReferences(records, observed, onDisk);
    FoundIsObserved(records, observed, onDisk);
    var duplicates := ScanDuplicates(records);
    if SeriesSound(records) { SoundRevisionsOnce(records); }
    var series := ScanSeries(records);
    var withdrawn := ScanWithdrawals(records, withdrawals);
    FiveParts(unreadable, references, duplicates, series, withdrawn);
    findings := unreadable + references + duplicates + series + withdrawn;
  }

  // ------------------------------------------------------------- the catalog loader

  method ParseCollection<T>(entries: seq<CollectionEntry<T>>, idOf: T -> string)
    returns (result: Result<seq<T>, SourceError>)
    ensures result.Success? <==> AllLoad(entries, idOf)
    ensures result.Success? ==> result.value == Contents(entries, idOf)
  {
    var items: seq<T> := [];
    for i := 0 to |entries|
      invariant AllLoad(entries[..i], idOf) && items == Contents(entries[..i], idOf)
    {
      var e := entries[i];
      assert e in entries;
      if e.StrayFile? { return Failure(UnexpectedSource); }
      if !Loads(e, idOf) { return Failure(InvalidRecord); }
      assert entries[..i + 1] == entries[..i] + [e] && entries[..i + 1][..i] == entries[..i];
      items := items + [e.content.value];
    }
    assert entries[..|entries|] == entries;
    return Success(items);
  }

  method CheckRecords(records: seq<PublicationRecord>, registered: set<Reference>) returns (error: Option<SourceError>)
    ensures error.None? <==> RevisionsOnce(records) && forall r :: r in records ==> ReferenceStands(registered, r)
    ensures error.Some? ==> error.value in {DuplicateLogicalRevision, MissingRegistration}
  {
    var logical: set<LogicalRevision> := {};
    for i := 0 to |records|
      invariant forall k :: 0 <= k < i ==> ReferenceStands(registered, records[k])
      invariant forall l :: l in logical <==> exists k :: 0 <= k < i && LogicalKey(records[k]) == l
      invariant forall j, k :: 0 <= j < k < i ==> LogicalKey(records[j]) != LogicalKey(records[k])
    {
      var r := records[i];
      assert r in records;
      if LogicalKey(r) in logical { return Some(DuplicateLogicalRevision); }
      logical := logical + {LogicalKey(r)};
      if r.kind.AcademicResultSet? {
        if r.registrationRevision.None? || Reference(r.work, r.registrationRevision.value) !in registered {
          return Some(MissingRegistration);
        }
      }
    }
    error := None;
  }

  method CheckSeries(records: seq<PublicationRecord>) returns (result: Result<set<string>, SourceError>)
    requires IdsDiffer(records, RecordId)
    ensures result.Success? <==> SeriesSound(records)
    ensures result.Success? ==> forall id :: id in result.value <==> HeadOf(records, id)
  {
    var parts := GroupSeries(records);
    SoundIffAllChains(records, parts);
    AllHeadIds(records, parts);
    assert forall part :: part in parts ==> part != [];
    hide Partitions, FormsChain, SeriesSound, HeadOf, AllChains, HeadOfSome;
    NoParts();
    var heads: set<string> := {};
    for i := 0 to |parts|
      invariant AllChains(parts[..i])
      invariant forall id :: id in heads <==> HeadOfSome(parts[..i], id)
    {
      PartsOneMore(parts, i);
      assert parts[i] in parts;
      var valid := IsOneSeries(parts[i]);
      if !valid { return Failure(InvalidSeries); }
      var ids := HeadIds(parts[i]);
      heads := heads + ids;
    }
    assert parts[..|parts|] == parts;
    return Success(heads);
  }

  method IsOneSeries(part: seq<PublicationRecord>) returns (valid: bool)
    requires part != []
    ensures valid <==> FormsChain(part)
  {
    hide FormsChain, IsChain, ErrorIsReal;
    var validated := ValidatePublicationRecordSeries(part);
    valid := validated.Success?;
  }

  lemma NoParts()
    ensures AllChains([]) && forall id :: !HeadOfSome([], id)
  {
  }

  lemma PartsOneMore(parts: seq<seq<PublicationRecord>>, i: nat)
    requires i < |parts|
    ensures AllChains(parts[..i + 1]) <==> AllChains(parts[..i]) && FormsChain(parts[i])
    ensures AllChains(parts) ==> AllChains(parts[..i + 1])
    ensures forall id :: HeadOfSome(parts[..i + 1], id) <==> HeadOfSome(parts[..i], id) || HeadOf(parts[i], id)
  {
    hide FormsChain, HeadOf;
    assert parts[..i + 1] == parts[..i] + [parts[i]];
    assert forall part :: part in parts[..i + 1] <==> part in parts[..i] || part == parts[i];
  }

  ghost predicate HeadOfSome(parts: seq<seq<PublicationRecord>>, id: string) {
    exists part :: part in parts && HeadOf(part, id)
  }

  ghost predicate HeadOf(part: seq<PublicationRecord>, id: string) {
    exists r :: r in Heads(part) && r.publicationId == id
  }

  method HeadIds(part: seq<PublicationRecord>) returns (ids: set<string>)
    ensures forall id :: id in ids <==> HeadOf(part, id)
  {
    hide Heads;
    ids := set r | r in Heads(part) :: r.publicationId;
  }

  lemma AllHeadIds(records: seq<PublicationRecord>, parts: seq<seq<PublicationRecord>>)
    requires IdsDiffer(records, RecordId) && Partitions(records, parts)
    ensures SeriesSound(records) ==> forall id :: HeadOf(records, id) <==> HeadOfSome(parts, id)
  {
    if SeriesSound(records) {
      HeadsBySeries(records);
      hide SeriesSound, HeadOf, SeriesOf, IdsDiffer, HeadOfSome, Partitions;
      forall id ensures HeadOf(records, id) <==> HeadOfSome(parts, id) { HeadIdAgrees(records, parts, id); }
    }
  }

  lemma HeadIdAgrees(records: seq<PublicationRecord>, parts: seq<seq<PublicationRecord>>, id: string)
    requires Partitions(records, parts)
    requires forall s, r :: r in Heads(SeriesOf(records, s)) <==> r in Heads(records) && r.Series() == s
    ensures HeadOf(records, id) <==> HeadOfSome(parts, id)
  {
    hide Heads, SeriesOf;
    if HeadOfSome(parts, id) {
      var part :| part in parts && HeadOf(part, id);
      var s :| part == SeriesOf(records, s);
      var r :| r in Heads(part) && r.publicationId == id;
      assert r in Heads(SeriesOf(records, s));
    }
    if HeadOf(records, id) {
      var r :| r in Heads(records) && r.publicationId == id;
      var s := r.Series();
      assert r in Heads(SeriesOf(records, s));
      HeadIsListed(SeriesOf(records, s), r);
      assert HeadOf(SeriesOf(records, s), id);
    }
  }

  lemma HeadIsListed(records: seq<PublicationRecord>, r: PublicationRecord)
    requires r in Heads(records)
    ensures r in records
  {
    FilterMembers(records, (x: PublicationRecord) => x.publicationId !in SupersededIds(records));
  }

  /** In sound series the heads series by series are the records nothing at all supersedes. */
  lemma HeadsBySeries(records: seq<PublicationRecord>)
    requires SeriesSound(records) && IdsDiffer(records, RecordId)
    ensures forall s, r :: r in Heads(SeriesOf(records, s)) <==> r in Heads(records) && r.Series() == s
  {
    hide SeriesSound, IdsDiffer, Heads, SeriesOf;
    forall s, r ensures r in Heads(SeriesOf(records, s)) <==> r in Heads(records) && r.Series() == s {
      HeadInSeries(records, s, r);
    }
  }

  lemma HeadInSeries(records: seq<PublicationRecord>, s: SeriesId, r: PublicationRecord)
    requires SeriesSound(records) && IdsDiffer(records, RecordId)
    ensures r in Heads(SeriesOf(records, s)) <==> r in Heads(records) && r.Series() == s
  {
    hide SeriesSound, IdsDiffer, Filter;
    var part := SeriesOf(records, s);
    FilterMembers(records, (x: PublicationRecord) => x.publicationId !in SupersededIds(records));
    GroupMembers(records, SeriesKey, s);
    FilterMembers(part, (x: PublicationRecord) => x.publicationId !in SupersededIds(part));
    if r in part && r.publicationId in SupersededIds(records) {
      var x :| x in records && x.supersedes == Some(r.publicationId);
      SupersedesInsideSeries(records, x, r);
    }
  }

  lemma SupersedesInsideSeries(records: seq<PublicationRecord>, x: PublicationRecord, r: PublicationRecord)
    requires SeriesSound(records) && IdsDiffer(records, RecordId) && x in records && r in records
    requires x.supersedes == Some(r.publicationId)
    ensures x.Series() == r.Series()
  {
    var part := SeriesOf(records, x.Series());
    GroupMembers(records, SeriesKey, x.Series());
    LocallyValidIffChain(part);
    assert HasPredecessor(part, x);
    var p :| p in part && ValidSupersession(p, x);
    SameIdSameRecord(records, p, r);
  }

  lemma SameIdSameRecord(records: seq<PublicationRecord>, p: PublicationRecord, r: PublicationRecord)
    requires IdsDiffer(records, RecordId) && p in records && r in records && p.publicationId == r.publicationId
    ensures p == r
  {
    var i :| 0 <= i < |records| && records[i] == p;
    var j :| 0 <= j < |records| && records[j] == r;
    assert RecordId(records[i]) == RecordId(records[j]);
  }

  method CheckWithdrawals(records: seq<PublicationRecord>, withdrawals: seq<PublicationWithdrawal>)
    returns (error: Option<SourceError>)
    requires IdsDiffer(records, RecordId) && IdsDiffer(withdrawals, WithdrawalId)
    ensures error.None? <==> forall d :: d in withdrawals ==> Withdraws(records, d)
  {
    var seen: set<string> := {};
    for i := 0 to |withdrawals|
      invariant forall k :: 0 <= k < i ==> Withdraws(records, withdrawals[k])
      invariant forall k :: i <= k < |withdrawals| ==> WithdrawalId(withdrawals[k]) !in seen
    {
      var d := withdrawals[i];
      assert d in withdrawals && WithdrawalId(d) !in seen;
      assert forall k :: i < k < |withdrawals| ==> WithdrawalId(withdrawals[k]) != WithdrawalId(d);
      FoundById(records, d);
      var record := FindById(records, d.publicationId);
      if record.None? { return Some(OrphanWithdrawal); }
      if !ValidWithdrawal(record.value, d) { return Some(InvalidWithdrawal); }
      // Two withdrawal files cannot have the same name.
      if d.publicationId in seen { assert false; }
      seen := seen + {d.publicationId};
    }
    error := None;
  }

  datatype Collections = Collections(
    publications: seq<PublicationRecord>,
    withdrawals: seq<PublicationWithdrawal>,
    heads: set<string>)

  predicate RecordsById(a: PublicationRecord, b: PublicationRecord) { StrLe(a.publicationId, b.publicationId) }

  predicate WithdrawalsById(a: PublicationWithdrawal, b: PublicationWithdrawal) {
    StrLe(a.publicationId, b.publicationId)
  }

  /** The whole publication part of a projection: the first defect stops it. */
  method LoadPublications(publications: seq<CollectionEntry<PublicationRecord>>,
                          withdrawals: seq<CollectionEntry<PublicationWithdrawal>>, registered: set<Reference>)
    returns (result: Result<Collections, SourceError>)
    requires FilesUnique(publications) && FilesUnique(withdrawals)
    ensures result.Success? <==>
      && AllLoad(publications, RecordId) && AllLoad(withdrawals, WithdrawalId)
      && CollectionsSound(Contents(publications, RecordId), Contents(withdrawals, WithdrawalId), registered)
    ensures result.Success? ==>
      && result.value.publications == SortBy(Contents(publications, RecordId), RecordsById)
      && result.value.withdrawals == SortBy(Contents(withdrawals, WithdrawalId), WithdrawalsById)
      && forall id :: id in result.value.heads <==> HeadOf(Contents(publications, RecordId), id)
  {
    ContentsDiffer(publications, RecordId);
    ContentsDiffer(withdrawals, WithdrawalId);
    hide SeriesSound, ReferenceStands, Withdraws, IdsDiffer, AllLoad, Heads, RevisionsOnce;
    var records := ParseCollection(publications, RecordId);
    if records.Failure? { return Failure(records.error); }
    var withdrawn := ParseCollection(withdrawals, WithdrawalId);
    if withdrawn.Failure? { return Failure(withdrawn.error); }
    if SeriesSound(records.value) { SoundRevisionsOnce(records.value); }
    var error := CheckRecords(records.value, registered);
    if error.Some? { return Failure(error.value); }
    var heads := CheckSeries(records.value);
    if heads.Failure? { return Failure(heads.error); }
    error := CheckWithdrawals(records.value, withdrawn.value);
    if error.Some? { return Failure(error.value); }
    return Success(Collections(SortBy(records.value, RecordsById), SortBy(withdrawn.value, WithdrawalsById),
                               heads.value));
  }
}
