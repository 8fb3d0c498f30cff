/**
 Publication Records, the two relationships between them, and the validator that
 accepts a set of records as one unbranched, append-preserving series.
 */
module PublicationRecords {
  import opened Foundations

  // ---------------------------------------------------------------- data model

  datatype ModuleWorkRef = ModuleWorkRef(moduleId: string, classId: string, workId: string)

  datatype ModuleRecordRef =
    ModuleRecordRef(moduleId: string, recordKind: string, recordId: string, contractVersion: Option<string>)

  datatype PublicationKind = AcademicResultSet | InterventionRecordSet

  datatype SeriesId = SeriesId(work: ModuleWorkRef, kind: PublicationKind, recordSetId: string)

  /** Timestamps are instants: aware datetimes compare as points in time. */
  datatype PublicationRecord = PublicationRecord(
    publicationId: string,
    work: ModuleWorkRef,
    sourceRecord: Option<ModuleRecordRef>,
    kind: PublicationKind,
    capabilities: seq<string>,
    recordSetId: string,
    recordSetRevision: int,
    manifestContractVersion: string,
    manifestPath: string,
    manifestDigest: string,
    publishedAt: int,
    registrationRevision: Option<int>,
    supersedes: Option<string>)
  {
    function Series(): SeriesId { SeriesId(work, kind, recordSetId) }
  }

  datatype PublicationWithdrawal =
    PublicationWithdrawal(publicationId: string, withdrawnAt: int, reason: string)

  predicate ValidSupersession(prior: PublicationRecord, candidate: PublicationRecord) {
    && candidate.supersedes == Some(prior.publicationId)
    && candidate.work == prior.work
    && candidate.kind == prior.kind
    && candidate.recordSetId == prior.recordSetId
    && candidate.recordSetRevision > prior.recordSetRevision
    && candidate.publishedAt >= prior.publishedAt
  }

  predicate ValidWithdrawal(record: PublicationRecord, withdrawal: PublicationWithdrawal) {
    withdrawal.publicationId == record.publicationId && withdrawal.withdrawnAt >= record.publishedAt
  }

  predicate ByRevision(a: PublicationRecord, b: PublicationRecord) {
    a.recordSetRevision < b.recordSetRevision
    || (a.recordSetRevision == b.recordSetRevision && StrLe(a.publicationId, b.publicationId))
  }

  lemma ByRevisionIsOrder()
    ensures Total(ByRevision) && Transitive(ByRevision)
  {
    StrLeIsOrder();
  }

  // -------------------------------------------------------------------- chains

  /** One root, then each record superseding the one before it; no id twice. */
  ghost predicate IsChain(s: seq<PublicationRecord>) {
    && (s != [] ==> s[0].supersedes.None?)
    && (forall i :: 0 < i < |s| ==> ValidSupersession(s[i - 1], s[i]))
    && (forall i, j :: 0 <= i < j < |s| ==> s[i].publicationId != s[j].publicationId)
  }

  /** Some order of the records is a chain. */
  ghost predicate FormsChain(records: seq<PublicationRecord>) {
    exists order :: multiset(order) == multiset(records) && IsChain(order)
  }

  lemma {:induction false} ChainIsOneSeries(s: seq<PublicationRecord>, i: nat)
    requires IsChain(s) && i < |s|
    ensures s[i].Series() == s[0].Series()
  {
    if i > 0 { ChainIsOneSeries(s, i - 1); }
  }

  lemma {:induction false} ChainRises(s: seq<PublicationRecord>, i: nat, j: nat)
    requires IsChain(s) && i < j < |s|
    ensures s[i].recordSetRevision < s[j].recordSetRevision
    ensures s[i].publishedAt <= s[j].publishedAt
    decreases j
  {
    if i < j - 1 { ChainRises(s, i, j - 1); }
  }

  lemma ChainAppend(s: seq<PublicationRecord>, c: PublicationRecord)
    requires IsChain(s)
    requires if s == [] then c.supersedes.None? else ValidSupersession(s[|s| - 1], c)
    requires forall i :: 0 <= i < |s| ==> s[i].publicationId != c.publicationId
    ensures IsChain(s + [c])
  {
  }

  /** A chain among the records of a longer chain is a prefix of it. */
  lemma {:induction false} ChainPrefix(s: seq<PublicationRecord>, t: seq<PublicationRecord>)
    requires IsChain(s) && IsChain(t)
    requires forall x :: x in s ==> x in t
    ensures s <= t
  {
    if s != [] {
      var n := |s| - 1;
      assert forall x :: x in s[..n] ==> x in s;
      ChainPrefix(s[..n], t);
      assert s[n] in t;
      var k :| 0 <= k < |t| && t[k] == s[n];
      if n > 0 {
        assert s[n - 1] == s[..n][n - 1] == t[n - 1];
        SuccessorPosition(t, n, k);
      }
      assert k > 0 ==> ValidSupersession(t[k - 1], t[k]);
      assert k == n;
      assert s == s[..n] + [s[n]];
    }
  }

  /** What supersedes a record of a chain stands right after it. */
  lemma SuccessorPosition(t: seq<PublicationRecord>, n: nat, k: nat)
    requires IsChain(t) && 0 < n <= |t| && k < |t| && ValidSupersession(t[n - 1], t[k])
    ensures k == n
  {
    assert k > 0 && ValidSupersession(t[k - 1], t[k]);
    assert t[k - 1].publicationId == t[n - 1].publicationId;
  }

  lemma ChainsWithSameRecords(s: seq<PublicationRecord>, t: seq<PublicationRecord>)
    requires IsChain(s) && IsChain(t)
    requires forall x :: x in s <==> x in t
    ensures s == t
  {
    ChainPrefix(s, t);
    ChainPrefix(t, s);
  }

  // --------------------------------------------- the validator's local conditions

  ghost predicate SharedIdentity(r: seq<PublicationRecord>) {
    forall x, y :: x in r && y in r ==> x.Series() == y.Series()
  }

  ghost predicate IdsIdentify(r: seq<PublicationRecord>) {
    forall x, y :: x in r && y in r && x.publicationId == y.publicationId ==> x == y
  }

  ghost predicate RevisionsIdentify(r: seq<PublicationRecord>) {
    forall x, y :: x in r && y in r && x.recordSetRevision == y.recordSetRevision ==> x == y
  }

  ghost predicate OneRoot(r: seq<PublicationRecord>) {
    && (exists x :: x in r && x.supersedes.None?)
    && (forall x, y :: x in r && y in r && x.supersedes.None? && y.supersedes.None? ==> x == y)
  }

  ghost predicate HasPredecessor(r: seq<PublicationRecord>, x: PublicationRecord) {
    exists p :: p in r && ValidSupersession(p, x)
  }

  ghost predicate Linked(r: seq<PublicationRecord>) {
    LinkedInto(r, r)
  }

  // The explicit trigger stops each predecessor from asking for its own.
  ghost predicate LinkedInto(part: seq<PublicationRecord>, r: seq<PublicationRecord>) {
    forall x {:trigger HasPredecessor(r, x)} :: x in part && x.supersedes.Some? ==> HasPredecessor(r, x)
  }

  ghost predicate Unbranched(r: seq<PublicationRecord>) {
    forall x, y :: x in r && y in r && x.supersedes.Some? && x.supersedes == y.supersedes ==> x == y
  }

  ghost predicate LocallyValid(r: seq<PublicationRecord>) {
    Distinct(r) && SharedIdentity(r) && IdsIdentify(r) && RevisionsIdentify(r)
    && OneRoot(r) && Linked(r) && Unbranched(r)
  }

  lemma LocallyValidByContents(r: seq<PublicationRecord>, s: seq<PublicationRecord>)
    requires LocallyValid(r) && multiset(r) == multiset(s)
    ensures LocallyValid(s)
  {
    SameContents(r, s);
    DistinctByContents(r, s);
    forall x | x in s && x.supersedes.Some? ensures HasPredecessor(s, x) {
      assert HasPredecessor(r, x);
      var p :| p in r && ValidSupersession(p, x);
      assert p in s;
    }
  }

  lemma PredecessorIsEarlier(s: seq<PublicationRecord>, i: nat) returns (j: nat)
    requires Linked(s) && Sorted(s, ByRevision) && i < |s| && s[i].supersedes.Some?
    ensures j < i && ValidSupersession(s[j], s[i])
  {
    assert s[i] in s && HasPredecessor(s, s[i]);
    var p :| p in s && ValidSupersession(p, s[i]);
    j :| 0 <= j < |s| && s[j] == p;
    assert i < j ==> ByRevision(s[i], s[j]);
  }

  /** In revision order, record `i` can only supersede record `i - 1`. */
  lemma {:induction false} PredecessorIsNeighbour(s: seq<PublicationRecord>, i: nat)
    requires Distinct(s) && OneRoot(s) && Linked(s) && Unbranched(s) && Sorted(s, ByRevision) && i < |s|
    ensures if i == 0 then s[0].supersedes.None? else ValidSupersession(s[i - 1], s[i])
  {
    if s[i].supersedes.Some? {
      var j := PredecessorIsEarlier(s, i);
      if j + 1 < i {
        PredecessorIsNeighbour(s, j + 1);
        OneSuccessor(s, j + 1, i);
      }
    } else if i > 0 {
      PredecessorIsNeighbour(s, 0);
      OnlyRoot(s, 0, i);
    }
  }

  lemma OneSuccessor(s: seq<PublicationRecord>, i: nat, j: nat)
    requires Distinct(s) && Unbranched(s) && i < |s| && j < |s|
    requires s[i].supersedes.Some? && s[i].supersedes == s[j].supersedes
    ensures i == j
  {
    assert s[i] in s && s[j] in s;
  }

  lemma OnlyRoot(s: seq<PublicationRecord>, i: nat, j: nat)
    requires Distinct(s) && OneRoot(s) && i < |s| && j < |s|
    requires s[i].supersedes.None? && s[j].supersedes.None?
    ensures i == j
  {
    assert s[i] in s && s[j] in s;
  }

  lemma SortedIsChain(s: seq<PublicationRecord>)
    requires LocallyValid(s) && Sorted(s, ByRevision)
    ensures IsChain(s)
  {
    if s != [] { PredecessorIsNeighbour(s, 0); }
    forall i | 0 < i < |s| ensures ValidSupersession(s[i - 1], s[i]) {
      PredecessorIsNeighbour(s, i);
    }
    forall i, j | 0 <= i < j < |s| ensures s[i].publicationId != s[j].publicationId {
      assert s[i] in s && s[j] in s;
    }
  }

  lemma LocallyValidSortsToChain(r: seq<PublicationRecord>)
    requires LocallyValid(r)
    ensures IsChain(SortBy(r, ByRevision))
  {
    var s := SortBy(r, ByRevision);
    ByRevisionIsOrder();
    SortByContents(r, ByRevision);
    SortBySorted(r, ByRevision);
    LocallyValidByContents(r, s);
    SortedIsChain(s);
  }

  lemma ChainIsLocallyValid(s: seq<PublicationRecord>)
    requires IsChain(s) && s != []
    ensures LocallyValid(s)
  {
    forall x | x in s ensures x.Series() == s[0].Series() {
      var i :| 0 <= i < |s| && s[i] == x;
      ChainIsOneSeries(s, i);
    }
    forall x, y | x in s && y in s && x.recordSetRevision == y.recordSetRevision ensures x == y {
      var i :| 0 <= i < |s| && s[i] == x;
      var j :| 0 <= j < |s| && s[j] == y;
      if i < j { ChainRises(s, i, j); } else if j < i { ChainRises(s, j, i); }
    }
    assert s[0] in s;
    forall x | x in s && x.supersedes.Some? ensures HasPredecessor(s, x) {
      var i :| 0 <= i < |s| && s[i] == x;
      assert i > 0 && s[i - 1] in s;
    }
    forall x | x in s && x.supersedes.None? ensures x == s[0] {
      var i :| 0 <= i < |s| && s[i] == x;
      assert i > 0 ==> ValidSupersession(s[i - 1], s[i]);
    }
    forall x, y | x in s && y in s && x.supersedes.Some? && x.supersedes == y.supersedes ensures x == y {
      var i :| 0 <= i < |s| && s[i] == x;
      var j :| 0 <= j < |s| && s[j] == y;
      assert s[i - 1].publicationId == s[j - 1].publicationId;
    }
  }

  /** The validator's local conditions say exactly that the records form one chain. */
  lemma LocallyValidIffChain(r: seq<PublicationRecord>)
    requires r != []
    ensures LocallyValid(r) <==> FormsChain(r)
  {
    if LocallyValid(r) {
      LocallyValidSortsToChain(r);
      SortByContents(r, ByRevision);
    }
    if FormsChain(r) {
      var order :| multiset(order) == multiset(r) && IsChain(order);
      SameContents(order, r);
      ChainIsLocallyValid(order);
      LocallyValidByContents(order, r);
    }
  }

  /** The sorted result is the only order in which the records are a chain. */
  lemma ChainOrderIsRevisionOrder(r: seq<PublicationRecord>, order: seq<PublicationRecord>)
    requires multiset(order) == multiset(r) && IsChain(order)
    ensures SortBy(r, ByRevision) == order
  {
    SameContents(order, r);
    SortByContents(r, ByRevision);
    if r != [] {
      ChainIsLocallyValid(order);
      LocallyValidByContents(order, r);
      LocallyValidSortsToChain(r);
      ChainsWithSameRecords(SortBy(r, ByRevision), order);
    }
  }

  // --------------------------------------------------------------------- heads

  function SupersededIds(records: seq<PublicationRecord>): set<string> {
    set x | x in records && x.supersedes.Some? :: x.supersedes.value
  }

  /** The records no other record in the list supersedes. */
  function Heads(records: seq<PublicationRecord>): seq<PublicationRecord> {
    Filter(records, (x: PublicationRecord) => x.publicationId !in SupersededIds(records))
  }

  /** However a chain's records are listed, its last record is the unique head. */
  lemma HeadOfChain(records: seq<PublicationRecord>, chain: seq<PublicationRecord>)
    requires IsChain(chain) && chain != [] && multiset(records) == multiset(chain)
    ensures Heads(records) == [chain[|chain| - 1]]
  {
    var last := chain[|chain| - 1];
    var keep := (x: PublicationRecord) => x.publicationId !in SupersededIds(records);
    SameContents(records, chain);
    ChainIsLocallyValid(chain);
    DistinctByContents(chain, records);
    FilterMembers(records, keep);
    forall i | 0 <= i < |chain| ensures keep(chain[i]) <==> i == |chain| - 1 {
      if i < |chain| - 1 {
        assert chain[i + 1] in records && chain[i + 1].supersedes == Some(chain[i].publicationId);
      } else {
        forall x | x in records ensures x.supersedes != Some(chain[i].publicationId) {
          var j :| 0 <= j < |chain| && chain[j] == x;
          assert j > 0 ==> ValidSupersession(chain[j - 1], chain[j]);
        }
      }
    }
    forall y | y in Heads(records) ensures y == last {
      var i :| 0 <= i < |chain| && chain[i] == y;
    }
    assert last in chain;
    OnlyMember(Heads(records), last);
  }

  // ----------------------------------------------------------------- validator

  datatype SeriesError =
    | MixedIdentity
    | DuplicateId
    | DuplicateRevision
    | RootCount
    | MissingPredecessor
    | Branching
    | InvalidSupersession

  /** Each rejection names a defect the records really have. */
  ghost predicate ErrorIsReal(r: seq<PublicationRecord>, error: SeriesError) {
    match error
    case MixedIdentity => !SharedIdentity(r)
    case DuplicateId => exists i, j :: 0 <= i < j < |r| && r[i].publicationId == r[j].publicationId
    case DuplicateRevision => exists i, j :: 0 <= i < j < |r| && r[i].recordSetRevision == r[j].recordSetRevision
    case RootCount => !OneRoot(r)
    case MissingPredecessor =>
      exists x :: x in r && x.supersedes.Some? && forall p :: p in r ==> x.supersedes.value != p.publicationId
    case Branching => !Unbranched(r)
    case InvalidSupersession => !Linked(r)
  }

  lemma RealErrorBreaksChain(r: seq<PublicationRecord>, error: SeriesError)
    requires r != [] && ErrorIsReal(r, error)
    ensures !FormsChain(r)
  {
    LocallyValidIffChain(r);
    assert forall i :: 0 <= i < |r| ==> r[i] in r;
    if error.MissingPredecessor? {
      var x :| x in r && x.supersedes.Some? && forall p :: p in r ==> x.supersedes.value != p.publicationId;
      assert !HasPredecessor(r, x);
    }
  }

  function Ids(s: seq<PublicationRecord>): set<string> {
    set x | x in s :: x.publicationId
  }

  lemma {:induction false} IdCount(s: seq<PublicationRecord>)
    requires forall i, j :: 0 <= i < j < |s| ==> s[i].publicationId != s[j].publicationId
    ensures |Ids(s)| == |s|
  {
    if s != [] {
      var n := |s| - 1;
      IdCount(s[..n]);
      assert s == s[..n] + [s[n]];
      assert Ids(s) == Ids(s[..n]) + {s[n].publicationId};
    }
  }

  ghost predicate IndexedById(byId: map<string, PublicationRecord>, r: seq<PublicationRecord>) {
    && (forall x :: x in r ==> x.publicationId in byId && byId[x.publicationId] == x)
    && (forall id :: id in byId ==> byId[id] in r && byId[id].publicationId == id)
  }

  ghost predicate SuccessorsOf(successors: map<string, PublicationRecord>, r: seq<PublicationRecord>) {
    && (forall x :: x in r && x.supersedes.Some? ==>
          x.supersedes.value in successors && successors[x.supersedes.value] == x)
    && (forall id :: id in successors ==> successors[id] in r && successors[id].supersedes == Some(id))
  }

  ghost predicate DistinctKeys(r: seq<PublicationRecord>) {
    forall j, k :: 0 <= j < k < |r| ==>
      r[j].publicationId != r[k].publicationId && r[j].recordSetRevision != r[k].recordSetRevision
  }

  ghost predicate RevisionsOf(revisions: set<int>, r: seq<PublicationRecord>) {
    && (forall x :: x in r ==> x.recordSetRevision in revisions)
    && (forall v :: v in revisions ==> exists x :: x in r && x.recordSetRevision == v)
  }

  lemma IndexOneMore(byId: map<string, PublicationRecord>, r: seq<PublicationRecord>, x: PublicationRecord)
    requires IndexedById(byId, r) && x.publicationId !in byId
    ensures IndexedById(byId[x.publicationId := x], r + [x])
  {
    assert forall y :: y in r + [x] <==> y in r || y == x;
  }

  lemma RevisionOneMore(revisions: set<int>, r: seq<PublicationRecord>, x: PublicationRecord)
    requires RevisionsOf(revisions, r)
    ensures RevisionsOf(revisions + {x.recordSetRevision}, r + [x])
  {
    var more := r + [x];
    assert x == more[|r|];
    forall v | v in revisions + {x.recordSetRevision} ensures exists y :: y in more && y.recordSetRevision == v {
      if v in revisions {
        var y :| y in r && y.recordSetRevision == v;
        assert y in more;
      }
    }
  }

  lemma KeysOneMore(byId: map<string, PublicationRecord>, revisions: set<int>, r: seq<PublicationRecord>,
                    x: PublicationRecord)
    requires IndexedById(byId, r) && RevisionsOf(revisions, r) && DistinctKeys(r)
    requires x.publicationId !in byId && x.recordSetRevision !in revisions
    ensures DistinctKeys(r + [x])
  {
    assert forall k :: 0 <= k < |r| ==> r[k] in r;
  }

  lemma RepeatIsReal(r: seq<PublicationRecord>, i: nat, earlier: PublicationRecord)
    requires i < |r| && earlier in r[..i]
    ensures earlier.publicationId == r[i].publicationId ==> ErrorIsReal(r, DuplicateId)
    ensures earlier.recordSetRevision == r[i].recordSetRevision ==> ErrorIsReal(r, DuplicateRevision)
  {
    var k :| 0 <= k < i && r[..i][k] == earlier;
    assert r[k] == earlier;
  }

  method IndexRecords(records: seq<PublicationRecord>)
    returns (result: Result<map<string, PublicationRecord>, SeriesError>)
    ensures result.Success? ==> DistinctKeys(records) && IndexedById(result.value, records)
    ensures result.Failure? ==> ErrorIsReal(records, result.error)
  {
    var byId: map<string, PublicationRecord> := map[];
    var revisions: set<int> := {};
    for i := 0 to |records|
      invariant IndexedById(byId, records[..i]) && RevisionsOf(revisions, records[..i]) && DistinctKeys(records[..i])
    {
      var item := records[i];
      if item.publicationId in byId {
        RepeatIsReal(records, i, byId[item.publicationId]);
        return Failure(DuplicateId);
      }
      if item.recordSetRevision in revisions {
        ghost var earlier :| earlier in records[..i] && earlier.recordSetRevision == item.recordSetRevision;
        RepeatIsReal(records, i, earlier);
        return Failure(DuplicateRevision);
      }
      KeysOneMore(byId, revisions, records[..i], item);
      IndexOneMore(byId, records[..i], item);
      RevisionOneMore(revisions, records[..i], item);
      assert records[..i + 1] == records[..i] + [item];
      byId := byId[item.publicationId := item];
      revisions := revisions + {item.recordSetRevision};
    }
    assert records[..|records|] == records;
    return Success(byId);
  }

  method LinkSuccessors(records: seq<PublicationRecord>, byId: map<string, PublicationRecord>)
    returns (result: Result<map<string, PublicationRecord>, SeriesError>)
    requires DistinctKeys(records) && IndexedById(byId, records)
    ensures result.Success? ==> Linked(records) && Unbranched(records) && SuccessorsOf(result.value, records)
    ensures result.Failure? ==> ErrorIsReal(records, result.error)
  {
    var successors: map<string, PublicationRecord> := map[];
    for i := 0 to |records|
      invariant SuccessorsOf(successors, records[..i])
      invariant LinkedInto(records[..i], records)
    {
      var item := records[i];
      assert item in records;
      assert records[..i + 1] == records[..i] + [item];
      if item.supersedes.Some? {
        var predecessorId := item.supersedes.value;
        if predecessorId !in byId {
          return Failure(MissingPredecessor);
        }
        if predecessorId in successors {
          BranchIsReal(records, i, successors[predecessorId]);
          return Failure(Branching);
        }
        if !ValidSupersession(byId[predecessorId], item) {
          OnlyOnePredecessor(records, byId, item);
          return Failure(InvalidSupersession);
        }
        successors := successors[predecessorId := item];
      }
    }
    assert records[..|records|] == records;
    return Success(successors);
  }

  lemma NotVisitedYet(chain: seq<PublicationRecord>, k: nat)
    requires IsChain(chain) && k < |chain|
    ensures chain[k].publicationId !in Ids(chain[..k])
    ensures Ids(chain[..k + 1]) == Ids(chain[..k]) + {chain[k].publicationId}
    ensures Ids(chain[..0]) == {}
  {
    assert chain[..k + 1] == chain[..k] + [chain[k]];
  }

  lemma SameIds(a: seq<PublicationRecord>, b: seq<PublicationRecord>)
    requires forall x :: x in a <==> x in b
    ensures Ids(a) == Ids(b)
  {
  }

  lemma ChainIdCount(chain: seq<PublicationRecord>)
    requires IsChain(chain)
    ensures |Ids(chain)| == |chain|
  {
    IdCount(chain);
  }

  /**
   The walk from the root. Revisiting a record or leaving one out would be a
   cycle or a disconnected series; neither branch can be reached.
   */
  method WalkSeries(records: seq<PublicationRecord>, root: PublicationRecord,
                    successors: map<string, PublicationRecord>, ghost chain: seq<PublicationRecord>)
    returns (visited: set<string>)
    requires IsChain(chain) && chain != [] && multiset(chain) == multiset(records) && root == chain[0]
    requires SuccessorsOf(successors, records)
    ensures visited == Ids(records)
  {
    hide IsChain, SuccessorsOf, Ids;
    SameContents(chain, records);
    SameIds(chain, records);
    NotVisitedYet(chain, 0);
    visited := {};
    var current := root;
    ghost var k := 0;
    while true
      invariant 0 <= k < |chain| && current == chain[k]
      invariant visited == Ids(chain[..k])
      decreases |chain| - k
    {
      NotVisitedYet(chain, k);
      if current.publicationId in visited { assert false; }
      visited := visited + {current.publicationId};
      if current.publicationId !in successors {
        LastHasNoSuccessor(records, chain, successors, k);
        assert chain[..k + 1] == chain;
        break;
      }
      NextInChain(records, chain, successors, k);
      current := successors[current.publicationId];
      k := k + 1;
    }
    ChainIdCount(chain);
    if |visited| != |records| { assert false; }
  }

  /**
   The three checks the source makes after linking - one head, no cycle, nothing
   disconnected - can never be the ones to fail: each is an `assert false` here.
   */
  method ValidatePublicationRecordSeries(records: seq<PublicationRecord>)
    returns (result: Result<seq<PublicationRecord>, SeriesError>)
    ensures result.Success? <==> records == [] || FormsChain(records)
    ensures result.Success? ==> multiset(result.value) == multiset(records) && IsChain(result.value)
    ensures result.Success? && records != [] ==> Heads(records) == [result.value[|result.value| - 1]]
    ensures result.Failure? ==> ErrorIsReal(records, result.error)
  {
    if records == [] { return Success([]); }

    for i := 1 to |records|
      invariant forall k :: 0 <= k < i ==> records[k].Series() == records[0].Series()
    {
      if records[i].Series() != records[0].Series() {
        assert records[i] in records && records[0] in records;
        RealErrorBreaksChain(records, MixedIdentity);
        return Failure(MixedIdentity);
      }
    }

    var byId := IndexRecords(records);
    if byId.Failure? {
      RealErrorBreaksChain(records, byId.error);
      return Failure(byId.error);
    }

    var roots := Filter(records, (x: PublicationRecord) => x.supersedes.None?);
    FilterMembers(records, (x: PublicationRecord) => x.supersedes.None?);
    if |roots| != 1 {
      NotOneRoot(records, roots);
      RealErrorBreaksChain(records, RootCount);
      return Failure(RootCount);
    }

    var successors := LinkSuccessors(records, byId.value);
    if successors.Failure? {
      RealErrorBreaksChain(records, successors.error);
      return Failure(successors.error);
    }

    ghost var chain := CheckedSeriesIsChain(records, roots, successors.value);
    var heads := Filter(records, (x: PublicationRecord) => x.publicationId !in successors.value);
    if |heads| != 1 { assert false; }
    var _ := WalkSeries(records, roots[0], successors.value, chain);
    return Success(SortBy(records, ByRevision));
  }

  /** Everything the checks up to linking establish about the records. */
  lemma CheckedSeriesIsChain(r: seq<PublicationRecord>, roots: seq<PublicationRecord>,
                             successors: map<string, PublicationRecord>)
    returns (chain: seq<PublicationRecord>)
    requires r != [] && forall k :: 0 <= k < |r| ==> r[k].Series() == r[0].Series()
    requires DistinctKeys(r) && Linked(r) && Unbranched(r) && SuccessorsOf(successors, r)
    requires |roots| == 1 && forall x :: x in roots <==> x in r && x.supersedes.None?
    ensures chain == SortBy(r, ByRevision) && IsChain(chain) && multiset(chain) == multiset(r)
    ensures chain != [] && roots[0] == chain[0] && FormsChain(r)
    ensures Filter(r, (x: PublicationRecord) => x.publicationId !in successors) == [chain[|chain| - 1]]
    ensures Heads(r) == [chain[|chain| - 1]]
  {
    chain := SortBy(r, ByRevision);
    PassedChecksAreLocal(r, roots);
    LocallyValidSortsToChain(r);
    SortByContents(r, ByRevision);
    HeadOfChain(r, chain);
    RootIsFirst(r, roots, chain);
    SuccessorKeys(r, successors);
    SameFilter(r, (x: PublicationRecord) => x.publicationId !in SupersededIds(r),
               (x: PublicationRecord) => x.publicationId !in successors);
  }

  lemma RootIsFirst(r: seq<PublicationRecord>, roots: seq<PublicationRecord>, chain: seq<PublicationRecord>)
    requires IsChain(chain) && chain != [] && multiset(chain) == multiset(r)
    requires |roots| == 1 && forall x :: x in roots <==> x in r && x.supersedes.None?
    ensures roots[0] == chain[0]
  {
    SameContents(chain, r);
    assert chain[0] in r && chain[0] in roots;
  }

  lemma NotOneRoot(r: seq<PublicationRecord>, roots: seq<PublicationRecord>)
    requires forall x :: x in roots <==> x in r && x.supersedes.None?
    requires Distinct(roots) && |roots| != 1
    ensures !OneRoot(r)
  {
    if |roots| > 1 { assert roots[0] in roots && roots[1] in roots; }
  }

  lemma BranchIsReal(r: seq<PublicationRecord>, i: nat, other: PublicationRecord)
    requires i < |r| && other in r[..i] && other.supersedes.Some? && other.supersedes == r[i].supersedes
    requires DistinctKeys(r)
    ensures !Unbranched(r)
  {
    var j :| 0 <= j < i && r[..i][j] == other;
    assert r[j] in r && r[i] in r;
  }

  lemma OnlyOnePredecessor(r: seq<PublicationRecord>, byId: map<string, PublicationRecord>, item: PublicationRecord)
    requires IndexedById(byId, r) && item in r && item.supersedes.Some? && item.supersedes.value in byId
    requires !ValidSupersession(byId[item.supersedes.value], item)
    ensures !Linked(r)
  {
    forall p | p in r ensures !ValidSupersession(p, item) {
      assert byId[p.publicationId] == p;
    }
    assert !HasPredecessor(r, item);
  }

  lemma PassedChecksAreLocal(r: seq<PublicationRecord>, roots: seq<PublicationRecord>)
    requires forall k :: 0 <= k < |r| ==> r[k].Series() == r[0].Series()
    requires DistinctKeys(r) && Linked(r) && Unbranched(r)
    requires |roots| == 1 && forall x :: x in roots <==> x in r && x.supersedes.None?
    ensures LocallyValid(r)
  {
    assert roots[0] in roots;
    forall x, y | x in r && y in r
      ensures x.publicationId == y.publicationId ==> x == y
      ensures x.recordSetRevision == y.recordSetRevision ==> x == y
      ensures x.Series() == y.Series()
    {
      var i :| 0 <= i < |r| && r[i] == x;
      var j :| 0 <= j < |r| && r[j] == y;
    }
  }

  lemma SuccessorKeys(r: seq<PublicationRecord>, successors: map<string, PublicationRecord>)
    requires SuccessorsOf(successors, r)
    ensures successors.Keys == SupersededIds(r)
  {
  }

  lemma LastHasNoSuccessor(r: seq<PublicationRecord>, chain: seq<PublicationRecord>,
                           successors: map<string, PublicationRecord>, k: nat)
    requires IsChain(chain) && k < |chain| && (forall x :: x in chain <==> x in r)
    requires SuccessorsOf(successors, r) && chain[k].publicationId !in successors
    ensures k == |chain| - 1
  {
    assert k < |chain| - 1 ==> chain[k + 1] in r && ValidSupersession(chain[k], chain[k + 1]);
  }

  lemma NextInChain(r: seq<PublicationRecord>, chain: seq<PublicationRecord>,
                    successors: map<string, PublicationRecord>, k: nat)
    requires IsChain(chain) && k < |chain| && (forall x :: x in chain <==> x in r)
    requires SuccessorsOf(successors, r) && chain[k].publicationId in successors
    ensures k + 1 < |chain| && chain[k + 1] == successors[chain[k].publicationId]
  {
    var x := successors[chain[k].publicationId];
    assert x in chain;
    var j :| 0 <= j < |chain| && chain[j] == x;
    assert j > 0 && chain[j - 1].publicationId == chain[k].publicationId;
  }
}
