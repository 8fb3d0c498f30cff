/** What the audit finds in the states the writers' protocols can reach. */
module ReachableRegistry {
  import opened Foundations
  import opened PublicationRecords
  import PublicationProtocol
  import PublicationHistory
  import opened CanonicalHistories
  import opened CanonicalPublications
  import opened RegistryAudit
  import opened AcademicPeriods
  import AcademicPeriodStorage
  import RegistrationServices
  import RevisionStore
  import RevisionHistory

  // ---------------------------------------------------------- revision directories

  function ContentOf<T>(file: File<T>): Option<T> {
    match file
    case Partial => None
    case Complete(r) => Some(r)
  }

  /** A listing of the store: every stored revision once, hidden artifacts anywhere. */
  ghost predicate ListsStore<K, T>(s: RevisionStore.Store<T>, ns: Namespace<K, T>) {
    && StrayArtifact !in ns.others
    && NumbersUnique(ns.revisions)
    && (forall e :: e in ns.revisions ==>
          e == Misplaced(HiddenArtifact)
          || (e.RevisionFile? && e.number in s.revisions && e.content == ContentOf(s.revisions[e.number])))
    && (forall n :: n in s.revisions ==> RevisionFile(n, ContentOf(s.revisions[n])) in ns.revisions)
    && ns.pointer == (if s.pointer.None? then NoPointer else PointsTo(s.pointer.value))
  }

  ghost predicate SameRules<K, T(!new)>(h: HistoryRules<K, T>, u: RevisionStore.Rules<T>) {
    (forall a :: h.rev(a) == u.rev(a)) && (forall a, b :: h.step(a, b) == u.step(a, b))
  }

  /** The two kinds of directory the audit reads are the two stores the writers keep. */
  lemma RulesAgree()
    ensures SameRules(CalendarHistories(), AcademicPeriodStorage.CalendarRules())
    ensures SameRules(RegistrationHistories(), RegistrationServices.RegistrationRules())
    ensures forall c: Calendar :: CalendarHistories().key(c) == c.schoolYear
    ensures forall r: RegistrationServices.Registration :: RegistrationHistories().key(r) == r.metadata.work
  {
  }

  /** Everything stored is complete, filed under its revision and its work or school year. */
  ghost predicate Filed<K, T>(h: HistoryRules<K, T>, s: RevisionStore.Store<T>, key: K) {
    forall n | n in s.revisions && s.revisions[n].Complete? ::
      h.key(s.revisions[n].value) == key && h.rev(s.revisions[n].value) == n
  }

  ghost predicate NothingBeyond<T>(s: RevisionStore.Store<T>) {
    forall n :: n in s.revisions ==> s.pointer.Some? && n <= s.pointer.value
  }

  /** Every writer of the run was given a record of the directory's own work or school year. */
  ghost predicate WritersKeyed<K, T>(h: HistoryRules<K, T>, events: seq<RevisionStore.Event<T>>, key: K) {
    forall e :: e in events && e.Begin? && e.job.Write? ==> h.key(e.job.candidate) == key
  }

  ghost predicate AllKeyed<K, T>(h: HistoryRules<K, T>, w: RevisionStore.World<T>, key: K) {
    && (forall pid :: pid in w.procs && w.procs[pid].job.Write? ==> h.key(w.procs[pid].job.candidate) == key)
    && (forall n | n in w.store.revisions && w.store.revisions[n].Complete? :: h.key(w.store.revisions[n].value) == key)
  }

  lemma KeysStay<K, T(!new)>(h: HistoryRules<K, T>, u: RevisionStore.Rules<T>, w: RevisionStore.World<T>,
                             e: RevisionStore.Event<T>, key: K)
    requires AllKeyed(h, w, key) && RevisionStore.Enabled(w, e)
    requires e.Begin? && e.job.Write? ==> h.key(e.job.candidate) == key
    ensures AllKeyed(h, RevisionStore.Apply(u, w, e), key)
  {
    hide RevisionStore.Verdict, RevisionStore.Loads;
  }

  lemma {:induction false} KeyedOverRuns<K, T(!new)>(h: HistoryRules<K, T>, u: RevisionStore.Rules<T>,
                                                    trace: seq<RevisionStore.World<T>>,
                                                    events: seq<RevisionStore.Event<T>>, i: nat, key: K)
    requires RevisionStore.Run(u, trace, events) && RevisionStore.Initial(trace[0]) && i < |trace|
             && WritersKeyed(h, events, key)
    ensures AllKeyed(h, trace[i], key)
  {
    hide RevisionStore.Apply, RevisionStore.Enabled;
    if i > 0 {
      KeyedOverRuns(h, u, trace, events, i - 1, key);
      assert events[i - 1] in events;
      KeysStay(h, u, trace[i - 1], events[i - 1], key);
    }
  }

  lemma StoredAreFiled<K, T(!new)>(h: HistoryRules<K, T>, u: RevisionStore.Rules<T>, trace: seq<RevisionStore.World<T>>,
                                   events: seq<RevisionStore.Event<T>>, i: nat, key: K)
    requires SameRules(h, u) && RevisionStore.Raising(u)
    requires RevisionStore.Run(u, trace, events) && RevisionStore.Initial(trace[0]) && i < |trace|
             && WritersKeyed(h, events, key)
    ensures Filed(h, trace[i].store, key)
  {
    KeyedOverRuns(h, u, trace, events, i, key);
    RevisionStore.InvariantOverRuns(u, trace, events, i);
  }

  /**
   In any state a run of the revision store reaches, its writers all writing records of one
   work or school year - after whatever crashes, failed cleanups and lost races - the
   directory is sound exactly when no revision lies beyond the pointer. The orphan a crash
   can leave is the only defect there is to find.
   */
  lemma ReachableStoreIsSoundUnlessOrphaned<K, T(!new)>(h: HistoryRules<K, T>, u: RevisionStore.Rules<T>,
                                                        trace: seq<RevisionStore.World<T>>,
                                                        events: seq<RevisionStore.Event<T>>, i: nat,
                                                        ns: Namespace<K, T>)
    requires SameRules(h, u) && RevisionStore.Raising(u) && RevisionHistory.TransitiveStep(u)
    requires RevisionStore.Run(u, trace, events) && RevisionStore.Initial(trace[0]) && i < |trace|
    requires ListsStore(trace[i].store, ns) && WritersKeyed(h, events, ns.key)
    ensures HistorySound(h, ns) <==> NothingBeyond(trace[i].store)
  {
    StoredAreFiled(h, u, trace, events, i, ns.key);
    RevisionHistory.StoreStaysSound(u, trace, events, i);
    HistoryRises(h, ns);
    var s := trace[i].store;
    if HistorySound(h, ns) { SoundHasNothingBeyond(h, s, ns); }
    if NothingBeyond(s) {
      HistoryIsStore(h, s, ns);
      NothingBeyondIsSound(h, s, ns);
    }
  }

  lemma SoundHasNothingBeyond<K, T(!new)>(h: HistoryRules<K, T>, s: RevisionStore.Store<T>, ns: Namespace<K, T>)
    requires ListsStore(s, ns) && HistorySound(h, ns)
    ensures NothingBeyond(s)
  {
    HistoryRises(h, ns);
    forall n | n in s.revisions ensures s.pointer.Some? && n <= s.pointer.value {
      var e := RevisionFile(n, ContentOf(s.revisions[n]));
      assert e in ns.revisions && Readable(h, ns.key, e);
      var r := e.content.value;
      assert r in History(h, ns);
      var k :| 0 <= k < |History(h, ns)| && History(h, ns)[k] == r;
    }
  }

  lemma HistoryIsStore<K, T(!new)>(h: HistoryRules<K, T>, s: RevisionStore.Store<T>, ns: Namespace<K, T>)
    requires ListsStore(s, ns) && Filed(h, s, ns.key)
    ensures forall r :: r in History(h, ns) <==> h.rev(r) in s.revisions && s.revisions[h.rev(r)] == Complete(r)
  {
    HistoryRises(h, ns);
    forall r ensures r in History(h, ns) <==> h.rev(r) in s.revisions && s.revisions[h.rev(r)] == Complete(r) {
      if h.rev(r) in s.revisions && s.revisions[h.rev(r)] == Complete(r) {
        assert RevisionFile(h.rev(r), ContentOf(s.revisions[h.rev(r)])) in ns.revisions;
      }
    }
  }

  lemma NothingBeyondIsSound<K, T(!new)>(h: HistoryRules<K, T>, s: RevisionStore.Store<T>, ns: Namespace<K, T>)
    requires ListsStore(s, ns) && Filed(h, s, ns.key) && NothingBeyond(s)
    requires s.pointer.Some? ==> s.pointer.value in s.revisions
    requires forall n :: n in s.revisions ==> s.revisions[n].Complete?
    requires forall m, n | m in s.revisions && n in s.revisions && m < n ::
               h.step(s.revisions[m].value, s.revisions[n].value)
    ensures HistorySound(h, ns)
  {
    HistoryRises(h, ns);
    HistoryIsStore(h, s, ns);
    var history := History(h, ns);
    forall i | 0 < i < |history| ensures h.step(history[i - 1], history[i]) {
      assert history[i - 1] in history && history[i] in history;
    }
    assert history == [] || history[0] in history;
    if s.pointer.Some? {
      var r := s.revisions[s.pointer.value].value;
      assert r in history;
      var k :| 0 <= k < |history| && history[k] == r;
      var last := history[|history| - 1];
      assert last in history;
    }
  }

  // ------------------------------------------------------------------ publications

  /** A listing of a collection: every file once. */
  ghost predicate ListsFiles<T>(files: map<string, File<T>>, entries: seq<CollectionEntry<T>>) {
    && FilesUnique(entries)
    && (forall e :: e in entries ==> e.CanonicalFile? && e.id in files && e.content == ContentOf(files[e.id]))
    && (forall id :: id in files ==> CanonicalFile(id, ContentOf(files[id])) in entries)
  }

  /**
   In any state a run of the publication protocol reaches, the audit has no relationship
   finding to make: every series of readable records is one chain, and every readable
   withdrawal belongs to a readable record, whatever files other writers have left unfinished.
   */
  lemma ReachableCollectionsAreSound(trace: seq<PublicationProtocol.World>, events: seq<PublicationProtocol.Event>,
                                     i: nat, publications: seq<CollectionEntry<PublicationRecord>>,
                                     withdrawals: seq<CollectionEntry<PublicationWithdrawal>>)
    requires PublicationProtocol.Run(trace, events, true) && PublicationProtocol.Initial(trace[0]) && i < |trace|
    requires ListsFiles(trace[i].files.records, publications) && ListsFiles(trace[i].files.withdrawals, withdrawals)
    ensures SeriesSound(Contents(publications, RecordId))
    ensures forall d :: d in Contents(withdrawals, WithdrawalId) ==> Withdraws(Contents(publications, RecordId), d)
  {
    PublicationHistory.PublicationsStaySound(trace, events, i);
    PublicationProtocol.InitialIsSound(trace[0]);
    PublicationProtocol.InvariantOverRuns(trace, events, i);
    var f, home := trace[i].files, trace[i].home;
    var records := Contents(publications, RecordId);
    forall s ensures SeriesOf(records, s) == [] || FormsChain(SeriesOf(records, s)) {
      ListedSeries(f, home, publications, s);
      assert PublicationHistory.ListsSeries(f, s, SeriesOf(records, s));
    }
    ListedWithdrawals(f, home, publications, withdrawals);
  }

  lemma ListedSeries(f: PublicationProtocol.Files, home: map<string, SeriesId>,
                     entries: seq<CollectionEntry<PublicationRecord>>, s: SeriesId)
    requires ListsFiles(f.records, entries) && PublicationProtocol.Keyed(f, home)
    ensures PublicationHistory.ListsSeries(f, s, SeriesOf(Contents(entries, RecordId), s))
  {
    var records := Contents(entries, RecordId);
    ContentsMembers(entries, RecordId);
    ContentsDiffer(entries, RecordId);
    forall i, j | 0 <= i < j < |records| ensures records[i] != records[j] {
      assert RecordId(records[i]) != RecordId(records[j]);
    }
    GroupMembers(records, SeriesKey, s);
    forall id | id in f.records && f.records[id].Complete? && f.records[id].value.Series() == s
      ensures f.records[id].value in SeriesOf(records, s)
    {
      assert CanonicalFile(id, ContentOf(f.records[id])) in entries;
    }
  }

  lemma ListedWithdrawals(f: PublicationProtocol.Files, home: map<string, SeriesId>,
                          publications: seq<CollectionEntry<PublicationRecord>>,
                          withdrawals: seq<CollectionEntry<PublicationWithdrawal>>)
    requires ListsFiles(f.records, publications) && ListsFiles(f.withdrawals, withdrawals)
    requires PublicationProtocol.Keyed(f, home)
    ensures forall d :: d in Contents(withdrawals, WithdrawalId) ==> Withdraws(Contents(publications, RecordId), d)
  {
    ContentsMembers(publications, RecordId);
    ContentsMembers(withdrawals, WithdrawalId);
    forall d | d in Contents(withdrawals, WithdrawalId) ensures Withdraws(Contents(publications, RecordId), d) {
      var id := d.publicationId;
      var e := CanonicalFile(id, Some(d));
      assert e in withdrawals && e.id in f.withdrawals && e.content == ContentOf(f.withdrawals[e.id]);
      assert CanonicalFile(id, ContentOf(f.records[id])) in publications;
      assert f.records[id].value in Contents(publications, RecordId);
    }
  }
}
