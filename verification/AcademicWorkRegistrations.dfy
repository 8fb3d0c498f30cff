/** The source records of an Academic Work Registration and their canonical order. */
module AcademicWorkRegistrations {
  import opened Foundations
  import opened PublicationRecords

  /** Kind, then id, then unversioned before versioned, then version. */
  predicate ByReference(a: ModuleRecordRef, b: ModuleRecordRef) {
    if a.recordKind != b.recordKind then StrLe(a.recordKind, b.recordKind)
    else if a.recordId != b.recordId then StrLe(a.recordId, b.recordId)
    else if a.contractVersion.None? then true
    else if b.contractVersion.None? then false
    else StrLe(a.contractVersion.value, b.contractVersion.value)
  }

  /** Lists of texts are compared like tuples: the first difference decides. */
  predicate TupleLe(a: seq<string>, b: seq<string>) {
    a == [] || (b != [] && if a[0] == b[0] then TupleLe(a[1..], b[1..]) else StrLe(a[0], b[0]))
  }

  /** The tuple a reference is sorted by; an absent version is marked as such and empty. */
  function SortKey(r: ModuleRecordRef): seq<string> {
    [r.recordKind, r.recordId] + match r.contractVersion case None => ["0", ""] case Some(v) => ["1", v]
  }

  lemma ByReferenceIsTupleOrder(a: ModuleRecordRef, b: ModuleRecordRef)
    ensures ByReference(a, b) <==> TupleLe(SortKey(a), SortKey(b))
  {
    hide TupleLe, StrLe;
    var s, t := SortKey(a), SortKey(b);
    TupleStep(s[0], s[1..], t[0], t[1..]);
    TupleStep(s[1], s[2..], t[1], t[2..]);
    TupleStep(s[2], s[3..], t[2], t[3..]);
    TupleStep(s[3], [], t[3], []);
    StrLeTotal(s[3], s[3]);
    UnversionedFirst();
    assert s == [s[0]] + s[1..] && s[1..] == [s[1]] + s[2..] && s[2..] == [s[2]] + s[3..] && s[3..] == [s[3]] + [];
    assert t == [t[0]] + t[1..] && t[1..] == [t[1]] + t[2..] && t[2..] == [t[2]] + t[3..] && t[3..] == [t[3]] + [];
  }

  lemma TupleStep(x: string, s: seq<string>, y: string, t: seq<string>)
    ensures TupleLe([x] + s, [y] + t) <==> if x == y then TupleLe(s, t) else StrLe(x, y)
    ensures TupleLe([], [])
  {
  }

  lemma UnversionedFirst()
    ensures StrLe("0", "1") && !StrLe("1", "0")
  {
  }

  /** Every reference belongs to the work's module, and none is given twice. */
  ghost predicate SourcesValid(records: seq<ModuleRecordRef>, work: ModuleWorkRef) {
    (forall r :: r in records ==> r.moduleId == work.moduleId) && Distinct(records)
  }

  lemma ByReferenceTotal(a: ModuleRecordRef, b: ModuleRecordRef)
    ensures ByReference(a, b) || ByReference(b, a)
  {
    StrLeTotal(a.recordKind, b.recordKind);
    StrLeTotal(a.recordId, b.recordId);
    if a.contractVersion.Some? && b.contractVersion.Some? {
      StrLeTotal(a.contractVersion.value, b.contractVersion.value);
    }
  }

  lemma ByReferenceTransitive(a: ModuleRecordRef, b: ModuleRecordRef, c: ModuleRecordRef)
    requires ByReference(a, b) && ByReference(b, c)
    ensures ByReference(a, c)
  {
    hide StrLe;
    StrLeIsOrder();
    assert forall x, y :: StrLe(x, y) && StrLe(y, x) ==> x == y;
    assert forall x, y, z :: StrLe(x, y) && StrLe(y, z) ==> StrLe(x, z);
  }

  lemma ByReferenceAntisymmetric(a: ModuleRecordRef, b: ModuleRecordRef)
    requires a.moduleId == b.moduleId && ByReference(a, b) && ByReference(b, a)
    ensures a == b
  {
    hide StrLe;
    StrLeIsOrder();
    assert forall x, y :: StrLe(x, y) && StrLe(y, x) ==> x == y;
  }

  lemma ByReferenceIsOrder()
    ensures Total(ByReference) && Transitive(ByReference)
  {
    hide ByReference;
    forall a, b ensures ByReference(a, b) || ByReference(b, a) { ByReferenceTotal(a, b); }
    forall a, b, c | ByReference(a, b) && ByReference(b, c) ensures ByReference(a, c) {
      ByReferenceTransitive(a, b, c);
    }
  }

  /** `_source_records`: accepts exactly valid references, and puts them in canonical order. */
  method SourceRecords(records: seq<ModuleRecordRef>, work: ModuleWorkRef)
    returns (result: Option<seq<ModuleRecordRef>>)
    ensures result.Some? <==> SourcesValid(records, work)
    ensures result.Some? ==>
      && (forall i, j :: 0 <= i < j < |result.value| ==>
            TupleLe(SortKey(result.value[i]), SortKey(result.value[j])))
      && multiset(result.value) == multiset(records)
        && SourcesValid(result.value, work)
      && result.value == SortBy(records, ByReference)
  {
    var validated: seq<ModuleRecordRef> := [];
    for i := 0 to |records|
      invariant validated == records[..i]
      invariant forall r :: r in validated ==> r.moduleId == work.moduleId
    {
      assert records[i] in records;
      if records[i].moduleId != work.moduleId { return None; }
      validated := validated + [records[i]];
    }
    assert validated == records;
    DistinctIffNoFewer(records);
    if |(set r | r in validated)| != |validated| { return None; }
    ByReferenceIsOrder();
    SortByContents(records, ByReference);
    SortBySorted(records, ByReference);
    DistinctByContents(records, SortBy(records, ByReference));
    forall a, b ensures ByReference(a, b) <==> TupleLe(SortKey(a), SortKey(b)) { ByReferenceIsTupleOrder(a, b); }
    hide ByReference, TupleLe, SortKey;
    return Some(SortBy(validated, ByReference));
  }

  lemma DistinctLast<T>(s: seq<T>, x: T)
    ensures Distinct(s + [x]) <==> Distinct(s) && x !in s
  {
    var more := s + [x];
    assert more[|s|] == x;
    assert forall i :: 0 <= i < |s| ==> more[i] == s[i];
  }

  lemma {:induction false} DistinctIffNoFewer(records: seq<ModuleRecordRef>)
    ensures |(set r | r in records)| <= |records|
    ensures |(set r | r in records)| == |records| <==> Distinct(records)
  {
    if records != [] {
      var n := |records| - 1;
      DistinctIffNoFewer(records[..n]);
      assert records == records[..n] + [records[n]];
      assert (set r | r in records) == (set r | r in records[..n]) + {records[n]};
      DistinctLast(records[..n], records[n]);
    }
  }

  /** The canonical tuple depends only on which references were given, not on their order. */
  lemma SourceOrderDoesNotMatter(a: seq<ModuleRecordRef>, b: seq<ModuleRecordRef>, work: ModuleWorkRef)
    requires SourcesValid(a, work) && SourcesValid(b, work)
    ensures (forall r :: r in a <==> r in b) <==> SortBy(a, ByReference) == SortBy(b, ByReference)
  {
    hide ByReference;
    ByReferenceIsOrder();
    SortByContents(a, ByReference);
    SortByContents(b, ByReference);
    SortBySorted(a, ByReference);
    SortBySorted(b, ByReference);
    if forall r :: r in a <==> r in b {
      SameMembersSameContents(a, b);
      var s, t := SortBy(a, ByReference), SortBy(b, ByReference);
      forall i, j | 0 <= i < |s| && 0 <= j < |s| && ByReference(s[i], s[j]) && ByReference(s[j], s[i])
        ensures s[i] == s[j]
      {
        assert s[i] in a && s[j] in a;
        ByReferenceAntisymmetric(s[i], s[j]);
      }
      SortedUnique(s, t, ByReference);
    }
  }
}
