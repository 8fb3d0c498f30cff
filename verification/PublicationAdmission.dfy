/** What a writer holding the series lock decides from the records it has listed. */
module PublicationAdmission {
  import opened Foundations
  import opened PublicationRecords

  datatype Refusal = RevisionTaken | RevisionContradicted | MustNotSupersede | NotTheHead | NotASuccessor

  /** Logical-revision metadata: everything but the opaque record id. */
  function LogicalMetadata(r: PublicationRecord): PublicationRecord {
    r.(publicationId := "")
  }

  function RevisionClash(existing: seq<PublicationRecord>, candidate: PublicationRecord): Option<Refusal> {
    if existing == [] then None
    else if existing[0].recordSetRevision == candidate.recordSetRevision then
      if LogicalMetadata(existing[0]) == LogicalMetadata(candidate) then Some(RevisionTaken)
        else Some(RevisionContradicted)
    else RevisionClash(existing[1..], candidate)
  }

  /** `existing` has already passed the series validator, so it has one head. */
  function Admission(existing: seq<PublicationRecord>, candidate: PublicationRecord): Option<Refusal> {
    var clash := RevisionClash(existing, candidate);
    if clash.Some? then clash
    else if existing == [] then
      if candidate.supersedes.Some? then Some(MustNotSupersede) else None
    else if Heads(existing) == [] then Some(NotTheHead)
    else if candidate.supersedes != Some(Heads(existing)[0].publicationId) then Some(NotTheHead)
    else if !ValidSupersession(Heads(existing)[0], candidate) then Some(NotASuccessor)
    else None
  }

  /** The candidate continues the chain `q`. */
  predicate Continues(q: seq<PublicationRecord>, candidate: PublicationRecord) {
    if q == [] then candidate.supersedes.None? else ValidSupersession(q[|q| - 1], candidate)
  }

  lemma {:induction false} ClashIsReal(existing: seq<PublicationRecord>, candidate: PublicationRecord)
    ensures RevisionClash(existing, candidate).Some? <==>
            exists x :: x in existing && x.recordSetRevision == candidate.recordSetRevision
  {
    if existing != [] {
      ClashIsReal(existing[1..], candidate);
      assert existing == [existing[0]] + existing[1..];
    }
  }

  /** However the series was listed, the writer admits exactly the chain's next record. */
  lemma AdmittedIffContinues(existing: seq<PublicationRecord>, q: seq<PublicationRecord>, candidate: PublicationRecord)
    requires IsChain(q) && multiset(existing) == multiset(q)
    ensures Admission(existing, candidate).None? <==> Continues(q, candidate)
  {
    SameContents(existing, q);
    ClashIsReal(existing, candidate);
    if q != [] {
      HeadOfChain(existing, q);
      var last := q[|q| - 1];
      if ValidSupersession(last, candidate) {
        forall x | x in existing ensures x.recordSetRevision < candidate.recordSetRevision {
          var i :| 0 <= i < |q| && q[i] == x;
          if i < |q| - 1 { ChainRises(q, i, |q| - 1); }
        }
      }
    }
  }

  /** What the record's own fields must say to follow the chain `q`. */
  ghost predicate Follows(q: seq<PublicationRecord>, r: PublicationRecord) {
    if q == [] then r.supersedes.None?
    else
      var last := q[|q| - 1];
      && r.supersedes == Some(last.publicationId)
      && r.work == last.work && r.kind == last.kind && r.recordSetId == last.recordSetId
      && r.recordSetRevision > last.recordSetRevision && r.publishedAt >= last.publishedAt
  }

  ghost predicate RevisionIn(q: seq<PublicationRecord>, r: PublicationRecord) {
    exists x :: x in q && x.recordSetRevision == r.recordSetRevision
  }

  /** The revision is there and says the same, under whatever id. */
  ghost predicate RepeatedIn(q: seq<PublicationRecord>, r: PublicationRecord) {
    exists x :: x in q && x.(publicationId := r.publicationId) == r
  }

  lemma {:induction false} ClashExactly(existing: seq<PublicationRecord>, candidate: PublicationRecord)
    requires forall x, y :: x in existing && y in existing && x.recordSetRevision == y.recordSetRevision ==> x == y
    ensures RevisionClash(existing, candidate)
         == if !RevisionIn(existing, candidate) then None
            else Some(if RepeatedIn(existing, candidate) then RevisionTaken else RevisionContradicted)
  {
    if existing != [] {
      var x, rest := existing[0], existing[1..];
      assert existing == [x] + rest;
      ClashExactly(rest, candidate);
      SameButId(x, candidate);
      if x.recordSetRevision == candidate.recordSetRevision {
        assert x in existing;
        forall y | y in existing && y.(publicationId := candidate.publicationId) == candidate ensures y == x {}
      }
    }
  }

  lemma SameButId(x: PublicationRecord, r: PublicationRecord)
    ensures LogicalMetadata(x) == LogicalMetadata(r) <==> x.(publicationId := r.publicationId) == r
  {
    assert x.(publicationId := r.publicationId) == LogicalMetadata(x).(publicationId := r.publicationId);
    assert r == LogicalMetadata(r).(publicationId := r.publicationId);
  }

  /** Which of the refusals, or none, a writer meets, said of the fields of the record and of the chain it finds. */
  lemma AdmissionExactly(existing: seq<PublicationRecord>, q: seq<PublicationRecord>, r: PublicationRecord)
    requires IsChain(q) && multiset(existing) == multiset(q)
    ensures Admission(existing, r)
         == if RevisionIn(q, r) then Some(if RepeatedIn(q, r) then RevisionTaken else RevisionContradicted)
            else if Follows(q, r) then None
            else if q == [] then Some(MustNotSupersede)
            else if r.supersedes != Some(q[|q| - 1].publicationId) then Some(NotTheHead)
            else Some(NotASuccessor)
  {
    SameContents(existing, q);
    RevisionsDifferInChain(q);
    ClashExactly(existing, r);
    assert RevisionIn(existing, r) <==> RevisionIn(q, r);
    assert RepeatedIn(existing, r) <==> RepeatedIn(q, r);
    if q != [] { HeadOfChain(existing, q); }
  }

  lemma RevisionsDifferInChain(q: seq<PublicationRecord>)
    requires IsChain(q)
    ensures forall x, y :: x in q && y in q && x.recordSetRevision == y.recordSetRevision ==> x == y
  {
    forall x, y | x in q && y in q && x.recordSetRevision == y.recordSetRevision ensures x == y {
      var i :| 0 <= i < |q| && q[i] == x;
      var j :| 0 <= j < |q| && q[j] == y;
      if i < j { ChainRises(q, i, j); } else if j < i { ChainRises(q, j, i); }
    }
  }
}
