/** All revision directories of one kind: the audit's scan, the catalog's load, and what a load is. */
module CanonicalListings {
  import opened Foundations
  import opened CanonicalHistories

  function Namespaces<K, T>(tops: seq<TopEntry<K, T>>): seq<Namespace<K, T>> {
    if tops == [] then []
    else
      var n := |tops| - 1;
      Namespaces(tops[..n]) + if tops[n].Directory? then [tops[n].namespace] else []
  }

  /** Directory names are unique, and so are the names inside each. */
  ghost predicate NamesUnique<K, T>(tops: seq<TopEntry<K, T>>) {
    && KeysDistinct(Namespaces(tops))
    && forall ns :: ns in Namespaces(tops) ==> NumbersUnique(ns.revisions)
  }

  ghost predicate KeysDistinct<K, T>(list: seq<Namespace<K, T>>) {
    forall i, j :: 0 <= i < j < |list| ==> list[i].key != list[j].key
  }

  ghost predicate AllSound<K, T>(u: HistoryRules<K, T>, list: seq<Namespace<K, T>>) {
    forall ns :: ns in list ==> HistorySound(u, ns)
  }

  ghost predicate ListingSound<K, T>(u: HistoryRules<K, T>, tops: seq<TopEntry<K, T>>) {
    MisplacedTop(StrayArtifact) !in tops && AllSound(u, Namespaces(tops))
  }

  ghost predicate ProducersPresent<K, T>(tops: seq<TopEntry<K, T>>) {
    forall ns :: ns in Namespaces(tops) ==> ns.producerRoot
  }

  /** Every readable revision, directory by directory. */
  function AllRecords<K(==), T>(u: HistoryRules<K, T>, list: seq<Namespace<K, T>>): seq<T> {
    if list == [] then [] else AllRecords(u, list[..|list| - 1]) + History(u, list[|list| - 1])
  }

  // ------------------------------------------------------------------- the audit

  method ScanAll<K(==), T(!new)>(u: HistoryRules<K, T>, tops: seq<TopEntry<K, T>>, domain: Domain, needsProducer: bool)
    returns (findings: seq<Finding>, valid: seq<T>)
    requires NamesUnique(tops)
    ensures Clean(findings) <==> ListingSound(u, tops) && (needsProducer ==> ProducersPresent(tops))
    ensures valid == AllRecords(u, Namespaces(tops))
  {
    hide HistorySound, History;
    findings, valid := [], [];
    OneFinding(Finding(Error, domain, UnexpectedEntry));
    for i := 0 to |tops|
      invariant Clean(findings) <==> ListingSound(u, tops[..i]) && (needsProducer ==> ProducersPresent(tops[..i]))
      invariant valid == AllRecords(u, Namespaces(tops[..i]))
    {
      ListingOneMore(u, tops, i);
      match tops[i] {
        case MisplacedTop(artifact) =>
          var f := ArtifactFinding(artifact, domain);
          OneFinding(f);
          CleanConcat(findings, [f]);
          findings := findings + [f];
        case Directory(ns) =>
          NamespaceListed(tops, i);
          var found, history := ScanHistory(u, ns, domain, needsProducer);
          CleanConcat(findings, found);
          findings := findings + found;
          valid := valid + history;
      }
    }
    assert tops[..|tops|] == tops;
  }

  lemma ListingOneMore<K, T(!new)>(u: HistoryRules<K, T>, tops: seq<TopEntry<K, T>>, i: nat)
    requires i < |tops|
    ensures tops[i].MisplacedTop? ==>
              && (ListingSound(u, tops[..i + 1]) <==> ListingSound(u, tops[..i]) && tops[i].artifact.HiddenArtifact?)
              && (ProducersPresent(tops[..i + 1]) <==> ProducersPresent(tops[..i]))
              && AllRecords(u, Namespaces(tops[..i + 1])) == AllRecords(u, Namespaces(tops[..i]))
    ensures tops[i].Directory? ==>
              var ns := tops[i].namespace;
              && (ListingSound(u, tops[..i + 1]) <==> ListingSound(u, tops[..i]) && HistorySound(u, ns))
              && (ProducersPresent(tops[..i + 1]) <==> ProducersPresent(tops[..i]) && ns.producerRoot)
              && AllRecords(u, Namespaces(tops[..i + 1])) == AllRecords(u, Namespaces(tops[..i])) + History(u, ns)
  {
    hide HistorySound, History;
    assert tops[..i + 1] == tops[..i] + [tops[i]] && tops[..i + 1][..i] == tops[..i];
    var before := Namespaces(tops[..i]);
    if tops[i].Directory? {
      var ns := tops[i].namespace;
      assert Namespaces(tops[..i + 1]) == before + [ns];
      assert (before + [ns])[..|before|] == before;
      assert forall x :: x in before + [ns] <==> x in before || x == ns;
    } else {
      assert Namespaces(tops[..i + 1]) == before + [] == before;
    }
  }

  lemma {:induction false} NamespaceListed<K, T>(tops: seq<TopEntry<K, T>>, i: nat)
    requires i < |tops| && tops[i].Directory?
    ensures tops[i].namespace in Namespaces(tops)
  {
    var n := |tops| - 1;
    if i < n {
      NamespaceListed(tops[..n], i);
    } else {
      var before := Namespaces(tops[..n]);
      assert Namespaces(tops) == before + [tops[n].namespace];
      assert (before + [tops[n].namespace])[|before|] == tops[n].namespace;
    }
  }

  // ------------------------------------------------------------- the catalog loader

  function ByKey<K, T>(keyLe: (K, K) -> bool): (Namespace<K, T>, Namespace<K, T>) -> bool {
    (a: Namespace<K, T>, b: Namespace<K, T>) => keyLe(a.key, b.key)
  }

  /** The rows a load produces: each directory's history, oldest first, the last one current. */
  function Rows<K(==), T>(u: HistoryRules<K, T>, list: seq<Namespace<K, T>>): seq<(T, bool)> {
    if list == [] then [] else Rows(u, list[..|list| - 1]) + Marked(History(u, list[|list| - 1]))
  }

  /** Directories in key order; the first defect anywhere stops the load. */
  method LoadAll<K(==,!new), T(==,!new)>(u: HistoryRules<K, T>, tops: seq<TopEntry<K, T>>, keyLe: (K, K) -> bool)
    returns (result: Result<seq<(T, bool)>, SourceError>)
    requires NamesUnique(tops)
    ensures result.Success? <==> ListingSound(u, tops)
    ensures result.Success? ==> result.value == Rows(u, SortBy(Namespaces(tops), ByKey(keyLe)))
  {
    hide HistorySound, History, SortBy, Namespaces;
    if MisplacedTop(StrayArtifact) in tops { return Failure(UnexpectedSource); }
    var ordered := SortBy(Namespaces(tops), ByKey(keyLe));
    SortByContents(Namespaces(tops), ByKey(keyLe));
    var rows: seq<(T, bool)> := [];
    for i := 0 to |ordered|
      invariant AllSound(u, ordered[..i]) && rows == Rows(u, ordered[..i])
    {
      assert ordered[i] in ordered;
      assert ordered[..i + 1] == ordered[..i] + [ordered[i]] && ordered[..i + 1][..i] == ordered[..i];
      var history := LoadHistory(u, ordered[i]);
      if history.Failure? { return Failure(history.error); }
      rows := rows + history.value;
    }
    assert ordered[..|ordered|] == ordered;
    return Success(rows);
  }

  // ---------------------------------------------------------- what loaded rows are

  ghost predicate Before<K, T>(u: HistoryRules<K, T>, keyLe: (K, K) -> bool, a: T, b: T) {
    if u.key(a) == u.key(b) then u.rev(a) < u.rev(b) else keyLe(u.key(a), u.key(b))
  }

  /** No later row has the same key. */
  predicate LastOfKey<K(==), T>(u: HistoryRules<K, T>, rows: seq<(T, bool)>, i: nat)
    requires i < |rows|
  {
    i == |rows| - 1 || u.key(rows[i + 1].0) != u.key(rows[i].0)
  }

  /** Key by key, revision by revision, each a transition of the last; exactly the last of a key is current. */
  ghost predicate Histories<K, T>(u: HistoryRules<K, T>, keyLe: (K, K) -> bool, rows: seq<(T, bool)>) {
    && (forall i, j :: 0 <= i < j < |rows| ==> Before(u, keyLe, rows[i].0, rows[j].0))
    && (forall i | 0 < i < |rows| && u.key(rows[i - 1].0) == u.key(rows[i].0) :: u.step(rows[i - 1].0, rows[i].0))
    && (forall i :: 0 <= i < |rows| ==> rows[i].1 == LastOfKey(u, rows, i))
  }

  lemma {:induction false} RowKeys<K, T(!new)>(u: HistoryRules<K, T>, list: seq<Namespace<K, T>>)
    requires forall ns :: ns in list ==> NumbersUnique(ns.revisions)
    ensures forall r :: r in Rows(u, list) ==> exists ns :: ns in list && ns.key == u.key(r.0) && r.0 in History(u, ns)
    ensures forall ns, x :: ns in list && x in History(u, ns) ==> exists r :: r in Rows(u, list) && r.0 == x
  {
    if list != [] {
      var n := |list| - 1;
      RowKeys(u, list[..n]);
      HistoryRises(u, list[n]);
      hide History;
      var before, h := Rows(u, list[..n]), History(u, list[n]);
      assert Rows(u, list) == before + Marked(h);
      assert list == list[..n] + [list[n]];
      forall r | r in Rows(u, list)
        ensures exists ns :: ns in list && ns.key == u.key(r.0) && r.0 in History(u, ns)
      {
        if r in before {
          var ns :| ns in list[..n] && ns.key == u.key(r.0) && r.0 in History(u, ns);
          assert ns in list;
        } else {
          assert list[n] in list && r.0 in h;
        }
      }
      forall ns, x | ns in list && x in History(u, ns) ensures exists r :: r in Rows(u, list) && r.0 == x {
        if ns in list[..n] {
          var r :| r in before && r.0 == x;
          assert r in Rows(u, list);
        } else {
          var k :| 0 <= k < |h| && h[k] == x;
          assert Marked(h)[k] in Marked(h) && Marked(h)[k].0 == x;
        }
      }
    }
  }

  lemma OneHistory<K, T(!new)>(u: HistoryRules<K, T>, keyLe: (K, K) -> bool, ns: Namespace<K, T>)
    requires NumbersUnique(ns.revisions) && HistorySound(u, ns)
    ensures Histories(u, keyLe, Marked(History(u, ns)))
  {
    HistoryRises(u, ns);
    var h := History(u, ns);
    assert forall i :: 0 <= i < |h| ==> h[i] in h;
  }

  lemma JoinHistories<K, T(!new)>(u: HistoryRules<K, T>, keyLe: (K, K) -> bool, a: seq<(T, bool)>, b: seq<(T, bool)>)
    requires Histories(u, keyLe, a) && Histories(u, keyLe, b)
    requires forall x, y :: x in a && y in b ==> u.key(x.0) != u.key(y.0) && keyLe(u.key(x.0), u.key(y.0))
    ensures Histories(u, keyLe, a + b)
  {
    var c := a + b;
    forall i, j | 0 <= i < j < |c| ensures Before(u, keyLe, c[i].0, c[j].0) {
      if i < |a| <= j { assert c[i] in a && c[j] in b; }
    }
    assert forall i :: 0 <= i < |a| ==> c[i] == a[i];
    assert forall i :: |a| <= i < |c| ==> c[i] == b[i - |a|];
    assert a != [] && b != [] ==> a[|a| - 1] in a && b[0] in b && u.key(a[|a| - 1].0) != u.key(b[0].0);
    forall i | 0 < i < |c| && u.key(c[i - 1].0) == u.key(c[i].0) ensures u.step(c[i - 1].0, c[i].0) {
      assert i < |a| ==> u.key(a[i - 1].0) == u.key(a[i].0);
      assert i > |a| ==> u.key(b[i - |a| - 1].0) == u.key(b[i - |a|].0);
    }
    forall i | 0 <= i < |c| ensures c[i].1 == LastOfKey(u, c, i) {
      assert i < |a| ==> a[i].1 == LastOfKey(u, a, i) && LastOfKey(u, c, i) == LastOfKey(u, a, i);
      assert i >= |a| ==> b[i - |a|].1 == LastOfKey(u, b, i - |a|) && LastOfKey(u, c, i) == LastOfKey(u, b, i - |a|);
    }
  }

  lemma ByKeyIsOrder<K(!new), T(!new)>(keyLe: (K, K) -> bool)
    requires Total(keyLe) && Transitive(keyLe)
    ensures Total(ByKey<K, T>(keyLe)) && Transitive(ByKey<K, T>(keyLe))
  {
    var le := ByKey<K, T>(keyLe);
    forall x, y ensures le(x, y) || le(y, x) { assert keyLe(x.key, y.key) || keyLe(y.key, x.key); }
    forall x, y, z | le(x, y) && le(y, z) ensures le(x, z) {
      assert keyLe(x.key, y.key) && keyLe(y.key, z.key);
    }
  }

  /** The last directory's rows come after all others, under another key. */
  lemma OtherKeys<K(!new), T(!new)>(u: HistoryRules<K, T>, keyLe: (K, K) -> bool, list: seq<Namespace<K, T>>)
    requires list != [] && KeysDistinct(list) && Sorted(list, ByKey(keyLe))
    requires forall ns :: ns in list ==> NumbersUnique(ns.revisions)
    ensures forall x, y :: x in Rows(u, list[..|list| - 1]) && y in Marked(History(u, list[|list| - 1])) ==>
              u.key(x.0) != u.key(y.0) && keyLe(u.key(x.0), u.key(y.0))
  {
    var n := |list| - 1;
    assert (forall ns :: ns in list[..n] ==> ns in list) && list[n] in list;
    RowKeys(u, list[..n]);
    HistoryRises(u, list[n]);
    hide History;
    forall x, y | x in Rows(u, list[..n]) && y in Marked(History(u, list[n]))
      ensures u.key(x.0) != u.key(y.0) && keyLe(u.key(x.0), u.key(y.0))
    {
      var ns :| ns in list[..n] && ns.key == u.key(x.0) && x.0 in History(u, ns);
      var k :| 0 <= k < n && list[k] == ns;
      assert ByKey(keyLe)(list[k], list[n]);
      assert y.0 in History(u, list[n]);
    }
  }

  lemma {:induction false} RowsAreHistories<K(!new), T(!new)>(u: HistoryRules<K, T>, keyLe: (K, K) -> bool,
                                                              list: seq<Namespace<K, T>>)
    requires AllSound(u, list) && KeysDistinct(list) && Sorted(list, ByKey(keyLe))
    requires forall ns :: ns in list ==> NumbersUnique(ns.revisions)
    ensures Histories(u, keyLe, Rows(u, list))
  {
    if list != [] {
      var n := |list| - 1;
      assert (forall ns :: ns in list[..n] ==> ns in list) && list[n] in list;
      RowsAreHistories(u, keyLe, list[..n]);
      OneHistory(u, keyLe, list[n]);
      OtherKeys(u, keyLe, list);
      hide History, Histories, HistorySound;
      JoinHistories(u, keyLe, Rows(u, list[..n]), Marked(History(u, list[n])));
    }
  }

  /** After a key's current row the key does not occur again. */
  lemma KeysNeverReturn<K(!new), T>(u: HistoryRules<K, T>, keyLe: (K, K) -> bool, a: T, b: T, c: T)
    requires Before(u, keyLe, a, b) && Before(u, keyLe, b, c) && Antisymmetric(keyLe) && u.key(a) != u.key(b)
    ensures u.key(a) != u.key(c)
  {
  }

  lemma RowsInOrder<K(!new), T(!new)>(u: HistoryRules<K, T>, keyLe: (K, K) -> bool, rows: seq<(T, bool)>, i: nat,
                                      j: nat)
    requires Histories(u, keyLe, rows) && i < j < |rows|
    ensures Before(u, keyLe, rows[i].0, rows[j].0) && rows[i].1 == LastOfKey(u, rows, i)
  {
    hide Before, LastOfKey;
  }

  lemma CurrentEndsItsKey<K(!new), T(!new)>(u: HistoryRules<K, T>, keyLe: (K, K) -> bool, rows: seq<(T, bool)>, i: nat,
                                            j: nat)
    requires Histories(u, keyLe, rows) && Antisymmetric(keyLe) && i < j < |rows| && rows[i].1
    ensures u.key(rows[i].0) != u.key(rows[j].0)
  {
    hide Histories, Before, Antisymmetric;
    RowsInOrder(u, keyLe, rows, i, i + 1);
    if i + 1 < j {
      RowsInOrder(u, keyLe, rows, i + 1, j);
      KeysNeverReturn(u, keyLe, rows[i].0, rows[i + 1].0, rows[j].0);
    }
  }

  /** Whatever a load accepts is a set of histories, one per directory, in key order. */
  lemma LoadedRowsAreHistories<K(!new), T(!new)>(u: HistoryRules<K, T>, keyLe: (K, K) -> bool,
                                                 tops: seq<TopEntry<K, T>>)
    requires NamesUnique(tops) && ListingSound(u, tops) && Total(keyLe) && Transitive(keyLe)
    ensures Histories(u, keyLe, Rows(u, SortBy(Namespaces(tops), ByKey(keyLe))))
    ensures forall x :: (exists r :: r in Rows(u, SortBy(Namespaces(tops), ByKey(keyLe))) && r.0 == x)
                        <==> x in AllRecords(u, Namespaces(tops))
  {
    hide HistorySound, History, Histories;
    var list := Namespaces(tops);
    var s := SortBy(list, ByKey(keyLe));
    SortByContents(list, ByKey(keyLe));
    ByKeyIsOrder<K, T>(keyLe);
    SortBySorted(list, ByKey(keyLe));
    KeysStayDistinct(list, s);
    RowsAreHistories(u, keyLe, s);
    RowKeys(u, s);
    forall x ensures (exists r :: r in Rows(u, s) && r.0 == x) <==> x in AllRecords(u, list) {
      RecordIsListed(u, list, x);
      if x in AllRecords(u, list) {
        var ns :| ns in list && x in History(u, ns);
        assert ns in s;
      }
      if exists r :: r in Rows(u, s) && r.0 == x {
        var r :| r in Rows(u, s) && r.0 == x;
        var ns :| ns in s && ns.key == u.key(r.0) && r.0 in History(u, ns);
        assert ns in list;
      }
    }
  }

  lemma KeysStayDistinct<K, T>(a: seq<Namespace<K, T>>, b: seq<Namespace<K, T>>)
    requires KeysDistinct(a) && multiset(a) == multiset(b)
    ensures KeysDistinct(b)
  {
    SameContents(a, b);
    assert Distinct(a);
    DistinctByContents(a, b);
    forall i, j | 0 <= i < j < |b| ensures b[i].key != b[j].key {
      assert b[i] in a && b[j] in a && b[i] != b[j];
    }
  }

  lemma {:induction false} RecordIsListed<K, T(!new)>(u: HistoryRules<K, T>, list: seq<Namespace<K, T>>, x: T)
    ensures x in AllRecords(u, list) <==> exists ns :: ns in list && x in History(u, ns)
  {
    if list != [] {
      var n := |list| - 1;
      RecordIsListed(u, list[..n], x);
      assert list == list[..n] + [list[n]];
    }
  }
}
