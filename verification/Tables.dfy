/** Rows as lists: inserting one or several rows per item, and selecting an item's rows back. */
module Tables {
  import opened Foundations

  function Map<S, T>(items: seq<S>, f: S -> T): (rows: seq<T>)
    ensures |rows| == |items| && forall i :: 0 <= i < |items| ==> rows[i] == f(items[i])
  {
    seq(|items|, i requires 0 <= i < |items| => f(items[i]))
  }

  lemma MapCons<S, T>(x: S, s: seq<S>, f: S -> T)
    ensures Map([x] + s, f) == [f(x)] + Map(s, f)
  {
  }

  lemma MapTail<S, T>(s: seq<S>, f: S -> T)
    requires s != []
    ensures Map(s, f)[0] == f(s[0]) && Map(s, f)[1..] == Map(s[1..], f)
  {
  }

  function FlatMap<S, T>(items: seq<S>, f: S -> seq<T>): seq<T> {
    if items == [] then [] else FlatMap(items[..|items| - 1], f) + f(items[|items| - 1])
  }

  lemma {:induction false} FlatMapMembers<S, T(!new)>(items: seq<S>, f: S -> seq<T>)
    ensures forall row :: row in FlatMap(items, f) <==> exists i :: 0 <= i < |items| && row in f(items[i])
  {
    if items != [] {
      var n := |items| - 1;
      FlatMapMembers(items[..n], f);
      forall row ensures row in FlatMap(items, f) <==> exists i :: 0 <= i < |items| && row in f(items[i]) {
        if row in FlatMap(items[..n], f) {
          var i :| 0 <= i < n && row in f(items[..n][i]);
          assert items[i] == items[..n][i];
        }
        if i :| 0 <= i < |items| && row in f(items[i]) {
          assert i < n ==> items[..n][i] == items[i];
        }
      }
    }
  }

  /** The rows inserted for one item carry the item's key, which no other item has. */
  ghost predicate KeysAgree<S, T, K>(items: seq<S>, f: S -> seq<T>, itemKey: S -> K, rowKey: T -> K) {
    && (forall i, row :: 0 <= i < |items| && row in f(items[i]) ==> rowKey(row) == itemKey(items[i]))
    && (forall i, j :: 0 <= i < j < |items| ==> itemKey(items[i]) != itemKey(items[j]))
  }

  /** Selecting by an item's key returns exactly the rows inserted for it, in order. */
  lemma {:induction false} SelectInserted<S, T(!new), K>(items: seq<S>, f: S -> seq<T>, itemKey: S -> K, rowKey: T -> K,
                                                         i: nat)
    requires KeysAgree(items, f, itemKey, rowKey) && i < |items|
    ensures Group(FlatMap(items, f), rowKey, itemKey(items[i])) == f(items[i])
  {
    var n := |items| - 1;
    var k := itemKey(items[i]);
    var before, last := FlatMap(items[..n], f), f(items[n]);
    FilterConcat(before, last, (row: T) => rowKey(row) == k);
    assert KeysAgree(items[..n], f, itemKey, rowKey) by {
      forall a, row | 0 <= a < n && row in f(items[..n][a]) ensures rowKey(row) == itemKey(items[..n][a]) {
        assert row in f(items[a]);
      }
    }
    assert Group(FlatMap(items, f), rowKey, k) == Group(before, rowKey, k) + Group(last, rowKey, k);
    if i < n {
      SelectInserted(items[..n], f, itemKey, rowKey, i);
      assert items[..n][i] == items[i];
      GroupNone(last, rowKey, k);
    } else {
      GroupAll(last, rowKey, k);
      FlatMapMembers(items[..n], f);
      forall row | row in before ensures rowKey(row) != k {
        var a :| 0 <= a < n && row in f(items[..n][a]);
        assert items[..n][a] == items[a] && row in f(items[a]);
      }
      GroupNone(before, rowKey, k);
    }
  }

  /** Ordering a list that is already in strict order changes nothing. */
  lemma AlreadyOrdered<T(!new)>(s: seq<T>, le: (T, T) -> bool)
    requires Total(le) && Transitive(le) && Sorted(s, le)
    requires forall i, j :: 0 <= i < j < |s| ==> !le(s[j], s[i])
    ensures SortBy(s, le) == s
  {
    SortByContents(s, le);
    SortBySorted(s, le);
    SortedUnique(s, SortBy(s, le), le);
  }
}
