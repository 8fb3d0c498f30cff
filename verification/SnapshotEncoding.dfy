/** The byte stream fed to the catalog's source-snapshot digest. */
module SnapshotEncoding {
  import opened Foundations
  import opened Decimals

  /** One canonical source file: workspace-relative path, size, and its own SHA-256 in hexadecimal. */
  datatype Source = Source(path: string, size: nat, sha256: string)

  const NUL: char := '\0'
  const LF: char := '\n'

  /** Canonical paths never contain NUL; hexadecimal digests never contain a line feed. */
  predicate Canonical(s: Source) { NUL !in s.path && LF !in s.sha256 }

  ghost predicate Inventory(sources: seq<Source>) {
    && (forall s :: s in sources ==> Canonical(s))
    && (forall i, j :: 0 <= i < j < |sources| ==> sources[i].path != sources[j].path)
  }

  predicate ByPath(a: Source, b: Source) { StrLe(a.path, b.path) }

  function Item(s: Source): string {
    s.path + [NUL] + Decimal(s.size) + [NUL] + s.sha256 + [LF]
  }

  function Items(sources: seq<Source>): string {
    if sources == [] then "" else Items(sources[..|sources| - 1]) + Item(sources[|sources| - 1])
  }

  /** The bytes hashed for an inventory. */
  function Stream(sources: seq<Source>): string { Items(SortBy(sources, ByPath)) }

  /** The loop of digest updates, in path order. */
  method Snapshot(sources: seq<Source>) returns (fed: string)
    ensures fed == Stream(sources)
    ensures exists ordered: seq<Source> ::
              && multiset(ordered) == multiset(sources) && fed == Items(ordered)
              && forall i, j :: 0 <= i < j < |ordered| ==> StrLe(ordered[i].path, ordered[j].path)
  {
    InPathOrder(sources);
    var ordered := SortBy(sources, ByPath);
    fed := "";
    for i := 0 to |ordered|
      invariant fed == Items(ordered[..i])
    {
      var source := ordered[i];
      fed := fed + source.path;
      fed := fed + [NUL];
      fed := fed + Decimal(source.size);
      fed := fed + [NUL];
      fed := fed + source.sha256;
      fed := fed + [LF];
      ItemInPieces(Items(ordered[..i]), source);
      assert ordered[..i + 1][..i] == ordered[..i];
    }
    assert ordered[..|ordered|] == ordered;
  }

  lemma InPathOrder(sources: seq<Source>)
    ensures var ordered := SortBy(sources, ByPath);
            multiset(ordered) == multiset(sources)
            && forall i, j :: 0 <= i < j < |ordered| ==> StrLe(ordered[i].path, ordered[j].path)
  {
    StrLeIsOrder();
    SortByContents(sources, ByPath);
    SortBySorted(sources, ByPath);
  }

  lemma ItemInPieces(before: string, s: Source)
    ensures before + s.path + [NUL] + Decimal(s.size) + [NUL] + s.sha256 + [LF] == before + Item(s)
  {
  }

  // --------------------------------------------------------- unique decodability

  /** Text up to the first delimiter is determined by the whole. */
  lemma {:induction false} FirstDelimiter(c: char, a: string, b: string, x: string, y: string)
    requires c !in a && c !in b && a + [c] + x == b + [c] + y
    ensures a == b && x == y
  {
    var s, t := a + [c] + x, b + [c] + y;
    assert s[0] == (if a == [] then c else a[0]) && t[0] == if b == [] then c else b[0];
    if a == [] {
      assert b == [] && s[1..] == x && t[1..] == y;
    } else {
      assert s[1..] == a[1..] + [c] + x && t[1..] == b[1..] + [c] + y;
      FirstDelimiter(c, a[1..], b[1..], x, y);
      assert a == [a[0]] + a[1..] && b == [b[0]] + b[1..];
    }
  }

  lemma ItemDetermined(a: Source, b: Source, x: string, y: string)
    requires Canonical(a) && Canonical(b) && Item(a) + x == Item(b) + y
    ensures a == b && x == y
  {
    ItemTail(a, x);
    ItemTail(b, y);
    var a1, b1 := Decimal(a.size) + [NUL] + (a.sha256 + [LF] + x), Decimal(b.size) + [NUL] + (b.sha256 + [LF] + y);
    FirstDelimiter(NUL, a.path, b.path, a1, b1);
    FirstDelimiter(NUL, Decimal(a.size), Decimal(b.size), a.sha256 + [LF] + x, b.sha256 + [LF] + y);
    FirstDelimiter(LF, a.sha256, b.sha256, x, y);
    DecimalInjective(a.size, b.size);
  }

  lemma ItemTail(a: Source, x: string)
    ensures Item(a) + x == a.path + [NUL] + (Decimal(a.size) + [NUL] + (a.sha256 + [LF] + x))
  {
  }

  /** Read from the front, the items of a stream are determined one by one. */
  lemma {:induction false} ItemsDetermined(a: seq<Source>, b: seq<Source>)
    requires (forall s :: s in a ==> Canonical(s)) && (forall s :: s in b ==> Canonical(s))
    requires Items(a) == Items(b)
    ensures a == b
  {
    if a == [] || b == [] {
      if a != [] { ItemsHead(a); }
      if b != [] { ItemsHead(b); }
    } else {
      ItemsHead(a);
      ItemsHead(b);
      assert a[0] in a && b[0] in b;
      ItemDetermined(a[0], b[0], Items(a[1..]), Items(b[1..]));
      assert (forall s :: s in a[1..] ==> s in a) && (forall s :: s in b[1..] ==> s in b);
      ItemsDetermined(a[1..], b[1..]);
      SameHeadAndTail(a, b);
    }
  }

  lemma {:induction false} ItemsHead(a: seq<Source>)
    requires a != []
    ensures Items(a) == Item(a[0]) + Items(a[1..]) && Items(a) != ""
  {
    hide Item;
    ItemNotEmpty(a[0]);
    var n := |a| - 1;
    if n > 0 {
      ItemsHead(a[..n]);
      assert a[..n][1..] == a[1..][..n - 1] && a[1..][n - 1] == a[n];
    } else {
      assert a[1..] == [];
    }
  }

  lemma ItemNotEmpty(s: Source)
    ensures Item(s) != ""
  {
    assert Item(s)[|s.path|] == NUL;
  }

  /**
   The stream determines the inventory and nothing but the inventory: it does not depend on
   the order the sources are supplied in, and different inventories give different streams.
   */
  lemma StreamDeterminesInventory(a: seq<Source>, b: seq<Source>)
    requires Inventory(a) && Inventory(b)
    ensures Stream(a) == Stream(b) <==> multiset(a) == multiset(b)
  {
    SortByContents(a, ByPath);
    SortByContents(b, ByPath);
    var s, t := SortBy(a, ByPath), SortBy(b, ByPath);
    if Stream(a) == Stream(b) { ItemsDetermined(s, t); }
    if multiset(a) == multiset(b) {
      StrLeIsOrder();
      SortBySorted(a, ByPath);
      SortBySorted(b, ByPath);
      forall i, j | 0 <= i < |s| && 0 <= j < |s| && ByPath(s[i], s[j]) && ByPath(s[j], s[i]) ensures s[i] == s[j] {
        StrLeAntisymmetric(s[i].path, s[j].path);
        assert s[i] in a && s[j] in a;
      }
      SortedUnique(s, t, ByPath);
    }
  }
}
