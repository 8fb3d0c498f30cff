/** Queries over an accepted calendar: preorder with an explicit stack, ancestors, descendants, dates. */
module AcademicPeriodQueries {
  import opened Foundations
  import opened AcademicPeriods

  /** Accepted hierarchies have unique ids, known parents, and chains that end. */
  ghost predicate Tree(periods: seq<AcademicPeriod>) {
    && IdsUnique(periods) && Closed(IndexOf(periods))
    && (forall id :: id in IndexOf(periods) ==> Rooted(IndexOf(periods), id))
  }

  // ------------------------------------------------------ chains reach a root

  /** The chain's first `n` periods, in order. */
  ghost function Chain(m: Index, id: string, n: nat): (c: seq<string>)
    requires forall k: nat :: k < n ==> Up(m, id, k).Some?
    ensures |c| == n && forall k :: 0 <= k < n ==> Up(m, id, k) == Some(c[k])
  {
    seq(n, (k: nat) requires k < n => Up(m, id, k).value)
  }

  lemma {:induction false} DistinctSize(c: seq<string>, ids: set<string>)
    requires Distinct(c) && forall k :: 0 <= k < |c| ==> c[k] in ids
    ensures |c| <= |ids|
  {
    if c != [] {
      var rest := c[..|c| - 1];
      DistinctSize(rest, ids - {c[|c| - 1]});
    }
  }

  /** A chain that visits no period twice runs out of periods: it reaches a root. */
  lemma NoRevisitReachesRoot(m: Index, id: string)
    requires Closed(m) && id in m && !Revisits(m, id)
    ensures Rooted(m, id)
  {
    var n := |m.Keys| + 1;
    if forall k: nat :: k < n ==> Up(m, id, k).Some? {
      var c := Chain(m, id, n);
      forall k | 0 <= k < n ensures c[k] in m.Keys { UpStaysInside(m, id, k); }
      assert Distinct(c);
      DistinctSize(c, m.Keys);
    }
  }

  lemma AcceptedIsTree(periods: seq<AcademicPeriod>, years: (int, int))
    requires HierarchyValid(periods, years)
    ensures Tree(periods)
  {
    var m := IndexOf(periods);
    forall id | id in m ensures Rooted(m, id) { NoRevisitReachesRoot(m, id); }
  }

  // --------------------------------------------------------------------- depth

  ghost function LeastEnd(m: Index, id: string, n: nat): (d: nat)
    requires Up(m, id, n).None?
    ensures 0 < d <= n && Up(m, id, d).None? && Up(m, id, d - 1).Some?
  {
    assert n > 0;
    if Up(m, id, n - 1).None? then LeastEnd(m, id, n - 1) else n
  }

  /** How many periods the chain from `id` to its root has. */
  ghost function Depth(m: Index, id: string): (d: nat)
    requires Rooted(m, id)
    ensures 0 < d && Up(m, id, d).None? && Up(m, id, d - 1).Some?
  {
    var n: nat :| Up(m, id, n).None?;
    LeastEnd(m, id, n)
  }

  lemma DepthIs(m: Index, id: string, d: nat)
    requires Rooted(m, id) && 0 < d && Up(m, id, d).None? && Up(m, id, d - 1).Some?
    ensures Depth(m, id) == d
  {
    var e := Depth(m, id);
    if e < d { UpStaysNone(m, id, e, d - 1); }
    if d < e { UpStaysNone(m, id, d, e - 1); }
  }

  /** Depth grows by one per link. */
  lemma DepthBelow(m: Index, x: string, y: string, n: nat)
    requires Rooted(m, x) && Rooted(m, y) && Up(m, y, n) == Some(x)
    ensures Depth(m, y) == Depth(m, x) + n
  {
    var d := Depth(m, x);
    UpAdds(m, y, n, d);
    UpAdds(m, y, n, d - 1);
    assert n + d - 1 == n + (d - 1);
    DepthIs(m, y, n + d);
  }

  ghost function MaxDepth(m: Index, ids: set<string>): (b: nat)
    requires forall id :: id in ids ==> Rooted(m, id)
    ensures forall id :: id in ids ==> Depth(m, id) <= b
  {
    if ids == {} then 0
    else
      var id :| id in ids;
      var b := MaxDepth(m, ids - {id});
      if Depth(m, id) > b then Depth(m, id) else b
  }

  // ------------------------------------------------------------------ children

  function Siblings(periods: seq<AcademicPeriod>, parent: Option<string>): seq<AcademicPeriod> {
    Filter(periods, (p: AcademicPeriod) => p.parent == parent)
  }

  function ChildrenOf(periods: seq<AcademicPeriod>, parent: Option<string>): seq<AcademicPeriod> {
    SortBy(Siblings(periods, parent), BySequence)
  }

  lemma ChildrenMembers(periods: seq<AcademicPeriod>, parent: Option<string>)
    ensures forall p :: p in ChildrenOf(periods, parent) <==> p in periods && p.parent == parent
    ensures IdsUnique(periods) ==> Distinct(ChildrenOf(periods, parent))
  {
    FilterMembers(periods, (p: AcademicPeriod) => p.parent == parent);
    SortByContents(Siblings(periods, parent), BySequence);
    if IdsUnique(periods) {
      assert Distinct(periods);
      DistinctByContents(Siblings(periods, parent), ChildrenOf(periods, parent));
    }
  }

  /** `d` holds the siblings of each parent that has any. */
  ghost predicate Groups(d: map<Option<string>, seq<AcademicPeriod>>, periods: seq<AcademicPeriod>) {
    forall k :: Siblings(periods, k) == if k in d then d[k] else []
  }

  lemma NoGroups()
    ensures Groups(map[], [])
  {
  }

  lemma GroupOneMore(d: map<Option<string>, seq<AcademicPeriod>>, r: seq<AcademicPeriod>, p: AcademicPeriod)
    requires Groups(d, r)
    ensures Groups(d[p.parent := (if p.parent in d then d[p.parent] else []) + [p]], r + [p])
  {
    forall k ensures Siblings(r + [p], k) == Siblings(r, k) + if p.parent == k then [p] else [] {
      FilterConcat(r, [p], (x: AcademicPeriod) => x.parent == k);
    }
  }

  /** `d` holds the ordered children of each period that has any, and the roots under `None`. */
  ghost predicate Lists(d: map<Option<string>, seq<AcademicPeriod>>, periods: seq<AcademicPeriod>) {
    forall k :: ChildrenOf(periods, k) == if k in d then d[k] else []
  }

  lemma ListAt(d: map<Option<string>, seq<AcademicPeriod>>, periods: seq<AcademicPeriod>, k: Option<string>)
    requires Lists(d, periods)
    ensures ChildrenOf(periods, k) == if k in d then d[k] else []
  {
  }

  lemma GroupsSorted(d: map<Option<string>, seq<AcademicPeriod>>, e: map<Option<string>, seq<AcademicPeriod>>,
                     periods: seq<AcademicPeriod>)
    requires Groups(d, periods) && e.Keys == d.Keys && forall k :: k in e ==> e[k] == SortBy(d[k], BySequence)
    ensures Lists(e, periods)
  {
    hide Siblings;
    forall k ensures ChildrenOf(periods, k) == if k in e then e[k] else [] {
      assert Siblings(periods, k) == if k in d then d[k] else [];
    }
  }

  /** The dictionary of sibling lists, built one period at a time and then sorted. */
  method ByParent(periods: seq<AcademicPeriod>) returns (d: map<Option<string>, seq<AcademicPeriod>>)
    ensures Lists(d, periods)
  {
    var collected: map<Option<string>, seq<AcademicPeriod>> := map[];
    assert periods[..0] == [];
    hide Groups, Siblings, Lists;
    NoGroups();
    for i := 0 to |periods|
      invariant Groups(collected, periods[..i])
    {
      var p := periods[i];
      GroupOneMore(collected, periods[..i], p);
      assert periods[..i + 1] == periods[..i] + [p];
      collected := collected[p.parent := (if p.parent in collected then collected[p.parent] else []) + [p]];
    }
    assert periods[..|periods|] == periods;
    d := map k | k in collected :: SortBy(collected[k], BySequence);
    GroupsSorted(collected, d, periods);
  }

  // ------------------------------------------------------------------ preorder

  ghost predicate SameDepth(periods: seq<AcademicPeriod>, s: seq<AcademicPeriod>, d: nat)
    requires Tree(periods)
  {
    forall x :: x in s ==> x in periods && x.periodId in IndexOf(periods) && Depth(IndexOf(periods), x.periodId) == d
  }

  lemma InTree(periods: seq<AcademicPeriod>, x: AcademicPeriod)
    requires Tree(periods) && x in periods
    ensures x.periodId in IndexOf(periods) && IndexOf(periods)[x.periodId] == x && Rooted(IndexOf(periods), x.periodId)
  {
    IndexOfIndexes(periods);
  }

  lemma ChildDepth(periods: seq<AcademicPeriod>, x: AcademicPeriod)
    requires Tree(periods) && x in periods
    ensures x.periodId in IndexOf(periods)
    ensures SameDepth(periods, ChildrenOf(periods, Some(x.periodId)), Depth(IndexOf(periods), x.periodId) + 1)
  {
    var m := IndexOf(periods);
    InTree(periods, x);
    ChildrenMembers(periods, Some(x.periodId));
    forall c | c in ChildrenOf(periods, Some(x.periodId))
      ensures c in periods && c.periodId in m && Depth(m, c.periodId) == Depth(m, x.periodId) + 1
    {
      InTree(periods, c);
      assert Up(m, c.periodId, 0) == Some(c.periodId);
      assert Up(m, c.periodId, 1) == Some(x.periodId);
      DepthBelow(m, x.periodId, c.periodId, 1);
    }
  }

  lemma RootDepth(periods: seq<AcademicPeriod>)
    requires Tree(periods)
    ensures SameDepth(periods, ChildrenOf(periods, None), 1)
  {
    var m := IndexOf(periods);
    ChildrenMembers(periods, None);
    forall c | c in ChildrenOf(periods, None)
      ensures c in periods && c.periodId in m && Depth(m, c.periodId) == 1
    {
      InTree(periods, c);
      assert Up(m, c.periodId, 0) == Some(c.periodId);
      assert Up(m, c.periodId, 1).None?;
      DepthIs(m, c.periodId, 1);
    }
  }

  /** Depth-first preorder of the trees under the siblings `s`, in sibling order. */
  ghost function Preorder(periods: seq<AcademicPeriod>, s: seq<AcademicPeriod>, d: nat): seq<AcademicPeriod>
    requires Tree(periods) && SameDepth(periods, s, d)
    decreases MaxDepth(IndexOf(periods), IndexOf(periods).Keys) + 1 - d, |s|
  {
    if s == [] then []
    else
      assert s[0] in s && forall x :: x in s[1..] ==> x in s;
      ChildDepth(periods, s[0]);
      [s[0]] + Preorder(periods, ChildrenOf(periods, Some(s[0].periodId)), d + 1) + Preorder(periods, s[1..], d)
  }

  ghost function Subtree(periods: seq<AcademicPeriod>, x: AcademicPeriod): seq<AcademicPeriod>
    requires Tree(periods) && x in periods
  {
    InTree(periods, x);
    ChildDepth(periods, x);
    [x] + Preorder(periods, ChildrenOf(periods, Some(x.periodId)), Depth(IndexOf(periods), x.periodId) + 1)
  }

  ghost predicate AllIn(s: seq<AcademicPeriod>, periods: seq<AcademicPeriod>) {
    forall k :: 0 <= k < |s| ==> s[k] in periods
  }

  /** What the stack still has to deliver, top (last) first. */
  ghost function Unwind(periods: seq<AcademicPeriod>, stack: seq<AcademicPeriod>): seq<AcademicPeriod>
    requires Tree(periods) && AllIn(stack, periods)
  {
    if stack == [] then []
    else Subtree(periods, stack[|stack| - 1]) + Unwind(periods, stack[..|stack| - 1])
  }

  lemma UnwindTop(periods: seq<AcademicPeriod>, rest: seq<AcademicPeriod>, x: AcademicPeriod)
    requires Tree(periods) && x in periods && AllIn(rest, periods)
    ensures AllIn(rest + [x], periods)
    ensures Unwind(periods, rest + [x]) == Subtree(periods, x) + Unwind(periods, rest)
  {
    hide Tree, Subtree;
    assert (rest + [x])[..|rest|] == rest;
  }

  lemma HeadDepths(periods: seq<AcademicPeriod>, s: seq<AcademicPeriod>, d: nat)
    requires Tree(periods) && SameDepth(periods, s, d) && s != []
    ensures s[0] in periods && SameDepth(periods, s[1..], d)
    ensures SameDepth(periods, ChildrenOf(periods, Some(s[0].periodId)), d + 1)
  {
    hide Tree, ChildrenOf;
    assert s[0] in s && forall x :: x in s[1..] ==> x in s;
    ChildDepth(periods, s[0]);
  }

  lemma PreorderHead(periods: seq<AcademicPeriod>, s: seq<AcademicPeriod>, d: nat)
    requires Tree(periods) && SameDepth(periods, s, d) && s != []
    ensures s[0] in periods && SameDepth(periods, s[1..], d)
    ensures SameDepth(periods, ChildrenOf(periods, Some(s[0].periodId)), d + 1)
    ensures Preorder(periods, s, d)
         == [s[0]] + Preorder(periods, ChildrenOf(periods, Some(s[0].periodId)), d + 1) + Preorder(periods, s[1..], d)
  {
    HeadDepths(periods, s, d);
    hide Tree, ChildrenOf, SameDepth;
  }

  lemma PreorderSplits(periods: seq<AcademicPeriod>, s: seq<AcademicPeriod>, d: nat)
    requires Tree(periods) && SameDepth(periods, s, d) && s != []
    ensures s[0] in periods && SameDepth(periods, s[1..], d)
    ensures Preorder(periods, s, d) == Subtree(periods, s[0]) + Preorder(periods, s[1..], d)
  {
    hide Tree, ChildrenOf, Preorder;
    PreorderHead(periods, s, d);
    assert s[0] in s;
    ChildDepth(periods, s[0]);
  }

  /** Pushing siblings reversed delivers their preorder next. */
  lemma {:induction false} UnwindPush(periods: seq<AcademicPeriod>, stack: seq<AcademicPeriod>, s: seq<AcademicPeriod>,
                                      d: nat)
    requires Tree(periods) && SameDepth(periods, s, d) && AllIn(stack, periods)
    ensures AllIn(stack + Reverse(s), periods)
    ensures Unwind(periods, stack + Reverse(s)) == Preorder(periods, s, d) + Unwind(periods, stack)
  {
    hide Tree, ChildrenOf, Subtree, Unwind, SameDepth, AllIn;
    if s == [] {
      assert stack + Reverse(s) == stack;
    } else {
      hide Preorder;
      PreorderSplits(periods, s, d);
      UnwindPush(periods, stack, s[1..], d);
      var rest := stack + Reverse(s[1..]);
      assert stack + Reverse(s) == rest + [s[0]];
      UnwindTop(periods, rest, s[0]);
    }
  }

  lemma UnwindStart(periods: seq<AcademicPeriod>, s: seq<AcademicPeriod>, d: nat)
    requires Tree(periods) && SameDepth(periods, s, d)
    ensures AllIn(Reverse(s), periods)
    ensures Unwind(periods, Reverse(s)) == Preorder(periods, s, d)
  {
    hide Tree, ChildrenOf, Preorder, SameDepth;
    var none: seq<AcademicPeriod> := [];
    UnwindPush(periods, none, s, d);
    assert none + Reverse(s) == Reverse(s);
  }

  /** Popping a period and pushing its children reversed delivers the period itself. */
  lemma UnwindPop(periods: seq<AcademicPeriod>, stack: seq<AcademicPeriod>)
    requires Tree(periods) && stack != [] && AllIn(stack, periods)
    ensures var top := stack[|stack| - 1];
            var next := stack[..|stack| - 1] + Reverse(ChildrenOf(periods, Some(top.periodId)));
            AllIn(next, periods) && Unwind(periods, stack) == [top] + Unwind(periods, next)
  {
    hide Tree, ChildrenOf, Preorder, SameDepth;
    var top, rest := stack[|stack| - 1], stack[..|stack| - 1];
    ChildDepth(periods, top);
    UnwindPush(periods, rest, ChildrenOf(periods, Some(top.periodId)), Depth(IndexOf(periods), top.periodId) + 1);
  }

  lemma Regroup<T>(a: seq<T>, x: T, b: seq<T>)
    ensures a + ([x] + b) == (a + [x]) + b
  {
  }

  /** The iterative traversal terminates and delivers exactly the recursive preorder. */
  method PreorderPeriods(periods: seq<AcademicPeriod>, d: map<Option<string>, seq<AcademicPeriod>>,
                         initial: seq<AcademicPeriod>, ghost depth: nat)
    returns (result: seq<AcademicPeriod>)
    requires Tree(periods) && SameDepth(periods, initial, depth)
    requires Lists(d, periods)
    ensures result == Preorder(periods, initial, depth)
  {
    hide Tree, ChildrenOf, Preorder, SameDepth, AllIn, Lists, Reverse;
    result := [];
    var stack := Reverse(initial);
    UnwindStart(periods, initial, depth);
    while stack != []
      invariant AllIn(stack, periods)
      invariant result + Unwind(periods, stack) == Preorder(periods, initial, depth)
      decreases |Unwind(periods, stack)|
    {
      UnwindPop(periods, stack);
      hide Unwind;
      var period := stack[|stack| - 1];
      ListAt(d, periods, Some(period.periodId));
      var children := if Some(period.periodId) in d then d[Some(period.periodId)] else [];
      stack := stack[..|stack| - 1] + Reverse(children);
      Regroup(result, period, Unwind(periods, stack));
      result := result + [period];
    }
  }

  // --------------------------------------------------- what the preorder lists

  /** `y` is `x` or lies below it. */
  ghost predicate Under(m: Index, x: string, y: string) {
    exists n: nat :: Up(m, y, n) == Some(x)
  }

  lemma UnderParent(periods: seq<AcademicPeriod>, c: AcademicPeriod, y: AcademicPeriod)
    requires Tree(periods) && c in periods && c.parent.Some? && Under(IndexOf(periods), c.periodId, y.periodId)
    ensures Under(IndexOf(periods), c.parent.value, y.periodId)
  {
    hide Tree;
    InTree(periods, c);
    var m := IndexOf(periods);
    var n: nat :| Up(m, y.periodId, n) == Some(c.periodId);
    assert Up(m, y.periodId, n + 1) == c.parent;
  }

  lemma UpIsInTree(periods: seq<AcademicPeriod>, y: AcademicPeriod, n: nat)
    requires Tree(periods) && y in periods && Up(IndexOf(periods), y.periodId, n).Some?
    ensures var m := IndexOf(periods);
            var id := Up(m, y.periodId, n).value;
            id in m && m[id] in periods && m[id].periodId == id
  {
    InTree(periods, y);
    UpStaysInside(IndexOf(periods), y.periodId, n);
    IndexOfIndexes(periods);
  }

  /** The last period before `x` on the way up from `y`. */
  lemma ChildAbove(periods: seq<AcademicPeriod>, x: AcademicPeriod, y: AcademicPeriod) returns (c: AcademicPeriod)
    requires Tree(periods) && x in periods && y in periods && y != x && Under(IndexOf(periods), x.periodId, y.periodId)
    ensures c in periods && c.parent == Some(x.periodId) && Under(IndexOf(periods), c.periodId, y.periodId)
  {
    hide Tree;
    var m := IndexOf(periods);
    InTree(periods, x);
    InTree(periods, y);
    var n: nat :| Up(m, y.periodId, n) == Some(x.periodId);
    assert n > 0;
    UpIsInTree(periods, y, n - 1);
    c := m[Up(m, y.periodId, n - 1).value];
    assert Up(m, y.periodId, n) == c.parent;
  }

  lemma UnderChild(periods: seq<AcademicPeriod>, x: AcademicPeriod, y: AcademicPeriod)
    requires Tree(periods) && x in periods && y in periods
    ensures var m := IndexOf(periods);
            Under(m, x.periodId, y.periodId) <==> y == x || UnderSome(m, ChildrenOf(periods, Some(x.periodId)), y)
  {
    hide Tree, ChildrenOf;
    var m := IndexOf(periods);
    ChildrenMembers(periods, Some(x.periodId));
    if y == x { assert Up(m, y.periodId, 0) == Some(x.periodId); }
    if UnderSome(m, ChildrenOf(periods, Some(x.periodId)), y) {
      var c :| c in ChildrenOf(periods, Some(x.periodId)) && Under(m, c.periodId, y.periodId);
      UnderParent(periods, c, y);
    }
    if Under(m, x.periodId, y.periodId) && y != x {
      var c := ChildAbove(periods, x, y);
    }
  }

  ghost predicate UnderSome(m: Index, s: seq<AcademicPeriod>, y: AcademicPeriod) {
    exists x :: x in s && Under(m, x.periodId, y.periodId)
  }

  /** The preorder of some siblings lists exactly the periods at or below one of them. */
  lemma {:induction false} PreorderMembers(periods: seq<AcademicPeriod>, s: seq<AcademicPeriod>, d: nat,
                                           y: AcademicPeriod)
    requires Tree(periods) && SameDepth(periods, s, d)
    ensures y in Preorder(periods, s, d) <==> y in periods && UnderSome(IndexOf(periods), s, y)
    decreases MaxDepth(IndexOf(periods), IndexOf(periods).Keys) + 1 - d, |s|
  {
    if s != [] {
      hide Tree, ChildrenOf, SameDepth, Preorder, Under;
      var m := IndexOf(periods);
      var x := s[0];
      PreorderHead(periods, s, d);
      PreorderMembers(periods, ChildrenOf(periods, Some(x.periodId)), d + 1, y);
      PreorderMembers(periods, s[1..], d, y);
      if y in periods {
        UnderChild(periods, x, y);
        assert UnderSome(m, s, y) <==> Under(m, x.periodId, y.periodId) || UnderSome(m, s[1..], y) by {
          assert forall z :: z in s <==> z == x || z in s[1..];
        }
      }
    }
  }

  lemma SameAncestorAtSameDepth(periods: seq<AcademicPeriod>, x: AcademicPeriod, z: AcademicPeriod, y: AcademicPeriod)
    requires Tree(periods) && x in periods && y in periods && z in periods
    requires x.periodId in IndexOf(periods) && z.periodId in IndexOf(periods)
    requires Depth(IndexOf(periods), x.periodId) == Depth(IndexOf(periods), z.periodId)
    requires Under(IndexOf(periods), x.periodId, y.periodId) && Under(IndexOf(periods), z.periodId, y.periodId)
    ensures x == z
  {
    hide Tree;
    var m := IndexOf(periods);
    InTree(periods, x);
    InTree(periods, y);
    InTree(periods, z);
    var a: nat :| Up(m, y.periodId, a) == Some(x.periodId);
    var b: nat :| Up(m, y.periodId, b) == Some(z.periodId);
    DepthBelow(m, x.periodId, y.periodId, a);
    DepthBelow(m, z.periodId, y.periodId, b);
  }

  lemma {:induction false} PreorderDistinct(periods: seq<AcademicPeriod>, s: seq<AcademicPeriod>, d: nat)
    requires Tree(periods) && SameDepth(periods, s, d) && Distinct(s)
    ensures Distinct(Preorder(periods, s, d))
    decreases MaxDepth(IndexOf(periods), IndexOf(periods).Keys) + 1 - d, |s|
  {
    if s != [] {
      var x := s[0];
      hide Tree, ChildrenOf, UnderSome, Preorder;
      PreorderHead(periods, s, d);
      ChildrenMembers(periods, Some(x.periodId));
      var children := ChildrenOf(periods, Some(x.periodId));
      var below := Preorder(periods, children, d + 1);
      var rest := Preorder(periods, s[1..], d);
      IdsUniqueOf(periods);
      PreorderDistinct(periods, children, d + 1);
      PreorderDistinct(periods, s[1..], d);
      forall y | y in below ensures y != x && y !in rest {
        BelowIsApart(periods, s, d, y);
      }
      forall y | y in rest ensures y != x {
        PreorderMembers(periods, s[1..], d, y);
        if y == x { RestIsApart(periods, s, d); }
      }
      DistinctConcat([x], below);
      DistinctConcat([x] + below, rest);
    }
  }

  lemma IdsUniqueOf(periods: seq<AcademicPeriod>)
    requires Tree(periods)
    ensures IdsUnique(periods)
  {
  }

  lemma BelowIsApart(periods: seq<AcademicPeriod>, s: seq<AcademicPeriod>, d: nat, y: AcademicPeriod)
    requires Tree(periods) && SameDepth(periods, s, d) && Distinct(s) && s != []
    requires s[0] in periods && SameDepth(periods, ChildrenOf(periods, Some(s[0].periodId)), d + 1)
    requires SameDepth(periods, s[1..], d)
    requires y in Preorder(periods, ChildrenOf(periods, Some(s[0].periodId)), d + 1)
    ensures y != s[0] && y !in Preorder(periods, s[1..], d)
  {
    var m := IndexOf(periods);
    var x := s[0];
    assert x in s;
    var children := ChildrenOf(periods, Some(x.periodId));
    PreorderMembers(periods, children, d + 1, y);
    PreorderMembers(periods, s[1..], d, y);
    var c :| c in children && Under(m, c.periodId, y.periodId);
    InTree(periods, c);
    InTree(periods, y);
    var n: nat :| Up(m, y.periodId, n) == Some(c.periodId);
    DepthBelow(m, c.periodId, y.periodId, n);
    UnderChild(periods, x, y);
    forall z | z in s[1..] ensures !Under(m, z.periodId, y.periodId) {
      if Under(m, z.periodId, y.periodId) { SameAncestorAtSameDepth(periods, x, z, y); }
    }
  }

  lemma RestIsApart(periods: seq<AcademicPeriod>, s: seq<AcademicPeriod>, d: nat)
    requires Tree(periods) && SameDepth(periods, s, d) && Distinct(s) && s != []
    ensures !UnderSome(IndexOf(periods), s[1..], s[0])
  {
    var m := IndexOf(periods);
    assert s[0] in s;
    forall z | z in s[1..] ensures !Under(m, z.periodId, s[0].periodId) {
      assert z in s;
      assert Up(m, s[0].periodId, 0) == Some(s[0].periodId);
      if Under(m, z.periodId, s[0].periodId) { SameAncestorAtSameDepth(periods, s[0], z, s[0]); }
    }
  }

  /** Every period lies below some root. */
  lemma UnderARoot(periods: seq<AcademicPeriod>, y: AcademicPeriod)
    requires Tree(periods) && y in periods
    ensures UnderSome(IndexOf(periods), ChildrenOf(periods, None), y)
  {
    var m := IndexOf(periods);
    InTree(periods, y);
    IndexOfIndexes(periods);
    ChildrenMembers(periods, None);
    var d := Depth(m, y.periodId);
    UpStaysInside(m, y.periodId, d - 1);
    var root := m[Up(m, y.periodId, d - 1).value];
    assert Up(m, y.periodId, d - 1) == Some(root.periodId);
    assert Up(m, y.periodId, d).None?;
    assert Under(m, root.periodId, y.periodId) && root in ChildrenOf(periods, None);
  }

  /** The display order: depth-first from the roots, siblings by sequence. */
  ghost function Display(periods: seq<AcademicPeriod>): seq<AcademicPeriod>
    requires Tree(periods)
  {
    RootDepth(periods);
    Preorder(periods, ChildrenOf(periods, None), 1)
  }

  /** `list_academic_periods`: hierarchy display order, every period exactly once. */
  method ListPeriods(periods: seq<AcademicPeriod>) returns (result: seq<AcademicPeriod>)
    requires Tree(periods)
    ensures result == Display(periods)
    ensures multiset(result) == multiset(periods)
  {
    hide Tree;
    var d := ByParent(periods);
    ListAt(d, periods, None);
    RootDepth(periods);
    var roots := if None in d then d[None] else [];
    result := PreorderPeriods(periods, d, roots, 1);
    ListsEachOnce(periods);
  }

  lemma ListsEachOnce(periods: seq<AcademicPeriod>)
    requires Tree(periods) && SameDepth(periods, ChildrenOf(periods, None), 1)
    ensures multiset(Preorder(periods, ChildrenOf(periods, None), 1)) == multiset(periods)
  {
    var roots := ChildrenOf(periods, None);
    ChildrenMembers(periods, None);
    PreorderDistinct(periods, roots, 1);
    forall y ensures y in Preorder(periods, roots, 1) <==> y in periods {
      PreorderMembers(periods, roots, 1, y);
      if y in periods { UnderARoot(periods, y); }
    }
    SameMembersSameContents(Preorder(periods, roots, 1), periods);
  }

  // ----------------------------------------------------- ancestors, descendants

  lemma ParentIndexed(periods: seq<AcademicPeriod>, p: AcademicPeriod)
    requires Tree(periods) && p in periods && p.parent.Some?
    ensures var m := IndexOf(periods);
            p.parent.value in m && m[p.parent.value] in periods && m[p.parent.value].periodId == p.parent.value
  {
    IndexOfIndexes(periods);
  }

  ghost predicate ListsAncestors(periods: seq<AcademicPeriod>, start: AcademicPeriod, above: seq<AcademicPeriod>) {
    var m := IndexOf(periods);
    && (forall k :: 0 <= k < |above| ==> above[k] in periods && Up(m, start.periodId, k + 1) == Some(above[k].periodId))
    && Up(m, start.periodId, |above| + 1).None?
  }

  /** Ancestors from the immediate parent toward the root. */
  method ListAncestors(periods: seq<AcademicPeriod>, m: Index, start: AcademicPeriod)
    returns (result: seq<AcademicPeriod>)
    requires Tree(periods) && m == IndexOf(periods) && start in periods
    ensures ListsAncestors(periods, start, result)
  {
    hide Tree;
    InTree(periods, start);
    result := [];
    var current := start;
    ghost var depth := Depth(m, start.periodId);
    assert Up(m, start.periodId, 0) == Some(start.periodId);
    while current.parent.Some?
      invariant current in periods && current.periodId in m && m[current.periodId] == current
      invariant Up(m, start.periodId, |result|) == Some(current.periodId)
      invariant forall k :: 0 <= k < |result| ==>
          result[k] in periods && Up(m, start.periodId, k + 1) == Some(result[k].periodId)
      decreases depth - |result|
    {
      if |result| >= depth { UpStaysNone(m, start.periodId, depth, |result|); }
      ParentIndexed(periods, current);
      InTree(periods, m[current.parent.value]);
      current := m[current.parent.value];
      result := result + [current];
    }
  }

  /** Descendants in depth-first preorder. */
  method ListDescendants(periods: seq<AcademicPeriod>, parent: AcademicPeriod) returns (result: seq<AcademicPeriod>)
    requires Tree(periods) && parent in periods
    ensures [parent] + result == Subtree(periods, parent)
    ensures forall y :: y in result <==>
              y in periods && y != parent && Under(IndexOf(periods), parent.periodId, y.periodId)
    ensures Distinct(result)
  {
    var d := ByParent(periods);
    InTree(periods, parent);
    ChildDepth(periods, parent);
    ChildrenMembers(periods, Some(parent.periodId));
    ghost var depth := Depth(IndexOf(periods), parent.periodId) + 1;
    var children := if Some(parent.periodId) in d then d[Some(parent.periodId)] else [];
    result := PreorderPeriods(periods, d, children, depth);
    PreorderDistinct(periods, children, depth);
    forall y
      ensures y in result <==> y in periods && y != parent && Under(IndexOf(periods), parent.periodId, y.periodId)
    {
      PreorderMembers(periods, children, depth, y);
      if y in periods {
        UnderChild(periods, parent, y);
        if y == parent { ParentIsNotBelow(periods, parent); }
      }
    }
  }

  lemma ParentIsNotBelow(periods: seq<AcademicPeriod>, x: AcademicPeriod)
    requires Tree(periods) && x in periods
    ensures !UnderSome(IndexOf(periods), ChildrenOf(periods, Some(x.periodId)), x)
  {
    var m := IndexOf(periods);
    InTree(periods, x);
    ChildDepth(periods, x);
    forall c | c in ChildrenOf(periods, Some(x.periodId)) ensures !Under(m, c.periodId, x.periodId) {
      if Under(m, c.periodId, x.periodId) {
        var n: nat :| Up(m, x.periodId, n) == Some(c.periodId);
        DepthBelow(m, c.periodId, x.periodId, n);
      }
    }
  }

  /** The ancestors of `y` are the other periods `y` lies under. */
  lemma AncestorsAreAbove(periods: seq<AcademicPeriod>, x: AcademicPeriod, y: AcademicPeriod,
                          above: seq<AcademicPeriod>)
    requires Tree(periods) && x in periods && y in periods && ListsAncestors(periods, y, above)
    ensures x in above <==> x != y && Under(IndexOf(periods), x.periodId, y.periodId)
  {
    hide Tree;
    var m := IndexOf(periods);
    InTree(periods, x);
    InTree(periods, y);
    if x in above {
      var k :| 0 <= k < |above| && above[k] == x;
      if x == y { DepthBelow(m, x.periodId, y.periodId, k + 1); }
    }
    if x != y && Under(m, x.periodId, y.periodId) {
      var n: nat :| Up(m, y.periodId, n) == Some(x.periodId);
      assert Up(m, y.periodId, 0) == Some(y.periodId);
      if n > |above| { UpStaysNone(m, y.periodId, |above| + 1, n); }
      assert above[n - 1].periodId == x.periodId;
      InTree(periods, above[n - 1]);
    }
  }

  /** Ancestor and descendant queries are converse relations. */
  method AncestorsAndDescendantsAgree(periods: seq<AcademicPeriod>, x: AcademicPeriod, y: AcademicPeriod)
    returns (above: seq<AcademicPeriod>, below: seq<AcademicPeriod>)
    requires Tree(periods) && x in periods && y in periods
    ensures x in above <==> y in below
  {
    hide Tree, Subtree, Under, ListsAncestors;
    above := ListAncestors(periods, IndexOf(periods), y);
    below := ListDescendants(periods, x);
    AncestorsAreAbove(periods, x, y, above);
  }

  // --------------------------------------------------------------- date queries

  predicate ContainsDate(p: AcademicPeriod, date: Date) {
    DateLe(p.startDate, date) && DateLe(date, p.endDate)
  }

  method ListContainingDate(periods: seq<AcademicPeriod>, date: Date) returns (result: seq<AcademicPeriod>)
    requires Tree(periods)
    ensures result == Filter(Display(periods), (p: AcademicPeriod) => ContainsDate(p, date))
    ensures forall p :: p in result <==> p in periods && ContainsDate(p, date)
    ensures Distinct(result)
  {
    hide Display;
    var all := ListPeriods(periods);
    SameContents(all, periods);
    DistinctByContents(periods, all);
    FilterMembers(all, (p: AcademicPeriod) => ContainsDate(p, date));
    result := Filter(all, (p: AcademicPeriod) => ContainsDate(p, date));
  }

  /** A date inside a period is inside every one of its ancestors. */
  lemma ContainingDateClosedUnderAncestors(periods: seq<AcademicPeriod>, years: (int, int), p: AcademicPeriod,
                                           n: nat, date: Date)
    requires HierarchyValid(periods, years) && p in periods && ContainsDate(p, date)
    requires Up(IndexOf(periods), p.periodId, n).Some?
    ensures var m := IndexOf(periods);
            Up(m, p.periodId, n).value in m && ContainsDate(m[Up(m, p.periodId, n).value], date)
  {
    var m := IndexOf(periods);
    IndexOfIndexes(periods);
    AncestorsContain(m, years, p.periodId, n);
    var a := m[Up(m, p.periodId, n).value];
    DateLeTransitive(a.startDate, p.startDate, date);
    DateLeTransitive(date, p.endDate, a.endDate);
  }
}
