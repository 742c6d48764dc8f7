/**
 The capped path search of tools/archsig/src/compare.rs and the refinement map it decides.
 */
module ContextPaths {
  import opened Sequences
  import opened Names
  import opened ContextCycles

  // ---------- Simple paths ----------

  /** A restriction path visiting no context twice. */
  predicate IsPath(g: Graph, p: seq<Name>) {
    IsWalk(g, p) && Distinct(p) && forall a :: a in p ==> a in g
  }

  predicate IsPathTo(g: Graph, p: seq<Name>, a: Name, b: Name) {
    IsPath(g, p) && p[0] == a && p[|p| - 1] == b
  }

  lemma PathFits(g: Graph, p: seq<Name>)
    requires IsPath(g, p)
    ensures |p| <= |g|
  {
    DistinctFits(p, g.Keys);
    assert |g.Keys| == |g|;
  }

  lemma PathExtends(g: Graph, p: seq<Name>, b: Name)
    requires Resolved(g) && IsPath(g, p) && IsEdge(g, p[|p| - 1], b) && b !in p
    ensures IsPath(g, p + [b])
  {
    var q := p + [b];
    forall i | 0 <= i < |q| - 1 ensures IsEdge(g, q[i], q[i + 1]) { if i + 1 < |p| { assert IsEdge(g, p[i], p[i + 1]); } }
  }

  // ---------- What the search lists ----------

  predicate AreNexts(g: Graph, path: seq<Name>, nexts: seq<Name>) {
    path != [] && forall i :: 0 <= i < |nexts| ==> IsEdge(g, path[|path| - 1], nexts[i])
  }

  /** Every extension of `path` ending at the target, in the order of the search: targets
      sorted, a target listed twice tried twice. */
  function PathsFrom(g: Graph, path: seq<Name>, target: Name): (r: seq<seq<Name>>)
    requires Resolved(g) && IsPath(g, path)
    decreases |g| - |path|, 2
  {
    if path[|path| - 1] == target then [path] else
      PathFits(g, path);
      NextTargets(g, path);
      PathsVia(g, path, target, Sort(g[path[|path| - 1]]))
  }

  function PathsVia(g: Graph, path: seq<Name>, target: Name, nexts: seq<Name>): (r: seq<seq<Name>>)
    requires Resolved(g) && IsPath(g, path) && AreNexts(g, path, nexts)
    decreases |g| - |path|, 1, |nexts|
  {
    if nexts == [] then [] else
      var n := |nexts| - 1;
      assert nexts[n] in nexts;
      PathsVia(g, path, target, nexts[..n]) + PathsAfter(g, path, target, nexts[n])
  }

  function PathsAfter(g: Graph, path: seq<Name>, target: Name, next: Name): (r: seq<seq<Name>>)
    requires Resolved(g) && IsPath(g, path) && IsEdge(g, path[|path| - 1], next)
    decreases |g| - |path|, 0
  {
    if next in path then [] else
      PathExtends(g, path, next);
      PathFits(g, path + [next]);
      PathsFrom(g, path + [next], target)
  }

  lemma NextTargets(g: Graph, path: seq<Name>)
    requires IsPath(g, path)
    ensures path[|path| - 1] in g
    ensures AreNexts(g, path, Sort(g[path[|path| - 1]]))
  {
    assert path[|path| - 1] in path;
    var nexts := Sort(g[path[|path| - 1]]);
    forall i | 0 <= i < |nexts| ensures IsEdge(g, path[|path| - 1], nexts[i]) { SortMembers(g[path[|path| - 1]], nexts[i]); }
  }

  lemma StartPath(g: Graph, a: Name)
    requires a in g
    ensures IsPath(g, [a])
  {
  }

  function AllPaths(g: Graph, start: Name, target: Name): seq<seq<Name>>
    requires Resolved(g)
  {
    if start !in g || target !in g then [] else
      StartPath(g, start);
      PathsFrom(g, [start], target)
  }

  // ---------- The search ----------

  function Cap<T>(s: seq<T>): (r: seq<T>)
    ensures |r| <= 2 && (|s| <= 2 ==> r == s) && (|s| > 2 ==> |r| == 2)
  {
    if |s| <= 2 then s else s[..2]
  }

  lemma CapAppend<T>(s: seq<T>, t: seq<T>)
    ensures Cap(Cap(s) + t) == Cap(s + t)
  {
  }

  class PathSearch {
    const g: Graph
    var path: seq<Name>
    var paths: seq<seq<Name>>

    constructor (graph: Graph, start: Name)
      ensures g == graph && path == [start] && paths == []
    {
      g := graph;
      path, paths := [start], [];
    }

    /** Appends, up to two in all, the paths extending the stack, and restores the stack. */
    method Walk(target: Name)
      requires Resolved(g) && IsPath(g, path) && |paths| <= 2
      modifies this
      ensures path == old(path)
      ensures paths == Cap(old(paths) + PathsFrom(g, old(path), target))
      decreases |g| - |path|
    {
      hide PathsVia, PathsAfter, IsPath, Resolved, Cap, Sort;
      ghost var stack, found := path, paths;
      PathNonempty(g, path);
      CapFull(paths, PathsFrom(g, path, target));
      if |paths| >= 2 { return; }
      var current := path[|path| - 1];
      if current == target {
        CapFull(paths + [path], []);
        paths := paths + [path];
        return;
      }
      NextTargets(g, path);
      PathFits(g, path);
      var nexts := Sort(g[current]);
      NoneYet(g, stack, target);
      CapFull(found, []);
      for i := 0 to |nexts|
        invariant path == stack && |paths| <= 2
        invariant paths == Cap(found + PathsVia(g, stack, target, nexts[..i]))
      {
        AfterNext(g, stack, target, nexts, i);
        if nexts[i] !in path {
          PathExtends(g, path, nexts[i]);
          PathFits(g, path + [nexts[i]]);
          path := path + [nexts[i]];
          Walk(target);
          path := path[..|path| - 1];
          CapAppend(found + PathsVia(g, stack, target, nexts[..i]), PathsFrom(g, stack + [nexts[i]], target));
        }
        ghost var earlier := found + PathsVia(g, stack, target, nexts[..i]);
        assert found + PathsVia(g, stack, target, nexts[..i + 1]) == earlier + PathsAfter(g, stack, target, nexts[i]);
        assert earlier + [] == earlier;
      }
      assert nexts[..|nexts|] == nexts;
    }
  }

  lemma PathNonempty(g: Graph, path: seq<Name>)
    requires IsPath(g, path)
    ensures path != []
  {
  }

  lemma CapFull<T>(s: seq<T>, t: seq<T>)
    ensures |s| == 2 || (t == [] && |s| < 2) ==> s == Cap(s + t)
  {
  }

  lemma NoneYet(g: Graph, path: seq<Name>, target: Name)
    requires Resolved(g) && IsPath(g, path)
    ensures PathsVia(g, path, target, []) == []
  {
  }

  lemma AfterNext(g: Graph, path: seq<Name>, target: Name, nexts: seq<Name>, i: nat)
    requires Resolved(g) && IsPath(g, path) && AreNexts(g, path, nexts) && i < |nexts|
    ensures IsEdge(g, path[|path| - 1], nexts[i])
    ensures PathsVia(g, path, target, nexts[..i + 1]) == PathsVia(g, path, target, nexts[..i]) + PathsAfter(g, path, target, nexts[i])
    ensures nexts[i] in path ==> PathsAfter(g, path, target, nexts[i]) == []
    ensures nexts[i] !in path ==>
      IsPath(g, path + [nexts[i]]) && PathsAfter(g, path, target, nexts[i]) == PathsFrom(g, path + [nexts[i]], target)
  {
    assert nexts[..i + 1][..i] == nexts[..i];
    if nexts[i] !in path { PathExtends(g, path, nexts[i]); }
  }

  /** The first two of the listed paths. */
  method ContextPaths(g: Graph, start: Name, target: Name) returns (paths: seq<seq<Name>>)
    requires Resolved(g)
    ensures paths == Cap(AllPaths(g, start, target))
  {
    if start !in g || target !in g { return []; }
    StartPath(g, start);
    var search := new PathSearch(g, start);
    search.Walk(target);
    paths := search.paths;
  }

  // ---------- The list is exact ----------

  /** How many times the search lists p from its position k on: once for every way of
      choosing each next context among the listed targets. */
  function Listings(g: Graph, p: seq<Name>, k: nat): nat
    requires IsPath(g, p) && k < |p|
    decreases |p| - k
  {
    if k == |p| - 1 then 1 else
      assert IsEdge(g, p[k], p[k + 1]);
      multiset(g[p[k]])[p[k + 1]] * Listings(g, p, k + 1)
  }

  predicate Continues(g: Graph, path: seq<Name>, target: Name, p: seq<Name>) {
    path != [] && path <= p && IsPathTo(g, p, path[0], target)
  }

  lemma {:induction false} ListedOnlyPaths(g: Graph, path: seq<Name>, target: Name, p: seq<Name>)
    requires Resolved(g) && IsPath(g, path) && p in PathsFrom(g, path, target)
    ensures Continues(g, path, target, p)
    decreases |g| - |path|, 2
  {
    if path[|path| - 1] != target {
      PathFits(g, path);
      NextTargets(g, path);
      var b := ListedVia(g, path, target, Sort(g[path[|path| - 1]]), p);
    }
  }

  lemma {:induction false} ListedVia(g: Graph, path: seq<Name>, target: Name, nexts: seq<Name>, p: seq<Name>) returns (b: Name)
    requires Resolved(g) && IsPath(g, path) && AreNexts(g, path, nexts)
    requires p in PathsVia(g, path, target, nexts)
    ensures b in nexts && b !in path && Continues(g, path + [b], target, p)
    decreases |g| - |path|, 1, |nexts|
  {
    var n := |nexts| - 1;
    assert nexts[n] in nexts;
    if p in PathsVia(g, path, target, nexts[..n]) {
      b := ListedVia(g, path, target, nexts[..n], p);
    } else {
      b := nexts[n];
      PathExtends(g, path, b);
      PathFits(g, path + [b]);
      ListedOnlyPaths(g, path + [b], target, p);
    }
  }

  /** Each path continuing the stack is listed exactly as often as its targets allow. */
  lemma {:induction false} ListedOften(g: Graph, path: seq<Name>, target: Name, p: seq<Name>)
    requires Resolved(g) && IsPath(g, path) && Continues(g, path, target, p)
    ensures multiset(PathsFrom(g, path, target))[p] == Listings(g, p, |path| - 1)
    decreases |g| - |path|, 2
  {
    var k := |path| - 1;
    if path[k] == target {
      assert p[k] == p[|p| - 1];
      assert p == path;
    } else {
      PathFits(g, path);
      NextTargets(g, path);
      var nexts := Sort(g[path[k]]);
      assert k < |p| - 1 && IsEdge(g, p[k], p[k + 1]);
      ListedOftenVia(g, path, target, nexts, p);
      assert multiset(nexts) == multiset(g[p[k]]);
    }
  }

  lemma {:induction false} ListedOftenVia(g: Graph, path: seq<Name>, target: Name, nexts: seq<Name>, p: seq<Name>)
    requires Resolved(g) && IsPath(g, path) && AreNexts(g, path, nexts)
    requires Continues(g, path, target, p) && |path| < |p|
    ensures multiset(PathsVia(g, path, target, nexts))[p] == multiset(nexts)[p[|path|]] * Listings(g, p, |path|)
    decreases |g| - |path|, 1, |nexts|
  {
    if nexts == [] {
      NoneYet(g, path, target);
    } else {
      hide PathsVia, PathsAfter, IsPath, Listings, Resolved, Continues;
      var n := |nexts| - 1;
      var b := nexts[n];
      assert nexts == nexts[..n] + [b] && nexts[..n + 1] == nexts;
      AfterNext(g, path, target, nexts, n);
      var m := multiset(nexts[..n])[p[|path|]];
      ListedOftenVia(g, path, target, nexts[..n], p);
      StepOften(g, path, target, p, b);
      OneMore(m, if b == p[|path|] then 1 else 0, Listings(g, p, |path|));
      assert multiset(nexts)[p[|path|]] == m + if b == p[|path|] then 1 else 0;
    }
  }

  lemma OneMore(m: nat, d: nat, n: nat)
    ensures m * n + d * n == (m + d) * n
  {
  }

  lemma {:induction false} StepOften(g: Graph, path: seq<Name>, target: Name, p: seq<Name>, b: Name)
    requires Resolved(g) && IsPath(g, path) && IsEdge(g, path[|path| - 1], b)
    requires Continues(g, path, target, p) && |path| < |p|
    ensures multiset(PathsAfter(g, path, target, b))[p] == if b == p[|path|] then Listings(g, p, |path|) else 0
    decreases |g| - |path|, 0
  {
    if b !in path {
      PathExtends(g, path, b);
      PathFits(g, path + [b]);
      if b == p[|path|] {
        ListedOften(g, path + [b], target, p);
      } else if p in PathsFrom(g, path + [b], target) {
        ListedOnlyPaths(g, path + [b], target, p);
      }
    } else {
      var i :| 0 <= i < |path| && path[i] == b;
      assert p[i] == b;
    }
  }

  /** The listed paths are exactly the simple restriction paths, each counted. */
  lemma AllPathsExact(g: Graph, start: Name, target: Name, p: seq<Name>)
    requires Resolved(g)
    ensures p in AllPaths(g, start, target) <==> IsPathTo(g, p, start, target)
    ensures IsPathTo(g, p, start, target) ==> multiset(AllPaths(g, start, target))[p] == Listings(g, p, 0) > 0
  {
    if IsPathTo(g, p, start, target) {
      assert p[0] in p && p[|p| - 1] in p;
      assert p == [start] + p[1..];
      ListedOften(g, [start], target, p);
      ListingsPositive(g, p, 0);
      assert p in multiset(AllPaths(g, start, target));
    }
    if p in AllPaths(g, start, target) { ListedOnlyPaths(g, [start], target, p); }
  }

  lemma {:induction false} ListingsPositive(g: Graph, p: seq<Name>, k: nat)
    requires IsPath(g, p) && k < |p|
    ensures Listings(g, p, k) > 0
    decreases |p| - k
  {
    if k < |p| - 1 {
      assert IsEdge(g, p[k], p[k + 1]);
      ListingsPositive(g, p, k + 1);
      PositiveProduct(multiset(g[p[k]])[p[k + 1]], Listings(g, p, k + 1));
    }
  }

  lemma PositiveProduct(m: nat, n: nat)
    requires m > 0 && n > 0
    ensures m * n > 0 && (m * n == 1 <==> m == 1 && n == 1)
  {
    if m > 1 { assert m * n == n + (m - 1) * n && (m - 1) * n >= n by { assert (m - 1) * n == n + (m - 2) * n; } }
  }

  /** No step of p is listed twice among the targets of the context it leaves. */
  predicate EachStepOnce(g: Graph, p: seq<Name>, k: nat)
    requires IsPath(g, p)
  {
    forall i :: k <= i < |p| - 1 ==> IsEdge(g, p[i], p[i + 1]) && multiset(g[p[i]])[p[i + 1]] == 1
  }

  lemma {:induction false} ListedOnce(g: Graph, p: seq<Name>, k: nat)
    requires IsPath(g, p) && k < |p|
    ensures Listings(g, p, k) == 1 <==> EachStepOnce(g, p, k)
    decreases |p| - k
  {
    if k < |p| - 1 {
      assert IsEdge(g, p[k], p[k + 1]);
      ListedOnce(g, p, k + 1);
      ListingsPositive(g, p, k + 1);
      PositiveProduct(multiset(g[p[k]])[p[k + 1]], Listings(g, p, k + 1));
    }
  }

  // ---------- The order of the list ----------

  /** Where the two first differ, the first has the smaller name. */
  predicate ComesBefore(p: seq<Name>, q: seq<Name>) {
    exists k :: 0 <= k < |p| && k < |q| && p[..k] == q[..k] && p[k] != q[k] && AtMost(p[k], q[k])
  }

  predicate DistinctTargets(g: Graph) { forall a :: a in g ==> Distinct(g[a]) }

  lemma SortedNexts(targets: seq<Name>)
    requires Distinct(targets)
    ensures Sorted(Sort(targets)) && Distinct(Sort(targets))
  {
    SortIsSorted(targets);
    forall v ensures multiset(Sort(targets))[v] <= 1 {
      if v in targets { DistinctOnce(targets, v); } else { assert v !in multiset(targets); }
    }
    OnceIsDistinct(Sort(targets));
  }

  lemma {:induction false} PathsFromOrdered(g: Graph, path: seq<Name>, target: Name, i: nat, j: nat)
    requires Resolved(g) && DistinctTargets(g) && IsPath(g, path) && i < j < |PathsFrom(g, path, target)|
    ensures ComesBefore(PathsFrom(g, path, target)[i], PathsFrom(g, path, target)[j])
    decreases |g| - |path|, 2
  {
    hide ComesBefore, PathsVia, Sort;
    PathFits(g, path);
    NextTargets(g, path);
    var targets := g[path[|path| - 1]];
    SortedNexts(targets);
    PathsViaOrdered(g, path, target, Sort(targets), i, j);
  }

  lemma {:induction false} PathsViaOrdered(g: Graph, path: seq<Name>, target: Name, nexts: seq<Name>, i: nat, j: nat)
    requires Resolved(g) && DistinctTargets(g) && IsPath(g, path) && AreNexts(g, path, nexts)
    requires Sorted(nexts) && Distinct(nexts) && i < j < |PathsVia(g, path, target, nexts)|
    ensures ComesBefore(PathsVia(g, path, target, nexts)[i], PathsVia(g, path, target, nexts)[j])
    decreases |g| - |path|, 1, |nexts|
  {
    hide ComesBefore, IsPath, Resolved, DistinctTargets, PathsAfter;
    if nexts == [] {
      NoneYet(g, path, target);
    } else {
      var n := |nexts| - 1;
      assert nexts[..n + 1] == nexts;
      AfterNext(g, path, target, nexts, n);
      var before, last := PathsVia(g, path, target, nexts[..n]), PathsAfter(g, path, target, nexts[n]);
      if j < |before| {
        PathsViaOrdered(g, path, target, nexts[..n], i, j);
      } else if nexts[n] !in path {
        PathFits(g, path + [nexts[n]]);
        if i >= |before| {
          PathsFromOrdered(g, path + [nexts[n]], target, i - |before|, j - |before|);
        } else {
          assert before[i] in before && last[j - |before|] in last;
          var b := ListedVia(g, path, target, nexts[..n], before[i]);
          ListedOnlyPaths(g, path + [nexts[n]], target, last[j - |before|]);
          EarlierNext(nexts, b);
          BranchesInOrder(path, b, nexts[n], before[i], last[j - |before|]);
        }
      }
    }
  }

  lemma EarlierNext(nexts: seq<Name>, b: Name)
    requires nexts != [] && Sorted(nexts) && Distinct(nexts) && b in nexts[..|nexts| - 1]
    ensures b != nexts[|nexts| - 1] && AtMost(b, nexts[|nexts| - 1])
  {
  }

  lemma BranchesInOrder(path: seq<Name>, b: Name, c: Name, p: seq<Name>, q: seq<Name>)
    requires path + [b] <= p && path + [c] <= q && b != c && AtMost(b, c)
    ensures ComesBefore(p, q)
  {
    var k := |path|;
    assert p[..k] == path && q[..k] == path;
    assert p[k] == (path + [b])[k] && q[k] == (path + [c])[k];
  }

  /** With distinct targets the paths come in lexicographic order, so the two returned are the
      least two. */
  lemma AllPathsOrdered(g: Graph, start: Name, target: Name, i: nat, j: nat)
    requires Resolved(g) && DistinctTargets(g) && i < j < |AllPaths(g, start, target)|
    ensures ComesBefore(AllPaths(g, start, target)[i], AllPaths(g, start, target)[j])
  {
    StartPath(g, start);
    PathsFromOrdered(g, [start], target, i, j);
  }
}
