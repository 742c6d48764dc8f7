/**
 The refinement map of tools/archsig/src/compare.rs: when it is established, and why each
 of its rows then names the only coarse context and the only path.
 */
module Refinement {
  import opened Sequences
  import opened Options
  import opened Names
  import opened ContextCycles
  import opened ContextPaths

  // ---------- What two listed paths tell ----------

  lemma DistinctTargetsListOnce(g: Graph, p: seq<Name>)
    requires IsPath(g, p) && forall a :: a in g ==> Distinct(g[a])
    ensures Listings(g, p, 0) == 1
  {
    forall i | 0 <= i < |p| - 1 ensures IsEdge(g, p[i], p[i + 1]) && multiset(g[p[i]])[p[i + 1]] == 1 {
      assert IsEdge(g, p[i], p[i + 1]);
      DistinctOnce(g[p[i]], p[i + 1]);
      assert p[i + 1] in multiset(g[p[i]]);
    }
    ListedOnce(g, p, 0);
  }

  /** With distinct targets, fewer than two returned paths are all of them, and two are
      different paths. */
  lemma CappedSearchExact(g: Graph, start: Name, target: Name)
    requires Resolved(g) && forall a :: a in g ==> Distinct(g[a])
    ensures var r := Cap(AllPaths(g, start, target));
            && Distinct(r)
            && (forall p :: p in r ==> IsPathTo(g, p, start, target))
            && (|r| < 2 ==> forall p :: IsPathTo(g, p, start, target) ==> p in r)
  {
    var all := AllPaths(g, start, target);
    forall p ensures multiset(all)[p] <= 1 && (p in all <==> IsPathTo(g, p, start, target)) {
      AllPathsExact(g, start, target, p);
      if IsPathTo(g, p, start, target) { DistinctTargetsListOnce(g, p); } else { assert p !in multiset(all); }
    }
    OnceIsDistinct(all);
  }

  lemma {:induction false} OneValue<T>(s: seq<T>, x: T)
    requires forall y :: y in s ==> y == x
    ensures multiset(s)[x] == |s|
  {
    if s != [] {
      assert s == [s[0]] + s[1..] && s[0] in s;
      forall y | y in s[1..] ensures y == x { assert y in s; }
      OneValue(s[1..], x);
    }
  }

  /** p is the only path, and no step of it is listed twice. */
  ghost predicate IsOnlyPath(g: Graph, start: Name, target: Name, p: seq<Name>) {
    && IsPathTo(g, p, start, target) && EachStepOnce(g, p, 0)
    && forall q :: IsPathTo(g, q, start, target) ==> q == p
  }

  /** Exactly one path is returned iff there is exactly one and its steps are listed once. */
  lemma OnePathReturned(g: Graph, start: Name, target: Name, p: seq<Name>)
    requires Resolved(g)
    ensures Cap(AllPaths(g, start, target)) == [p] <==> IsOnlyPath(g, start, target, p)
  {
    var all := AllPaths(g, start, target);
    forall q ensures q in all <==> IsPathTo(g, q, start, target) { AllPathsExact(g, start, target, q); }
    AllPathsExact(g, start, target, p);
    if all == [p] {
      assert p in all && multiset([p])[p] == 1;
      ListedOnce(g, p, 0);
    }
    if IsOnlyPath(g, start, target, p) {
      ListedOnce(g, p, 0);
      OneValue(all, p);
      assert all[0] in all;
    }
  }

  lemma NonePathReturned(g: Graph, start: Name, target: Name)
    requires Resolved(g)
    ensures Cap(AllPaths(g, start, target)) == [] <==> forall p :: !IsPathTo(g, p, start, target)
  {
    var all := AllPaths(g, start, target);
    forall q ensures q in all <==> IsPathTo(g, q, start, target) { AllPathsExact(g, start, target, q); }
    if all != [] { assert all[0] in all; }
  }

  lemma StepLeavesTargets(g: Graph, p: seq<Name>, i: nat)
    requires IsPath(g, p) && i < |p| - 1
    ensures p[i] in g && p[i + 1] in g[p[i]]
  {
    assert IsEdge(g, p[i], p[i + 1]);
  }

  lemma PathsOfRepeatedTarget(g: Graph, p: seq<Name>)
    requires g == map["a" := ["b", "b"], "b" := []]
    ensures IsPathTo(g, p, "a", "b") <==> p == ["a", "b"]
  {
    if IsPathTo(g, p, "a", "b") {
      StepLeavesTargets(g, p, 0);
      if |p| > 2 { StepLeavesTargets(g, p, 1); }
    } else if p == ["a", "b"] {
      assert IsEdge(g, p[0], p[1]);
    }
  }

  lemma ListingsOfRepeatedTarget(g: Graph, p: seq<Name>)
    requires g == map["a" := ["b", "b"], "b" := []] && p == ["a", "b"] && IsPath(g, p)
    ensures Listings(g, p, 0) == 2
  {
    assert IsEdge(g, p[0], p[1]);
    assert Listings(g, p, 1) == 1;
    assert multiset(g["a"])["b"] == 2;
  }

  lemma OnlyPathListedTwice(g: Graph, start: Name, target: Name, p: seq<Name>)
    requires Resolved(g) && (forall q :: IsPathTo(g, q, start, target) <==> q == p) && IsPath(g, p) && Listings(g, p, 0) == 2
    ensures Cap(AllPaths(g, start, target)) == [p, p]
  {
    var all := AllPaths(g, start, target);
    forall q | q in all ensures q == p { AllPathsExact(g, start, target, q); }
    AllPathsExact(g, start, target, p);
    OneValue(all, p);
    assert all == [all[0], all[1]];
  }

  // ---------- Candidates ----------

  datatype Candidate = Candidate(context: Name, paths: seq<seq<Name>>)

  function Candidates(g: Graph, coarse: seq<Name>, fine: Name): seq<Candidate>
    requires Resolved(g)
  {
    if coarse == [] then [] else
      var n := |coarse| - 1;
      var paths := Cap(AllPaths(g, fine, coarse[n]));
      Candidates(g, coarse[..n], fine) + if paths == [] then [] else [Candidate(coarse[n], paths)]
  }

  method FindCandidates(g: Graph, coarse: seq<Name>, fine: Name) returns (r: seq<Candidate>)
    requires Resolved(g)
    ensures r == Candidates(g, coarse, fine)
  {
    r := [];
    for i := 0 to |coarse|
      invariant r == Candidates(g, coarse[..i], fine)
    {
      assert coarse[..i + 1][..i] == coarse[..i];
      var paths := ContextPaths.ContextPaths(g, fine, coarse[i]);
      if paths != [] { r := r + [Candidate(coarse[i], paths)]; }
    }
    assert coarse[..|coarse|] == coarse;
  }

  predicate DistinctContexts(r: seq<Candidate>) {
    forall i, j :: 0 <= i < j < |r| ==> r[i].context != r[j].context
  }

  lemma {:induction false} CandidatesAre(g: Graph, coarse: seq<Name>, fine: Name)
    requires Resolved(g) && Distinct(coarse)
    ensures forall x :: x in Candidates(g, coarse, fine) <==>
      x.context in coarse && x.paths == Cap(AllPaths(g, fine, x.context)) && x.paths != []
    ensures DistinctContexts(Candidates(g, coarse, fine))
  {
    hide Cap, AllPaths, Resolved;
    if coarse != [] {
      var n := |coarse| - 1;
      CandidatesAre(g, coarse[..n], fine);
      var before, r := Candidates(g, coarse[..n], fine), Candidates(g, coarse, fine);
      assert coarse == coarse[..n] + [coarse[n]];
      forall i, j | 0 <= i < j < |r| ensures r[i].context != r[j].context {
        if j == |before| {
          assert before[i] in before;
          var k :| 0 <= k < n && coarse[..n][k] == before[i].context;
          assert coarse[k] != coarse[n];
          assert r[j] == Candidate(coarse[n], Cap(AllPaths(g, fine, coarse[n]))) && r[i] == before[i];
        } else {
          assert r[i] == before[i] && r[j] == before[j];
          assert before[i].context != before[j].context;
        }
      }
    }
  }

  ghost predicate ReachedFrom(g: Graph, fine: Name, coarse: Name) { exists p :: IsPathTo(g, p, fine, coarse) }

  /** The row's coarse context and path are the only ones the search could have found. */
  ghost predicate NamesOnlyPath(g: Graph, coarse: set<Name>, fine: Name, context: Name, p: seq<Name>) {
    && context in coarse && IsOnlyPath(g, fine, context, p)
    && forall d :: d in coarse && ReachedFrom(g, fine, d) ==> d == context
  }

  lemma CandidateIffReached(g: Graph, coarse: seq<Name>, fine: Name)
    requires Resolved(g) && Distinct(coarse)
    ensures forall x :: x in Candidates(g, coarse, fine) ==> x.context in coarse && ReachedFrom(g, fine, x.context)
    ensures forall d :: d in coarse && ReachedFrom(g, fine, d) ==>
      Candidate(d, Cap(AllPaths(g, fine, d))) in Candidates(g, coarse, fine)
  {
    CandidatesAre(g, coarse, fine);
    hide Candidates, Cap, AllPaths, Resolved;
    forall x | x in Candidates(g, coarse, fine) ensures x.context in coarse && ReachedFrom(g, fine, x.context) {
      NonePathReturned(g, fine, x.context);
    }
    forall d | d in coarse && ReachedFrom(g, fine, d)
      ensures Candidate(d, Cap(AllPaths(g, fine, d))) in Candidates(g, coarse, fine)
    {
      NonePathReturned(g, fine, d);
    }
  }

  // ---------- The refinement map ----------

  datatype Row = Row(fine: Name, coarse: Name, path: seq<Name>)

  datatype Reason = CoarseCoverEmpty | FineCoverEmpty | NotContained | AmbiguousPaths | AmbiguousContainment

  datatype RowResult = Found(row: Row) | Failed(reason: Reason)

  datatype RefinementResult = Established(rows: seq<Row>) | NotComputed(reason: Reason)

  /** What a row of an established refinement says. */
  ghost predicate IsRow(g: Graph, coarse: set<Name>, row: Row) {
    if row.fine in coarse then row.coarse == row.fine && row.path == [row.fine]
    else NamesOnlyPath(g, coarse, row.fine, row.coarse, row.path)
  }

  ghost predicate HasRow(g: Graph, coarse: set<Name>, fine: Name) {
    exists row: Row :: row.fine == fine && IsRow(g, coarse, row)
  }

  /** The row of a fine context is determined, so an established map is the only one. */
  lemma RowIsUnique(g: Graph, coarse: set<Name>, r: Row, s: Row)
    requires IsRow(g, coarse, r) && IsRow(g, coarse, s) && r.fine == s.fine
    ensures r == s
  {
    if r.fine !in coarse { assert ReachedFrom(g, r.fine, r.coarse); }
  }

  ghost predicate OnlyReached(g: Graph, coarse: set<Name>, fine: Name, d: Name) {
    d in coarse && ReachedFrom(g, fine, d) && forall e :: e in coarse && ReachedFrom(g, fine, e) ==> e == d
  }

  ghost predicate FailsWith(g: Graph, coarse: set<Name>, fine: Name, reason: Reason) {
    && fine !in coarse
    && match reason
       case NotContained => forall d :: d in coarse ==> !ReachedFrom(g, fine, d)
       case AmbiguousContainment => exists d, e :: d in coarse && e in coarse && d != e && ReachedFrom(g, fine, d) && ReachedFrom(g, fine, e)
       case AmbiguousPaths => exists d :: OnlyReached(g, coarse, fine, d) && forall p :: !IsOnlyPath(g, fine, d, p)
       case _ => false
  }

  lemma OneCandidate(g: Graph, coarse: seq<Name>, fine: Name)
    requires Resolved(g) && Distinct(coarse) && |Candidates(g, coarse, fine)| == 1
    ensures var x := Candidates(g, coarse, fine)[0];
            && x.context in coarse && ReachedFrom(g, fine, x.context) && x.paths == Cap(AllPaths(g, fine, x.context))
            && forall d :: d in coarse && ReachedFrom(g, fine, d) ==> d == x.context
  {
    CandidateIffReached(g, coarse, fine);
    CandidatesAre(g, coarse, fine);
    assert Candidates(g, coarse, fine)[0] in Candidates(g, coarse, fine);
  }

  lemma TwoCandidates(g: Graph, coarse: seq<Name>, fine: Name)
    requires Resolved(g) && Distinct(coarse) && |Candidates(g, coarse, fine)| >= 2
    ensures exists d, e :: d in coarse && e in coarse && d != e && ReachedFrom(g, fine, d) && ReachedFrom(g, fine, e)
  {
    var r := Candidates(g, coarse, fine);
    CandidateIffReached(g, coarse, fine);
    CandidatesAre(g, coarse, fine);
    assert r[0] in r && r[1] in r;
    assert r[0].context != r[1].context;
  }

  /** The row or the exact reason there is none. */
  method FindRow(g: Graph, coarse: set<Name>, order: seq<Name>, fine: Name) returns (r: RowResult)
    requires Resolved(g) && Distinct(order) && forall d :: d in order <==> d in coarse
    ensures r.Found? ==> r.row.fine == fine && IsRow(g, coarse, r.row)
    ensures r.Failed? ==> FailsWith(g, coarse, fine, r.reason)
  {
    hide Resolved, Candidates, Cap, AllPaths, IsOnlyPath, ReachedFrom;
    if fine in coarse { return Found(Row(fine, fine, [fine])); }
    var candidates := FindCandidates(g, order, fine);
    CandidateIffReached(g, order, fine);
    if |candidates| == 0 { return Failed(NotContained); }
    if |candidates| > 1 {
      TwoCandidates(g, order, fine);
      return Failed(AmbiguousContainment);
    }
    OneCandidate(g, order, fine);
    var candidate := candidates[0];
    forall p ensures candidate.paths == [p] <==> IsOnlyPath(g, fine, candidate.context, p) {
      OnePathReturned(g, fine, candidate.context, p);
    }
    if |candidate.paths| == 1 {
      assert candidate.paths == [candidate.paths[0]];
      return Found(Row(fine, candidate.context, candidate.paths[0]));
    }
    assert OnlyReached(g, coarse, fine, candidate.context);
    return Failed(AmbiguousPaths);
  }

  lemma FailureHasNoRow(g: Graph, coarse: set<Name>, fine: Name, reason: Reason)
    requires FailsWith(g, coarse, fine, reason)
    ensures !HasRow(g, coarse, fine)
  {
    if row: Row :| row.fine == fine && IsRow(g, coarse, row) { assert ReachedFrom(g, fine, row.coarse); }
  }

  /** Established exactly when both covers are nonempty and every fine context has a row;
      the rows are then one per fine context, in order. Otherwise the reason is that of the
      first fine context, in order, without a row. */
  method DeriveRefinement(g: Graph, coarse: set<Name>, fine: set<Name>) returns (r: RefinementResult, order: seq<Name>)
    requires Resolved(g)
    ensures Sorted(order) && Distinct(order) && forall f :: f in order <==> f in fine
    ensures r.Established? <==> coarse != {} && fine != {} && forall f :: f in fine ==> HasRow(g, coarse, f)
    ensures r.Established? ==> |r.rows| == |order| && forall i :: 0 <= i < |order| ==> r.rows[i].fine == order[i] && IsRow(g, coarse, r.rows[i])
    ensures r.NotComputed? ==>
      || (r.reason == CoarseCoverEmpty && coarse == {})
      || (r.reason == FineCoverEmpty && coarse != {} && fine == {})
      || exists i :: 0 <= i < |order| && FailsWith(g, coarse, order[i], r.reason) && forall j :: 0 <= j < i ==> HasRow(g, coarse, order[j])
  {
    hide IsRow, FailsWith, Resolved;
    order := SortedElements(fine);
    if coarse == {} { return NotComputed(CoarseCoverEmpty), order; }
    if fine == {} { return NotComputed(FineCoverEmpty), order; }
    var coarseOrder := SortedElements(coarse);
    var rows: seq<Row> := [];
    for i := 0 to |order|
      invariant |rows| == i
      invariant forall j :: 0 <= j < i ==> rows[j].fine == order[j] && IsRow(g, coarse, rows[j])
    {
      var row := FindRow(g, coarse, coarseOrder, order[i]);
      if row.Failed? {
        FailureHasNoRow(g, coarse, order[i], row.reason);
        forall j | 0 <= j < i ensures HasRow(g, coarse, order[j]) { assert IsRow(g, coarse, rows[j]); }
        assert order[i] in order;
        return NotComputed(row.reason), order;
      }
      rows := rows + [row.row];
    }
    forall f | f in fine ensures HasRow(g, coarse, f) {
      assert f in order;
      var j :| 0 <= j < |order| && order[j] == f;
      assert IsRow(g, coarse, rows[j]);
    }
    return Established(rows), order;
  }

  // ---------- The validated map ----------

  /** A normalized context; its id is absent when missing or blank. */
  datatype Entry = Entry(id: Option<Name>, targets: seq<Name>)

  datatype Checked = Valid(graph: Graph) | IdMissing | IdDuplicated | TargetUnresolved | RestrictionCycle

  predicate AllNamed(entries: seq<Entry>) { forall i :: 0 <= i < |entries| ==> entries[i].id.Some? }

  predicate IdsDistinct(entries: seq<Entry>) { forall i, j :: 0 <= i < j < |entries| ==> entries[i].id != entries[j].id }

  function GraphOf(entries: seq<Entry>): Graph
    requires AllNamed(entries)
  {
    if entries == [] then map[] else
      var last := entries[|entries| - 1];
      GraphOf(entries[..|entries| - 1])[last.id.value := last.targets]
  }

  lemma {:induction false} GraphKeys(entries: seq<Entry>, id: Name)
    requires AllNamed(entries)
    ensures id in GraphOf(entries) <==> exists i :: 0 <= i < |entries| && entries[i].id == Some(id)
  {
    if entries != [] {
      var n := |entries| - 1;
      GraphKeys(entries[..n], id);
      if id in GraphOf(entries[..n]) {
        var i :| 0 <= i < n && entries[..n][i].id == Some(id);
        assert entries[i].id == Some(id);
      }
      if i :| 0 <= i < |entries| && entries[i].id == Some(id) { assert i < n ==> entries[..n][i].id == Some(id); }
    }
  }

  /** The graph of a list that names each context once. */
  lemma {:induction false} GraphAt(entries: seq<Entry>, i: nat)
    requires AllNamed(entries) && IdsDistinct(entries) && i < |entries|
    ensures entries[i].id.value in GraphOf(entries) && GraphOf(entries)[entries[i].id.value] == entries[i].targets
  {
    var n := |entries| - 1;
    if i < n {
      assert entries[i].id != entries[n].id;
      GraphAt(entries[..n], i);
    }
  }

  /** Every target is the id of some entry. */
  predicate TargetsNamed(entries: seq<Entry>) {
    forall i, t :: 0 <= i < |entries| && t in entries[i].targets ==> exists k :: 0 <= k < |entries| && entries[k].id == Some(t)
  }

  lemma ResolvedMeans(entries: seq<Entry>)
    requires AllNamed(entries) && IdsDistinct(entries)
    ensures Resolved(GraphOf(entries)) <==> TargetsNamed(entries)
  {
    var g := GraphOf(entries);
    forall id ensures id in g <==> exists k :: 0 <= k < |entries| && entries[k].id == Some(id) { GraphKeys(entries, id); }
    forall i: nat | i < |entries| ensures entries[i].id.value in g && g[entries[i].id.value] == entries[i].targets { GraphAt(entries, i); }
    hide GraphOf;
    if TargetsNamed(entries) {
      forall a, t | a in g && t in g[a] ensures t in g {
        var i :| 0 <= i < |entries| && entries[i].id == Some(a);
        assert t in entries[i].targets;
      }
    }
  }

  /** The entries before i are named, once each. */
  predicate FirstNamed(entries: seq<Entry>, i: nat) {
    i <= |entries| && AllNamed(entries[..i]) && IdsDistinct(entries[..i])
  }

  predicate RepeatsId(entries: seq<Entry>, i: nat) {
    i < |entries| && entries[i].id.Some? && exists k :: 0 <= k < i && entries[k].id == entries[i].id
  }

  /** Accepted exactly when the contexts are named once each, their targets resolve, and no
      cycle exists; otherwise the error is that of the first bad entry, or unresolved targets
      before cycles. */
  method ValidatedContextMap(entries: seq<Entry>) returns (r: Checked)
    ensures r.Valid? <==> AllNamed(entries) && IdsDistinct(entries) && TargetsNamed(entries) && !Cyclic(GraphOf(entries))
    ensures r.Valid? ==> r.graph == GraphOf(entries) && Resolved(r.graph) && |r.graph| == |entries|
    ensures r.Valid? ==> forall i :: 0 <= i < |entries| ==> entries[i].id.value in r.graph && r.graph[entries[i].id.value] == entries[i].targets
    ensures r.IdMissing? ==> exists i :: 0 <= i < |entries| && entries[i].id.None? && FirstNamed(entries, i)
    ensures r.IdDuplicated? ==> exists i :: 0 <= i < |entries| && RepeatsId(entries, i) && FirstNamed(entries, i)
    ensures r.TargetUnresolved? ==> AllNamed(entries) && IdsDistinct(entries) && !TargetsNamed(entries)
    ensures r.RestrictionCycle? ==>
      AllNamed(entries) && IdsDistinct(entries) && TargetsNamed(entries) && Cyclic(GraphOf(entries))
  {
    var graph: Graph := map[];
    for i := 0 to |entries|
      invariant AllNamed(entries[..i]) && IdsDistinct(entries[..i]) && graph == GraphOf(entries[..i]) && |graph| == i
    {
      if entries[i].id.None? {
        assert FirstNamed(entries, i);
        return IdMissing;
      }
      assert entries[..i + 1][..i] == entries[..i];
      GraphKeys(entries[..i], entries[i].id.value);
      if entries[i].id.value in graph {
        var k :| 0 <= k < i && entries[..i][k].id == entries[i].id;
        assert entries[k].id == entries[i].id;
        assert RepeatsId(entries, i) && FirstNamed(entries, i);
        return IdDuplicated;
      }
      forall k | 0 <= k < i ensures entries[k].id != entries[i].id { assert entries[..i][k].id != Some(entries[i].id.value); }
      graph := graph[entries[i].id.value := entries[i].targets];
    }
    assert entries[..|entries|] == entries;
    ResolvedMeans(entries);
    forall i: nat | i < |entries| ensures entries[i].id.value in graph && graph[entries[i].id.value] == entries[i].targets { GraphAt(entries, i); }
    if !Resolved(graph) { return TargetUnresolved; }
    var cycle := HasContextCycle(graph);
    if cycle { return RestrictionCycle; }
    return Valid(graph);
  }

  /** On a validated map every restriction walk is a simple path, so the only path of a row
      is the only walk there is. */
  lemma AcyclicWalksArePaths(g: Graph, w: seq<Name>)
    requires Resolved(g) && !Cyclic(g) && IsWalk(g, w) && w[0] in g
    ensures IsPath(g, w)
  {
    forall i | 0 <= i < |w| ensures w[i] in g {
      if i > 0 { assert IsEdge(g, w[i - 1], w[i]); }
    }
    forall i, j | 0 <= i < j < |w| ensures w[i] != w[j] {
      if w[i] == w[j] {
        var loop := w[i..j + 1];
        forall k | 0 <= k < |loop| - 1 ensures IsEdge(g, loop[k], loop[k + 1]) { assert IsEdge(g, w[i + k], w[i + k + 1]); }
        assert IsWalkTo(g, loop, w[i], w[i]);
        assert Reaches(g, w[i], w[i]);
      }
    }
  }

  /** The coarse context of a row is the only one any restriction walk reaches, and its path
      is the only walk. */
  lemma RowIsOnlyWalk(g: Graph, coarse: set<Name>, row: Row, w: seq<Name>)
    requires Resolved(g) && !Cyclic(g) && IsRow(g, coarse, row) && row.fine !in coarse && row.fine in g
    requires IsWalk(g, w) && w[0] == row.fine && w[|w| - 1] in coarse
    ensures w == row.path && w[|w| - 1] == row.coarse
  {
    AcyclicWalksArePaths(g, w);
    assert IsPathTo(g, w, row.fine, w[|w| - 1]);
    assert ReachedFrom(g, row.fine, w[|w| - 1]);
  }

  // ---------- A repeated target ----------

  /** The entries of a map in which the only path has a repeated step. */
  const REPEATED_TARGET: seq<Entry> := [Entry(Some("a"), ["b", "b"]), Entry(Some("b"), [])]

  lemma RepeatedGraph()
    ensures AllNamed(REPEATED_TARGET) && IdsDistinct(REPEATED_TARGET)
    ensures GraphOf(REPEATED_TARGET) == map["a" := ["b", "b"], "b" := []]
  {
    assert REPEATED_TARGET[..1] == [Entry(Some("a"), ["b", "b"])];
    assert GraphOf(REPEATED_TARGET[..1]) == map["a" := ["b", "b"]];
  }

  lemma RepeatedIsAcyclic(g: Graph)
    requires g == map["a" := ["b", "b"], "b" := []]
    ensures Resolved(g) && !Cyclic(g)
  {
    if x, w :| IsWalkTo(g, w, x, x) {
      assert IsEdge(g, w[0], w[1]);
      assert w[0] == "a" && w[1] == "b";
      if |w| > 2 { WalkStep(g, w, 1); }
    }
  }

  lemma WalkStep(g: Graph, w: seq<Name>, i: nat)
    requires IsWalk(g, w) && i < |w| - 1
    ensures w[i] in g && w[i + 1] in g[w[i]]
  {
    assert IsEdge(g, w[i], w[i + 1]);
  }

  /** Why the steps must be listed once: the validation accepts a repeated target, the only
      path is then returned twice, and the refinement is refused as ambiguous. */
  lemma RepeatedTargetLooksAmbiguous()
    ensures var g: Graph := map["a" := ["b", "b"], "b" := []];
            && AllNamed(REPEATED_TARGET) && IdsDistinct(REPEATED_TARGET) && GraphOf(REPEATED_TARGET) == g
            && Resolved(g) && !Cyclic(g)
            && (forall p :: IsPathTo(g, p, "a", "b") <==> p == ["a", "b"])
            && Cap(AllPaths(g, "a", "b")) == [["a", "b"], ["a", "b"]]
            && FailsWith(g, {"b"}, "a", AmbiguousPaths)
  {
    var g: Graph := map["a" := ["b", "b"], "b" := []];
    var p := ["a", "b"];
    forall q ensures IsPathTo(g, q, "a", "b") <==> q == p { PathsOfRepeatedTarget(g, q); }
    assert IsPath(g, p) by { assert IsPathTo(g, p, "a", "b"); }
    ListingsOfRepeatedTarget(g, p);
    RepeatedGraph();
    RepeatedIsAcyclic(g);
    OnlyPathListedTwice(g, "a", "b", p);
    forall q ensures !IsOnlyPath(g, "a", "b", q) { OnePathReturned(g, "a", "b", q); }
    assert ReachedFrom(g, "a", "b") by { assert IsPathTo(g, p, "a", "b"); }
    assert OnlyReached(g, {"b"}, "a", "b");
  }
}
