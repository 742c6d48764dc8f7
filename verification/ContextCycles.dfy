/**
 The two cycle detectors on context restrictions: the visiting/visited search of
 tools/archsig/src/compare.rs and the path-stack search of tools/archsig/src/archmap.rs.
 */
module ContextCycles {
  import opened Sequences
  import opened Names

  /** Each context with the contexts it restricts to. */
  type Graph = map<Name, seq<Name>>

  /** Every target is itself a context. */
  predicate Resolved(g: Graph) {
    forall a, b :: a in g && b in g[a] ==> b in g
  }

  predicate IsEdge(g: Graph, a: Name, b: Name) { a in g && b in g[a] }

  /** A nonempty list of contexts, each restricting to the next. */
  predicate IsWalk(g: Graph, w: seq<Name>) {
    w != [] && forall i :: 0 <= i < |w| - 1 ==> IsEdge(g, w[i], w[i + 1])
  }

  predicate IsWalkTo(g: Graph, w: seq<Name>, a: Name, b: Name) {
    IsWalk(g, w) && |w| >= 2 && w[0] == a && w[|w| - 1] == b
  }

  /** There is a walk of at least one step. */
  ghost predicate Reaches(g: Graph, a: Name, b: Name) { exists w :: IsWalkTo(g, w, a, b) }

  ghost predicate Cyclic(g: Graph) { exists a :: Reaches(g, a, a) }

  lemma OneStep(g: Graph, a: Name, b: Name)
    requires IsEdge(g, a, b)
    ensures Reaches(g, a, b)
  {
    assert IsWalkTo(g, [a, b], a, b);
  }

  lemma StepAfter(g: Graph, a: Name, b: Name, c: Name)
    requires Reaches(g, a, b) && IsEdge(g, b, c)
    ensures Reaches(g, a, c)
  {
    var w :| IsWalkTo(g, w, a, b);
    assert IsWalkTo(g, w + [c], a, c);
  }

  // ---------- The visiting/visited search ----------

  ghost predicate ClosedUnderEdges(g: Graph, s: set<Name>) {
    forall a, b :: a in s && IsEdge(g, a, b) ==> b in s
  }

  ghost predicate NoCycleIn(g: Graph, s: set<Name>) {
    forall a :: a in s ==> !Reaches(g, a, a)
  }

  lemma {:induction false} WalkStaysInside(g: Graph, s: set<Name>, w: seq<Name>, i: nat)
    requires ClosedUnderEdges(g, s) && IsWalk(g, w) && i < |w| && w[0] in s
    ensures w[i] in s
  {
    if i > 0 {
      WalkStaysInside(g, s, w, i - 1);
      assert IsEdge(g, w[i - 1], w[i]);
    }
  }

  /** A context all of whose targets are finished is on no cycle once it is itself new. */
  lemma FinishOne(g: Graph, s: set<Name>, a: Name)
    requires ClosedUnderEdges(g, s) && NoCycleIn(g, s) && a !in s
    requires forall b :: IsEdge(g, a, b) ==> b in s
    ensures ClosedUnderEdges(g, s + {a}) && NoCycleIn(g, s + {a})
  {
    if w :| IsWalkTo(g, w, a, a) {
      assert IsEdge(g, w[0], w[1]);
      assert IsWalk(g, w[1..]) by {
        forall i | 0 <= i < |w| - 2 ensures IsEdge(g, w[1..][i], w[1..][i + 1]) { assert IsEdge(g, w[i + 1], w[i + 2]); }
      }
      WalkStaysInside(g, s, w[1..], |w| - 2);
      assert false;
    }
  }

  lemma CycleContextInGraph(g: Graph, a: Name, b: Name)
    requires Reaches(g, a, b)
    ensures a in g
  {
    var w :| IsWalkTo(g, w, a, b);
    assert IsEdge(g, w[0], w[1]);
  }

  lemma AllFinished(g: Graph, s: set<Name>)
    requires NoCycleIn(g, s) && g.Keys <= s
    ensures !Cyclic(g)
  {
    if a :| Reaches(g, a, a) { CycleContextInGraph(g, a, a); }
  }

  class CycleSearch {
    const g: Graph
    var visiting: set<Name>
    var visited: set<Name>

    constructor (graph: Graph)
      ensures g == graph && visiting == {} && visited == {}
    {
      g := graph;
      visiting, visited := {}, {};
    }

    /** The contexts already left: nothing on a cycle, nothing leading out of them. */
    function Finished(): set<Name>
      reads this
    {
      visited - visiting
    }

    ghost predicate Valid()
      reads this
    {
      && Resolved(g) && visiting <= visited <= g.Keys
      && ClosedUnderEdges(g, Finished()) && NoCycleIn(g, Finished())
    }

    /** A true answer comes from a cycle; a false one finishes `current` and leaves the
        stack of visited contexts as it was. */
    method Visit(current: Name) returns (cycle: bool)
      requires Valid() && current in g
      requires forall v :: v in visiting ==> Reaches(g, v, current)
      modifies this
      ensures cycle ==> Cyclic(g)
      ensures !cycle ==> Valid() && visiting == old(visiting)
      ensures !cycle ==> current in Finished() && old(visited) <= visited && old(Finished()) <= Finished()
      decreases g.Keys - visited
    {
      if current in visiting { return true; }
      if current in visited { return false; }
      visited := visited + {current};
      visiting := visiting + {current};
      assert Finished() == old(Finished());
      var targets := g[current];
      cycle := false;
      for i := 0 to |targets|
        invariant Valid() && visiting == old(visiting) + {current}
        invariant old(visited) + {current} <= visited && old(Finished()) <= Finished()
        invariant forall j :: 0 <= j < i ==> targets[j] in Finished()
      {
        forall v | v in visiting ensures Reaches(g, v, targets[i]) {
          if v == current { OneStep(g, current, targets[i]); } else { StepAfter(g, v, current, targets[i]); }
        }
        cycle := Visit(targets[i]);
        if cycle { break; }
      }
      if !cycle { FinishOne(g, Finished(), current); }
      ghost var before := Finished();
      visiting := visiting - {current};
      assert !cycle ==> Finished() == before + {current};
    }
  }

  /** The search over all contexts answers exactly whether some cycle exists. */
  method HasContextCycle(g: Graph) returns (cycle: bool)
    requires Resolved(g)
    ensures cycle <==> Cyclic(g)
  {
    var search := new CycleSearch(g);
    var ids := Enumerate(g.Keys);
    for i := 0 to |ids|
      invariant search.g == g && search.Valid() && search.visiting == {}
      invariant forall j :: 0 <= j < i ==> ids[j] in search.visited
    {
      assert ids[i] in ids;
      cycle := search.Visit(ids[i]);
      if cycle { return; }
    }
    forall a | a in g ensures a in search.Finished() { assert a in ids; }
    AllFinished(g, search.Finished());
    return false;
  }

  // ---------- The path-stack search ----------

  /** A walk of at least one step from a to b whose contexts before the last avoid `path`. */
  predicate Avoids(g: Graph, w: seq<Name>, a: Name, b: Name, path: seq<Name>) {
    IsWalkTo(g, w, a, b) && forall i :: 0 <= i < |w| - 1 ==> w[i] !in path
  }

  ghost predicate ReachesAvoiding(g: Graph, a: Name, b: Name, path: seq<Name>) {
    exists w :: Avoids(g, w, a, b, path)
  }

  lemma Prepend(g: Graph, a: Name, t: Name, b: Name, path: seq<Name>)
    requires IsEdge(g, a, t) && a !in path && ReachesAvoiding(g, t, b, path + [a])
    ensures ReachesAvoiding(g, a, b, path)
  {
    var w :| Avoids(g, w, t, b, path + [a]);
    var u := [a] + w;
    forall i | 0 <= i < |u| - 1 ensures IsEdge(g, u[i], u[i + 1]) && u[i] !in path {
      if i > 0 {
        assert IsEdge(g, w[i - 1], w[i]);
        assert w[i - 1] !in path + [a];
      }
    }
    assert Avoids(g, u, a, b, path);
  }

  /** The walk after its last visit to where it starts. */
  lemma {:induction false} LastVisit(g: Graph, w: seq<Name>, a: Name, b: Name, path: seq<Name>) returns (u: seq<Name>)
    requires Avoids(g, w, a, b, path)
    ensures Avoids(g, u, a, b, path) && forall i :: 1 <= i < |u| - 1 ==> u[i] != a
    decreases |w|
  {
    if i :| 1 <= i < |w| - 1 && w[i] == a {
      var rest := w[i..];
      forall j | 0 <= j < |rest| - 1 ensures IsEdge(g, rest[j], rest[j + 1]) && rest[j] !in path {
        assert IsEdge(g, w[i + j], w[i + j + 1]) && w[i + j] !in path;
      }
      u := LastVisit(g, rest, a, b, path);
    } else {
      u := w;
    }
  }

  /** One unfolding of the search: the next target ends it, or continues on a longer path. */
  lemma FirstStep(g: Graph, a: Name, b: Name, path: seq<Name>) returns (t: Name)
    requires ReachesAvoiding(g, a, b, path)
    ensures a !in path && IsEdge(g, a, t) && (t == b || ReachesAvoiding(g, t, b, path + [a]))
  {
    var w :| Avoids(g, w, a, b, path);
    var u := LastVisit(g, w, a, b, path);
    t := u[1];
    assert IsEdge(g, u[0], u[1]) && u[0] !in path;
    if |u| > 2 {
      var rest := u[1..];
      forall j | 0 <= j < |rest| - 1 ensures IsEdge(g, rest[j], rest[j + 1]) && rest[j] !in path + [a] {
        assert IsEdge(g, u[j + 1], u[j + 2]) && u[j + 1] !in path;
      }
      assert Avoids(g, rest, t, b, path + [a]);
    }
  }

  class PathStack {
    const g: Graph
    var path: seq<Name>

    constructor (graph: Graph)
      ensures g == graph && path == []
    {
      g := graph;
      path := [];
    }

    /** Finds a walk back to `start` off the stack exactly when there is one, whether or
        not targets resolve, and leaves the stack as it was. */
    method RestrictionCycleReaches(start: Name, current: Name) returns (reaches: bool)
      modifies this
      ensures reaches <==> ReachesAvoiding(g, current, start, old(path))
      ensures path == old(path)
      decreases g.Keys - (set p | p in path)
    {
      ghost var before := path;
      if current in path {
        if ReachesAvoiding(g, current, start, before) { var t := FirstStep(g, current, start, before); }
        return false;
      }
      path := path + [current];
      reaches := false;
      if current in g {
        var targets := g[current];
        for i := 0 to |targets|
          invariant path == before + [current] && !reaches
          invariant forall j :: 0 <= j < i ==> targets[j] != start && !ReachesAvoiding(g, targets[j], start, before + [current])
        {
          assert IsEdge(g, current, targets[i]);
          if targets[i] == start {
            assert Avoids(g, [current, start], current, start, before);
            reaches := true;
          } else {
            assert current in g.Keys - (set p | p in before) && current !in g.Keys - (set p | p in path);
            assert g.Keys - (set p | p in path) < g.Keys - (set p | p in before);
            reaches := RestrictionCycleReaches(start, targets[i]);
            if reaches { Prepend(g, current, targets[i], start, before); }
          }
          if reaches { break; }
        }
      }
      if !reaches && ReachesAvoiding(g, current, start, before) {
        var t := FirstStep(g, current, start, before);
        assert false;
      }
      path := path[..|path| - 1];
      assert path == before;
    }
  }

  lemma NothingToAvoid(g: Graph, a: Name, b: Name)
    ensures ReachesAvoiding(g, a, b, []) <==> Reaches(g, a, b)
  {
    if w :| IsWalkTo(g, w, a, b) { assert Avoids(g, w, a, b, []); }
  }

  /** The contexts reported as breaking acyclicity are exactly those on a cycle. */
  method CyclicContexts(g: Graph) returns (reported: seq<Name>)
    ensures forall a :: a in reported <==> a in g && Reaches(g, a, a)
    ensures reported != [] <==> Cyclic(g)
  {
    var ids := Enumerate(g.Keys);
    reported := [];
    for i := 0 to |ids|
      invariant forall a :: a in reported <==> a in ids[..i] && Reaches(g, a, a)
    {
      var stack := new PathStack(g);
      NothingToAvoid(g, ids[i], ids[i]);
      var reaches := stack.RestrictionCycleReaches(ids[i], ids[i]);
      assert ids[..i + 1] == ids[..i] + [ids[i]];
      if reaches { reported := reported + [ids[i]]; }
    }
    assert ids[..|ids|] == ids;
    if reported != [] { assert reported[0] in reported; }
    if a :| Reaches(g, a, a) {
      CycleContextInGraph(g, a, a);
      assert a in reported;
    }
  }

  /** On resolved graphs both detectors give one answer. */
  method DetectorsAgree(g: Graph) returns (visiting: bool, stacked: bool)
    requires Resolved(g)
    ensures visiting == stacked
    ensures visiting <==> exists a :: a in g && ReachesAvoiding(g, a, a, [])
  {
    visiting := HasContextCycle(g);
    var reported := CyclicContexts(g);
    stacked := reported != [];
    if stacked {
      NothingToAvoid(g, reported[0], reported[0]);
      assert reported[0] in reported;
    }
    if a :| a in g && ReachesAvoiding(g, a, a, []) { NothingToAvoid(g, a, a); }
  }
}
