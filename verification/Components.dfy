/**
 Component search of tools/archsig/src/saga.rs: a worklist over the neighbour table
 that partitions the charts by overlap walks.
 */
module Components {
  import opened Sequences
  import opened Names
  import opened Options
  import opened SagaComplex
  import opened BoundaryMembership

  /** Charts joined by overlap walks, and the ids of the overlaps among them. The program
      lists both in string order; nothing here depends on the order. */
  datatype Component = Component(charts: set<Name>, overlapRefs: set<Name>)

  // ---------- What a component is ----------

  function ChartSet(c: Complex): set<Name> { set a | a in c.charts }

  /** No overlap leaves s. */
  predicate Closed(c: Complex, s: set<Name>) {
    forall e :: e in c.overlaps ==> (e.left in s <==> e.right in s)
  }

  lemma {:induction false} ClosedUnderWalk(c: Complex, s: set<Name>, a: Name, b: Name, w: seq<Step>)
    requires Closed(c, s) && IsWalk(c, a, b, w)
    ensures a in s <==> b in s
    decreases w
  {
    if w != [] {
      assert c.overlaps[w[0].overlap] in c.overlaps;
      ClosedUnderWalk(c, s, To(c, w[0]), b, w[1..]);
    }
  }

  /** A nonempty set of charts holding, with each chart, exactly those a walk joins to it. */
  ghost predicate IsClass(c: Complex, s: set<Name>) {
    && s != {} && s <= ChartSet(c)
    && forall a, b :: a in s && b in c.charts ==> (b in s <==> Connected(c, a, b))
  }

  predicate IsInner(e: Overlap, charts: set<Name>) { e.left in charts && e.right in charts }

  function InnerIds(c: Complex, charts: set<Name>): set<Name> {
    set e | e in c.overlaps && IsInner(e, charts) :: e.id
  }

  ghost predicate IsComponent(c: Complex, k: Component) {
    IsClass(c, k.charts) && k.overlapRefs == InnerIds(c, k.charts)
  }

  ghost predicate Pairwise(components: seq<Component>) {
    forall k, l :: 0 <= k < l < |components| ==> components[k].charts !! components[l].charts
  }

  ghost predicate Covers(components: seq<Component>, charts: set<Name>) {
    forall a :: a in charts ==> exists k :: 0 <= k < |components| && a in components[k].charts
  }

  /** The components are disjoint classes covering every chart. */
  ghost predicate IsPartition(c: Complex, components: seq<Component>) {
    && (forall k :: 0 <= k < |components| ==> IsComponent(c, components[k]))
    && Pairwise(components)
    && Covers(components, ChartSet(c))
  }

  predicate SearchableComplex(c: Complex) {
    Distinct(c.charts) && Distinct(Ids(c.overlaps)) && EndpointsDeclared(c)
  }

  // ---------- The search ----------

  function Neighbors(overlaps: seq<Overlap>, a: Name): set<Name> {
    if overlaps == [] then {} else
      var e := overlaps[|overlaps| - 1];
      Neighbors(overlaps[..|overlaps| - 1], a)
      + (if e.left == a then {e.right} else {}) + (if e.right == a then {e.left} else {})
  }

  lemma {:induction false} NeighborIsAcross(overlaps: seq<Overlap>, a: Name, b: Name)
    ensures b in Neighbors(overlaps, a) <==>
      exists i :: 0 <= i < |overlaps| && ((overlaps[i].left == a && overlaps[i].right == b)
                                          || (overlaps[i].right == a && overlaps[i].left == b))
  {
    if overlaps != [] {
      var m := |overlaps| - 1;
      NeighborIsAcross(overlaps[..m], a, b);
      assert forall i :: 0 <= i < m ==> overlaps[..m][i] == overlaps[i];
    }
  }

  lemma NeighborConnects(c: Complex, a: Name, b: Name)
    requires b in Neighbors(c.overlaps, a)
    ensures Connected(c, a, b)
  {
    NeighborIsAcross(c.overlaps, a, b);
    var i :| 0 <= i < |c.overlaps| && ((c.overlaps[i].left == a && c.overlaps[i].right == b)
                                       || (c.overlaps[i].right == a && c.overlaps[i].left == b));
    OverlapConnects(c, i);
    ConnectedSymmetric(c, c.overlaps[i].left, c.overlaps[i].right);
  }

  /** The first i overlaps pass the checks of the loop that fills the neighbour table. */
  predicate Accepted(c: Complex, i: nat)
    requires i <= |c.overlaps|
  {
    && Distinct(Ids(c.overlaps)[..i])
    && (forall j :: 0 <= j < i ==> EndpointsIn(c.overlaps[j], c.charts))
  }

  lemma AcceptedNext(c: Complex, i: nat)
    requires i < |c.overlaps|
    ensures Accepted(c, i + 1) <==>
      Accepted(c, i) && c.overlaps[i].id !in Ids(c.overlaps)[..i] && EndpointsIn(c.overlaps[i], c.charts)
  {
    var before := Ids(c.overlaps)[..i];
    assert Ids(c.overlaps)[..i + 1] == before + [c.overlaps[i].id];
    if Accepted(c, i + 1) {
      forall j, k | 0 <= j < k < i ensures before[j] != before[k] {
        assert Ids(c.overlaps)[..i + 1][j] != Ids(c.overlaps)[..i + 1][k];
      }
    }
  }

  lemma SearchableIsAccepted(c: Complex, i: nat)
    requires i <= |c.overlaps|
    ensures SearchableComplex(c) ==> Accepted(c, i)
    ensures i == |c.overlaps| && Distinct(c.charts) && Accepted(c, i) ==> SearchableComplex(c)
  {
    if SearchableComplex(c) {
      forall j | 0 <= j < i ensures EndpointsIn(c.overlaps[j], c.charts) {
        assert c.overlaps[j] in c.overlaps;
      }
    }
    assert Ids(c.overlaps)[..|c.overlaps|] == Ids(c.overlaps);
  }

  /** The neighbour table, or None where the program rejects the complex. */
  method BuildNeighbors(c: Complex) returns (r: Option<map<Name, set<Name>>>)
    ensures r.Some? <==> SearchableComplex(c)
    ensures r.Some? ==> r.value.Keys == ChartSet(c)
    ensures r.Some? ==> forall a :: a in c.charts ==> r.value[a] == Neighbors(c.overlaps, a)
  {
    if !Distinct(c.charts) { return None; }
    var neighbors: map<Name, set<Name>> := map a | a in c.charts :: {};
    var ids: set<Name> := {};
    for i := 0 to |c.overlaps|
      invariant forall x :: x in ids <==> x in Ids(c.overlaps)[..i]
      invariant Accepted(c, i)
      invariant neighbors.Keys == ChartSet(c)
      invariant forall a :: a in ChartSet(c) ==> neighbors[a] == Neighbors(c.overlaps[..i], a)
    {
      var e := c.overlaps[i];
      AcceptedNext(c, i);
      SearchableIsAccepted(c, i + 1);
      if e.id in ids || !EndpointsIn(e, c.charts) { return None; }
      ids := ids + {e.id};
      neighbors := AddNeighbors(neighbors, c, i);
      assert Ids(c.overlaps)[..i + 1] == Ids(c.overlaps)[..i] + [e.id];
    }
    SearchableIsAccepted(c, |c.overlaps|);
    assert c.overlaps[..|c.overlaps|] == c.overlaps;
    return Some(neighbors);
  }

  method AddNeighbors(neighbors: map<Name, set<Name>>, c: Complex, i: nat) returns (r: map<Name, set<Name>>)
    requires i < |c.overlaps| && EndpointsIn(c.overlaps[i], c.charts)
    requires neighbors.Keys == ChartSet(c)
    requires forall a :: a in ChartSet(c) ==> neighbors[a] == Neighbors(c.overlaps[..i], a)
    ensures r.Keys == ChartSet(c)
    ensures forall a :: a in ChartSet(c) ==> r[a] == Neighbors(c.overlaps[..i + 1], a)
  {
    var e := c.overlaps[i];
    assert c.overlaps[..i + 1][..i] == c.overlaps[..i];
    r := neighbors[e.left := neighbors[e.left] + {e.right}];
    r := r[e.right := r[e.right] + {e.left}];
  }

  /** What the growing component and the pending stack keep. */
  ghost predicate Growing(c: Complex, start: Name, unvisited0: set<Name>, grown: set<Name>, pending: set<Name>) {
    && grown <= unvisited0 && pending <= unvisited0
    && (forall a :: a in grown + pending ==> Connected(c, start, a))
    && (forall e :: e in c.overlaps && (e.left in grown || e.right in grown) ==> IsInner(e, grown + pending))
  }

  /** Popping `chart` and stacking its unvisited neighbours. */
  lemma GrowByOne(c: Complex, start: Name, unvisited0: set<Name>, grown: set<Name>, pending: set<Name>,
                  chart: Name, pending': set<Name>)
    requires Growing(c, start, unvisited0, grown, pending) && Closed(c, unvisited0)
    requires chart in pending && pending - {chart} <= pending'
    requires pending' <= pending + (Neighbors(c.overlaps, chart) * (unvisited0 - grown))
    requires Neighbors(c.overlaps, chart) * (unvisited0 - grown - {chart}) <= pending'
    ensures Growing(c, start, unvisited0, grown + {chart}, pending')
  {
    forall a | a in Neighbors(c.overlaps, chart) ensures Connected(c, start, a) {
      NeighborConnects(c, chart, a);
      ConnectedTransitive(c, start, chart, a);
    }
    forall e | e in c.overlaps && (e.left in grown + {chart} || e.right in grown + {chart})
      ensures IsInner(e, grown + {chart} + pending')
    {
      if e.left == chart { NeighborIsAcross(c.overlaps, chart, e.right); }
      if e.right == chart { NeighborIsAcross(c.overlaps, chart, e.left); }
    }
  }

  lemma GrowingStarts(c: Complex, start: Name, unvisited0: set<Name>)
    requires start in unvisited0
    ensures Growing(c, start, unvisited0, {}, {start})
  {
    assert IsWalk(c, start, start, []);
  }

  lemma GrowingEnds(c: Complex, start: Name, unvisited0: set<Name>, grown: set<Name>)
    requires Growing(c, start, unvisited0, grown, {}) && Closed(c, unvisited0)
    ensures grown <= unvisited0 && Closed(c, grown) && Closed(c, unvisited0 - grown)
    ensures forall a :: a in grown ==> Connected(c, start, a)
  {
    assert grown + {} == grown;
  }

  /** Popping a chart the component already holds. */
  lemma GrowingSkips(c: Complex, start: Name, unvisited0: set<Name>, grown: set<Name>, pending: set<Name>, rest: set<Name>)
    requires Growing(c, start, unvisited0, grown, pending)
    requires rest <= pending && pending <= rest + grown
    ensures Growing(c, start, unvisited0, grown, rest)
  {
    assert grown + pending == grown + rest;
  }

  /** Grows the component of `start` over a pending stack. The measure is the unvisited
      charts, then the stack. */
  method Grow(c: Complex, neighbors: map<Name, set<Name>>, start: Name, unvisited0: set<Name>)
    returns (grown: set<Name>, unvisited: set<Name>)
    requires start in unvisited0 && unvisited0 <= neighbors.Keys
    requires forall a :: a in neighbors ==> neighbors[a] == Neighbors(c.overlaps, a)
    requires Closed(c, unvisited0)
    ensures start in grown && grown <= unvisited0 && unvisited == unvisited0 - grown
    ensures Closed(c, grown) && Closed(c, unvisited)
    ensures forall a :: a in grown ==> Connected(c, start, a)
  {
    hide Growing, Closed, Connected, Neighbors;
    grown, unvisited := {}, unvisited0;
    var pending := [start];
    GrowingStarts(c, start, unvisited0);
    assert Elements(pending) == {start};
    while pending != []
      invariant unvisited == unvisited0 - grown
      invariant start in grown + Elements(pending)
      invariant Growing(c, start, unvisited0, grown, Elements(pending))
      invariant Elements(pending) <= unvisited0
      decreases unvisited, |pending|
    {
      ghost var before := Elements(pending);
      var chart := pending[|pending| - 1];
      var rest := pending[..|pending| - 1];
      assert pending == rest + [chart] && before == Elements(rest) + {chart};
      pending := rest;
      if chart in unvisited {
        unvisited := unvisited - {chart};
        var joined := Enumerate(neighbors[chart] * unvisited);
        pending := pending + joined;
        assert Elements(pending) == Elements(rest) + neighbors[chart] * unvisited;
        GrowByOne(c, start, unvisited0, grown, before, chart, Elements(pending));
        grown := grown + {chart};
      } else {
        GrowingSkips(c, start, unvisited0, grown, before, Elements(rest));
      }
    }
    assert Elements(pending) == {};
    GrowingEnds(c, start, unvisited0, grown);
  }

  lemma GrownIsClass(c: Complex, start: Name, grown: set<Name>)
    requires start in grown && Closed(c, grown) && grown <= ChartSet(c)
    requires forall a :: a in grown ==> Connected(c, start, a)
    ensures IsClass(c, grown)
  {
    forall a, b | a in grown && b in c.charts ensures b in grown <==> Connected(c, a, b) {
      if b in grown {
        ConnectedSymmetric(c, start, a);
        ConnectedTransitive(c, a, start, b);
      } else if Connected(c, a, b) {
        var w :| IsWalk(c, a, b, w);
        ClosedUnderWalk(c, grown, a, b, w);
      }
    }
  }

  /** None exactly where the program rejects the complex; otherwise the partition of the
      charts by overlap walks. */
  method RepairComplexComponents(c: Complex) returns (r: Option<seq<Component>>)
    ensures r.Some? <==> SearchableComplex(c)
    ensures r.Some? ==> IsPartition(c, r.value)
  {
    hide IsComponent, IsClass, Closed, Connected, Neighbors, Covers, InnerIds;
    var neighbors := BuildNeighbors(c);
    if neighbors.None? { return None; }
    var unvisited := ChartSet(c);
    var components: seq<Component> := [];
    AllChartsClosed(c);
    NothingToCover([]);
    assert ChartSet(c) - unvisited == {};
    while unvisited != {}
      invariant unvisited <= ChartSet(c) && Closed(c, unvisited)
      invariant forall k :: 0 <= k < |components| ==> IsComponent(c, components[k]) && components[k].charts !! unvisited
      invariant Pairwise(components) && Covers(components, ChartSet(c) - unvisited)
      decreases unvisited
    {
      var start :| start in unvisited;
      var grown, rest := Grow(c, neighbors.value, start, unvisited);
      GrownIsComponent(c, start, grown);
      CoverGrows(components, ChartSet(c) - unvisited, Component(grown, InnerIds(c, grown)));
      assert ChartSet(c) - rest == ChartSet(c) - unvisited + grown;
      components := components + [Component(grown, InnerIds(c, grown))];
      unvisited := rest;
    }
    assert ChartSet(c) - unvisited == ChartSet(c);
    return Some(components);
  }

  lemma AllChartsClosed(c: Complex)
    requires EndpointsDeclared(c)
    ensures Closed(c, ChartSet(c))
  {
  }

  lemma NothingToCover(components: seq<Component>)
    ensures Covers(components, {})
  {
  }

  lemma GrownIsComponent(c: Complex, start: Name, grown: set<Name>)
    requires start in grown && Closed(c, grown) && grown <= ChartSet(c)
    requires forall a :: a in grown ==> Connected(c, start, a)
    ensures IsComponent(c, Component(grown, InnerIds(c, grown)))
  {
    GrownIsClass(c, start, grown);
  }

  lemma CoverGrows(components: seq<Component>, charts: set<Name>, k: Component)
    requires Covers(components, charts)
    ensures Covers(components + [k], charts + k.charts)
  {
    forall a | a in charts + k.charts
      ensures exists i :: 0 <= i < |components| + 1 && a in (components + [k])[i].charts
    {
      if a in k.charts {
        assert a in (components + [k])[|components|].charts;
      } else {
        var i :| 0 <= i < |components| && a in components[i].charts;
        assert a in (components + [k])[i].charts;
      }
    }
  }

  // ---------- Overlaps are partitioned too ----------

  lemma SameIdSameOverlap(c: Complex, e: Overlap, f: Overlap)
    requires Distinct(Ids(c.overlaps)) && e in c.overlaps && f in c.overlaps && e.id == f.id
    ensures e == f
  {
    var i :| 0 <= i < |c.overlaps| && c.overlaps[i] == e;
    var j :| 0 <= j < |c.overlaps| && c.overlaps[j] == f;
    assert Ids(c.overlaps)[i] == Ids(c.overlaps)[j];
  }

  lemma ClassIsClosed(c: Complex, s: set<Name>)
    requires EndpointsDeclared(c) && IsClass(c, s)
    ensures Closed(c, s)
  {
    forall e | e in c.overlaps ensures e.left in s <==> e.right in s {
      var i :| 0 <= i < |c.overlaps| && c.overlaps[i] == e;
      OverlapConnects(c, i);
      ConnectedSymmetric(c, e.left, e.right);
    }
  }

  lemma OverlapInItsComponent(c: Complex, k: Component, l: Component, e: Overlap)
    requires SearchableComplex(c) && IsComponent(c, k) && IsComponent(c, l) && e in c.overlaps
    ensures e.left in k.charts ==> e.id in k.overlapRefs
    ensures e.id in l.overlapRefs ==> e.left in l.charts
  {
    if e.left in k.charts {
      ClassIsClosed(c, k.charts);
      assert IsInner(e, k.charts);
    }
    if e.id in l.overlapRefs {
      var f :| f in c.overlaps && IsInner(f, l.charts) && f.id == e.id;
      SameIdSameOverlap(c, e, f);
    }
  }

  /** Each overlap lands in exactly one component. */
  lemma OverlapInOneComponent(c: Complex, components: seq<Component>, e: Overlap) returns (k: nat)
    requires SearchableComplex(c) && IsPartition(c, components) && e in c.overlaps
    ensures k < |components| && e.left in components[k].charts
    ensures forall l :: 0 <= l < |components| ==> (e.id in components[l].overlapRefs <==> l == k)
  {
    assert EndpointsIn(e, c.charts) && e.left in ChartSet(c);
    k :| 0 <= k < |components| && e.left in components[k].charts;
    forall l | 0 <= l < |components| ensures e.id in components[l].overlapRefs <==> l == k {
      OverlapInItsComponent(c, components[k], components[l], e);
    }
  }

  /** Two charts share a component exactly when an overlap walk joins them. */
  lemma ShareComponentIffConnected(c: Complex, components: seq<Component>, a: Name, b: Name)
    requires IsPartition(c, components) && a in c.charts && b in c.charts
    ensures Connected(c, a, b) <==>
      exists k :: 0 <= k < |components| && a in components[k].charts && b in components[k].charts
  {
    assert a in ChartSet(c);
    var k :| 0 <= k < |components| && a in components[k].charts;
    assert IsComponent(c, components[k]);
  }
}
