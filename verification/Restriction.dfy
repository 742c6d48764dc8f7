/**
 A-subnerves of necessity_map.py: restricting a supported comparison to a set of targets
 keeps every boundary and every coarse image, so none of its internal assertions fires.
 */
module Restriction {
  import opened Sequences
  import opened Options
  import opened Nerves

  type Targets = set<int>

  // ---------- Supports and selected cells ----------

  function EdgeSupports(n: Nerve, charts: seq<Targets>): (s: seq<Targets>)
    requires IsIncidence(n) && |charts| == n.vertices
    ensures |s| == |n.edges|
  {
    seq(|n.edges|, i requires 0 <= i < |n.edges| => charts[n.edges[i].0] * charts[n.edges[i].1])
  }

  function FaceSupports(n: Nerve, charts: seq<Targets>): (s: seq<Targets>)
    requires IsIncidence(n) && |charts| == n.vertices
    ensures |s| == |n.faces|
  {
    var edges := EdgeSupports(n, charts);
    seq(|n.faces|, i requires 0 <= i < |n.faces| => edges[n.faces[i].0] * edges[n.faces[i].1] * edges[n.faces[i].2])
  }

  predicate Meets(s: Targets, t: Targets) { exists x :: x in s && x in t }

  /** The cells whose support meets the targets, ascending. */
  function Selected(supports: seq<Targets>, targets: Targets): (cells: seq<int>)
    ensures forall i :: i in cells <==> 0 <= i < |supports| && Meets(supports[i], targets)
    ensures forall i, j :: 0 <= i < j < |cells| ==> cells[i] < cells[j]
  {
    if supports == [] then [] else
      var n := |supports| - 1;
      assert forall i :: 0 <= i < n ==> supports[..n][i] == supports[i];
      var before := Selected(supports[..n], targets);
      assert forall i :: 0 <= i < |before| ==> before[i] in before;
      before + if Meets(supports[n], targets) then [n] else []
  }

  lemma SelectedEdgeKeepsEnds(n: Nerve, charts: seq<Targets>, targets: Targets, e: int)
    requires IsIncidence(n) && |charts| == n.vertices
    requires e in Selected(EdgeSupports(n, charts), targets)
    ensures EdgeInRange(n, n.edges[e])
    ensures n.edges[e].0 in Selected(charts, targets) && n.edges[e].1 in Selected(charts, targets)
  {
    var t :| t in EdgeSupports(n, charts)[e] && t in targets;
    assert Meets(charts[n.edges[e].0], targets) && Meets(charts[n.edges[e].1], targets);
  }

  lemma SelectedFaceKeepsEdges(n: Nerve, charts: seq<Targets>, targets: Targets, f: int)
    requires IsIncidence(n) && |charts| == n.vertices
    requires f in Selected(FaceSupports(n, charts), targets)
    ensures FaceInRange(n, n.faces[f])
    ensures n.faces[f].0 in Selected(EdgeSupports(n, charts), targets)
    ensures n.faces[f].1 in Selected(EdgeSupports(n, charts), targets)
    ensures n.faces[f].2 in Selected(EdgeSupports(n, charts), targets)
  {
    var edges, face := EdgeSupports(n, charts), n.faces[f];
    var t :| t in FaceSupports(n, charts)[f] && t in targets;
    assert Meets(edges[face.0], targets) && Meets(edges[face.1], targets) && Meets(edges[face.2], targets);
  }

  // ---------- The restricted nerve ----------

  /** The selected cells of a nerve. */
  datatype Cells = Cells(vertices: seq<int>, edges: seq<int>, faces: seq<int>)

  function RestrictEdge(n: Nerve, vertices: seq<int>, e: int): Edge
    requires 0 <= e < |n.edges| && n.edges[e].0 in vertices && n.edges[e].1 in vertices
  {
    (Position(vertices, n.edges[e].0), Position(vertices, n.edges[e].1))
  }

  function RestrictFace(n: Nerve, edges: seq<int>, f: int): Face
    requires 0 <= f < |n.faces| && n.faces[f].0 in edges && n.faces[f].1 in edges && n.faces[f].2 in edges
  {
    (Position(edges, n.faces[f].0), Position(edges, n.faces[f].1), Position(edges, n.faces[f].2))
  }

  predicate KeepsEnds(n: Nerve, vertices: seq<int>, edges: seq<int>) {
    forall e :: e in edges ==> 0 <= e < |n.edges| && n.edges[e].0 in vertices && n.edges[e].1 in vertices
  }

  predicate KeepsEdges(n: Nerve, edges: seq<int>, faces: seq<int>) {
    forall f :: f in faces ==> 0 <= f < |n.faces| && n.faces[f].0 in edges && n.faces[f].1 in edges && n.faces[f].2 in edges
  }

  /** The renumbered nerve on selected cells; the two assertions of restrict_nerve are its
      preconditions. */
  function Renumber(n: Nerve, vertices: seq<int>, edges: seq<int>, faces: seq<int>): Nerve
    requires KeepsEnds(n, vertices, edges) && KeepsEdges(n, edges, faces)
  {
    Nerve(|vertices|,
          seq(|edges|, i requires 0 <= i < |edges| => assert edges[i] in edges; RestrictEdge(n, vertices, edges[i])),
          seq(|faces|, i requires 0 <= i < |faces| => assert faces[i] in faces; RestrictFace(n, edges, faces[i])))
  }

  lemma SelectionIsClosed(n: Nerve, charts: seq<Targets>, targets: Targets)
    requires IsIncidence(n) && |charts| == n.vertices
    ensures KeepsEnds(n, Selected(charts, targets), Selected(EdgeSupports(n, charts), targets))
    ensures KeepsEdges(n, Selected(EdgeSupports(n, charts), targets), Selected(FaceSupports(n, charts), targets))
  {
    forall e | e in Selected(EdgeSupports(n, charts), targets)
      ensures 0 <= e < |n.edges| && n.edges[e].0 in Selected(charts, targets) && n.edges[e].1 in Selected(charts, targets)
    {
      SelectedEdgeKeepsEnds(n, charts, targets, e);
    }
    forall f | f in Selected(FaceSupports(n, charts), targets)
      ensures 0 <= f < |n.faces| && n.faces[f].0 in Selected(EdgeSupports(n, charts), targets)
           && n.faces[f].1 in Selected(EdgeSupports(n, charts), targets) && n.faces[f].2 in Selected(EdgeSupports(n, charts), targets)
    {
      SelectedFaceKeepsEdges(n, charts, targets, f);
    }
  }

  function SelectCells(n: Nerve, charts: seq<Targets>, targets: Targets): Cells
    requires IsIncidence(n) && |charts| == n.vertices
  {
    Cells(Selected(charts, targets), Selected(EdgeSupports(n, charts), targets), Selected(FaceSupports(n, charts), targets))
  }

  /** Renumbering keeps the endpoint equalities, so the restricted nerve is accepted. */
  lemma RenumberedIsIncidence(n: Nerve, vertices: seq<int>, edges: seq<int>, faces: seq<int>)
    requires IsIncidence(n) && KeepsEnds(n, vertices, edges) && KeepsEdges(n, edges, faces)
    ensures IsIncidence(Renumber(n, vertices, edges, faces))
  {
    var r := Renumber(n, vertices, edges, faces);
    forall i | 0 <= i < |r.faces| ensures FaceInRange(r, r.faces[i]) && FaceCloses(r, r.faces[i]) {
      assert faces[i] in faces;
      assert FaceCloses(n, n.faces[faces[i]]);
    }
  }

  // ---------- Supported comparisons ----------

  datatype Comparison = Comparison(
    morphism: NerveMorphism,
    coarseTargets: int, fineTargets: int, pi: seq<int>,
    coarseSupports: seq<Targets>, fineSupports: seq<Targets>)

  predicate InRange(s: Targets, n: int) { forall t :: t in s ==> 0 <= t < n }

  /** The constructor's checks: pi is total and onto, supports are nonempty and in range,
      and each fine support maps into the support of the coarse chart. */
  predicate IsComparison(c: Comparison) {
    && IsMorphism(c.morphism)
    && 0 < c.coarseTargets && 0 < c.fineTargets && |c.pi| == c.fineTargets
    && (forall t :: 0 <= t < |c.pi| ==> 0 <= c.pi[t] < c.coarseTargets)
    && (forall u :: 0 <= u < c.coarseTargets ==> u in c.pi)
    && |c.coarseSupports| == c.morphism.coarse.vertices && |c.fineSupports| == c.morphism.fine.vertices
    && (forall v :: 0 <= v < |c.coarseSupports| ==> c.coarseSupports[v] != {} && InRange(c.coarseSupports[v], c.coarseTargets))
    && (forall v :: 0 <= v < |c.fineSupports| ==> c.fineSupports[v] != {} && InRange(c.fineSupports[v], c.fineTargets))
    && (forall v, t :: 0 <= v < |c.fineSupports| && t in c.fineSupports[v] && 0 <= t < |c.pi| ==>
          c.pi[t] in c.coarseSupports[c.morphism.vertexMap[v]])
  }

  /** The fine targets over A. */
  function Preimage(c: Comparison, a: Targets): Targets {
    set t | 0 <= t < |c.pi| && c.pi[t] in a
  }

  /** A selected target of a fine chart gives a selected target of its coarse chart. */
  lemma TargetMapsDown(c: Comparison, a: Targets, v: int, t: int)
    requires IsComparison(c) && 0 <= v < |c.fineSupports| && t in c.fineSupports[v] && t in Preimage(c, a)
    ensures 0 <= t < |c.pi| && c.pi[t] in c.coarseSupports[c.morphism.vertexMap[v]] && c.pi[t] in a
  {
  }

  lemma FineVertexImage(c: Comparison, a: Targets, v: int)
    requires IsComparison(c) && v in FineCells(c, a).vertices
    ensures 0 <= v < |c.morphism.vertexMap| && c.morphism.vertexMap[v] in CoarseCells(c, a).vertices
  {
    var t :| t in c.fineSupports[v] && t in Preimage(c, a);
    TargetMapsDown(c, a, v, t);
    assert Meets(c.coarseSupports[c.morphism.vertexMap[v]], a);
  }

  lemma FineEdgeImage(c: Comparison, a: Targets, e: int)
    requires IsComparison(c) && e in FineCells(c, a).edges
    ensures 0 <= e < |c.morphism.edgeMap|
    ensures c.morphism.edgeMap[e].Some? ==> c.morphism.edgeMap[e].value in CoarseCells(c, a).edges
  {
    var m := c.morphism;
    assert EdgeMaps(m, e);
    if m.edgeMap[e].Some? {
      var t :| t in EdgeSupports(m.fine, c.fineSupports)[e] && t in Preimage(c, a);
      EdgeTargetMapsDown(c, a, e, t);
      assert Meets(EdgeSupports(m.coarse, c.coarseSupports)[m.edgeMap[e].value], a);
    }
  }

  /** A target in the support of a nondegenerate fine edge maps into its coarse edge's. */
  lemma EdgeTargetMapsDown(c: Comparison, a: Targets, e: int, t: int)
    requires IsComparison(c) && 0 <= e < |c.morphism.edgeMap| && c.morphism.edgeMap[e].Some?
    requires t in EdgeSupports(c.morphism.fine, c.fineSupports)[e] && t in Preimage(c, a)
    ensures EdgeMaps(c.morphism, e) && 0 <= t < |c.pi|
    ensures c.pi[t] in EdgeSupports(c.morphism.coarse, c.coarseSupports)[c.morphism.edgeMap[e].value] && c.pi[t] in a
  {
    var m := c.morphism;
    assert EdgeMaps(m, e);
    TargetMapsDown(c, a, m.fine.edges[e].0, t);
    TargetMapsDown(c, a, m.fine.edges[e].1, t);
  }

  lemma FineFaceImage(c: Comparison, a: Targets, f: int)
    requires IsComparison(c) && f in FineCells(c, a).faces
    ensures 0 <= f < |c.morphism.faceMap|
    ensures c.morphism.faceMap[f].Some? ==> c.morphism.faceMap[f].value in CoarseCells(c, a).faces
  {
    var m := c.morphism;
    assert FaceMaps(m, f);
    if m.faceMap[f].Some? {
      var face := m.fine.faces[f];
      var t :| t in FaceSupports(m.fine, c.fineSupports)[f] && t in Preimage(c, a);
      EdgeTargetMapsDown(c, a, face.0, t);
      EdgeTargetMapsDown(c, a, face.1, t);
      EdgeTargetMapsDown(c, a, face.2, t);
      assert Meets(FaceSupports(m.coarse, c.coarseSupports)[m.faceMap[f].value], a);
    }
  }

  /** Renumbering a partial cell map on selected cells. */
  function RestrictMap(cellMap: seq<Option<int>>, fine: seq<int>, coarse: seq<int>): (r: seq<Option<int>>)
    requires forall i :: i in fine ==> 0 <= i < |cellMap| && (cellMap[i].Some? ==> cellMap[i].value in coarse)
    ensures |r| == |fine|
  {
    seq(|fine|, i requires 0 <= i < |fine| =>
      assert fine[i] in fine;
      if cellMap[fine[i]].None? then None else Some(Position(coarse, cellMap[fine[i]].value) as int))
  }

  function RestrictVertexMap(cellMap: seq<int>, fine: seq<int>, coarse: seq<int>): (r: seq<int>)
    requires forall i :: i in fine ==> 0 <= i < |cellMap| && cellMap[i] in coarse
    ensures |r| == |fine|
  {
    seq(|fine|, i requires 0 <= i < |fine| => assert fine[i] in fine; Position(coarse, cellMap[fine[i]]) as int)
  }

  /** The selections are closed under boundaries and images: what the assertions check. */
  predicate IsClosed(m: NerveMorphism, fine: Cells, coarse: Cells) {
    && KeepsEnds(m.fine, fine.vertices, fine.edges) && KeepsEdges(m.fine, fine.edges, fine.faces)
    && KeepsEnds(m.coarse, coarse.vertices, coarse.edges) && KeepsEdges(m.coarse, coarse.edges, coarse.faces)
    && (forall i :: i in fine.vertices ==> 0 <= i < |m.vertexMap| && m.vertexMap[i] in coarse.vertices)
    && (forall i :: i in fine.edges ==> 0 <= i < |m.edgeMap| && (m.edgeMap[i].Some? ==> m.edgeMap[i].value in coarse.edges))
    && (forall i :: i in fine.faces ==> 0 <= i < |m.faceMap| && (m.faceMap[i].Some? ==> m.faceMap[i].value in coarse.faces))
  }

  function RestrictMorphism(m: NerveMorphism, fine: Cells, coarse: Cells): NerveMorphism
    requires IsClosed(m, fine, coarse)
  {
    NerveMorphism(Renumber(m.coarse, coarse.vertices, coarse.edges, coarse.faces),
                  Renumber(m.fine, fine.vertices, fine.edges, fine.faces),
                  RestrictVertexMap(m.vertexMap, fine.vertices, coarse.vertices),
                  RestrictMap(m.edgeMap, fine.edges, coarse.edges),
                  RestrictMap(m.faceMap, fine.faces, coarse.faces))
  }

  lemma RestrictedEdgeMaps(m: NerveMorphism, fine: Cells, coarse: Cells, i: nat)
    requires IsMorphism(m) && IsClosed(m, fine, coarse) && i < |fine.edges|
    requires IsIncidence(Renumber(m.fine, fine.vertices, fine.edges, fine.faces))
    ensures EdgeMaps(RestrictMorphism(m, fine, coarse), i)
  {
    assert fine.edges[i] in fine.edges;
    assert EdgeMaps(m, fine.edges[i]);
  }

  lemma RestrictedFaceMaps(m: NerveMorphism, fine: Cells, coarse: Cells, i: nat)
    requires IsMorphism(m) && IsClosed(m, fine, coarse) && i < |fine.faces|
    requires IsIncidence(Renumber(m.fine, fine.vertices, fine.edges, fine.faces))
    ensures FaceMaps(RestrictMorphism(m, fine, coarse), i)
  {
    assert fine.faces[i] in fine.faces;
    assert FaceMaps(m, fine.faces[i]);
  }

  lemma RestrictedIsMorphism(m: NerveMorphism, fine: Cells, coarse: Cells)
    requires IsMorphism(m) && IsClosed(m, fine, coarse)
    ensures IsMorphism(RestrictMorphism(m, fine, coarse))
  {
    var r := RestrictMorphism(m, fine, coarse);
    RenumberedIsIncidence(m.fine, fine.vertices, fine.edges, fine.faces);
    RenumberedIsIncidence(m.coarse, coarse.vertices, coarse.edges, coarse.faces);
    forall i | 0 <= i < |r.edgeMap| ensures EdgeMaps(r, i) { RestrictedEdgeMaps(m, fine, coarse, i); }
    forall i | 0 <= i < |r.faceMap| ensures FaceMaps(r, i) { RestrictedFaceMaps(m, fine, coarse, i); }
    RestrictedVertices(m, fine, coarse);
  }

  lemma RestrictedVertices(m: NerveMorphism, fine: Cells, coarse: Cells)
    requires IsClosed(m, fine, coarse)
    ensures forall i :: 0 <= i < |fine.vertices| ==>
      0 <= RestrictMorphism(m, fine, coarse).vertexMap[i] < |coarse.vertices|
  {
    forall i | 0 <= i < |fine.vertices| ensures 0 <= RestrictMorphism(m, fine, coarse).vertexMap[i] < |coarse.vertices| {
      assert fine.vertices[i] in fine.vertices;
    }
  }

  // ---------- Every set of targets gives a closed selection ----------

  function CoarseCells(c: Comparison, a: Targets): Cells
    requires IsComparison(c)
  {
    SelectCells(c.morphism.coarse, c.coarseSupports, a)
  }

  function FineCells(c: Comparison, a: Targets): Cells
    requires IsComparison(c)
  {
    SelectCells(c.morphism.fine, c.fineSupports, Preimage(c, a))
  }

  /** For every set of targets the selected cells keep their boundaries and images. */
  lemma SubselectionIsClosed(c: Comparison, a: Targets)
    requires IsComparison(c)
    ensures IsClosed(c.morphism, FineCells(c, a), CoarseCells(c, a))
  {
    SelectionIsClosed(c.morphism.coarse, c.coarseSupports, a);
    SelectionIsClosed(c.morphism.fine, c.fineSupports, Preimage(c, a));
    var m, fine, coarse := c.morphism, FineCells(c, a), CoarseCells(c, a);
    forall i | i in fine.vertices ensures 0 <= i < |m.vertexMap| && m.vertexMap[i] in coarse.vertices {
      FineVertexImage(c, a, i);
    }
    forall i | i in fine.edges ensures 0 <= i < |m.edgeMap| && (m.edgeMap[i].Some? ==> m.edgeMap[i].value in coarse.edges) {
      FineEdgeImage(c, a, i);
    }
    forall i | i in fine.faces ensures 0 <= i < |m.faceMap| && (m.faceMap[i].Some? ==> m.faceMap[i].value in coarse.faces) {
      FineFaceImage(c, a, i);
    }
  }

  /** The morphism between the restricted nerves. */
  function Subcomparison(c: Comparison, a: Targets): NerveMorphism
    requires IsComparison(c)
  {
    SubselectionIsClosed(c, a);
    RestrictMorphism(c.morphism, FineCells(c, a), CoarseCells(c, a))
  }

  /** For every set of targets the restricted data pass both constructors' checks. */
  lemma SubcomparisonIsMorphism(c: Comparison, a: Targets)
    requires IsComparison(c)
    ensures IsMorphism(Subcomparison(c, a))
  {
    SubselectionIsClosed(c, a);
    RestrictedIsMorphism(c.morphism, FineCells(c, a), CoarseCells(c, a));
  }

  /** The partial-map loops: every image is looked up, and the lookup never fails. */
  method RenumberMap(cellMap: seq<Option<int>>, fine: seq<int>, coarse: seq<int>) returns (r: seq<Option<int>>)
    requires forall i :: i in fine ==> 0 <= i < |cellMap| && (cellMap[i].Some? ==> cellMap[i].value in coarse)
    ensures r == RestrictMap(cellMap, fine, coarse)
  {
    r := [];
    for k := 0 to |fine|
      invariant r == RestrictMap(cellMap, fine, coarse)[..k]
    {
      assert fine[k] in fine;
      match cellMap[fine[k]] {
        case None => r := r + [None];
        case Some(image) => r := r + [Some(Position(coarse, image) as int)];
      }
    }
  }

  method RenumberVertexMap(cellMap: seq<int>, fine: seq<int>, coarse: seq<int>) returns (r: seq<int>)
    requires forall i :: i in fine ==> 0 <= i < |cellMap| && cellMap[i] in coarse
    ensures r == RestrictVertexMap(cellMap, fine, coarse)
  {
    r := [];
    for k := 0 to |fine|
      invariant r == RestrictVertexMap(cellMap, fine, coarse)[..k]
    {
      assert fine[k] in fine;
      r := r + [Position(coarse, cellMap[fine[k]]) as int];
    }
  }

  // ---------- Which cells, in terms of charts alone ----------

  /** Target t lies in the support of every chart listed. */
  predicate OnAll(charts: seq<Targets>, vs: set<int>, t: int) {
    forall v :: v in vs ==> 0 <= v < |charts| && t in charts[v]
  }

  function EdgeCharts(n: Nerve, e: int): set<int>
    requires 0 <= e < |n.edges|
  {
    {n.edges[e].0, n.edges[e].1}
  }

  function FaceCharts(n: Nerve, f: int): set<int>
    requires 0 <= f < |n.faces| && FaceInRange(n, n.faces[f])
  {
    EdgeCharts(n, n.faces[f].0) + EdgeCharts(n, n.faces[f].1) + EdgeCharts(n, n.faces[f].2)
  }

  lemma EdgeSupportIs(n: Nerve, charts: seq<Targets>, e: int, t: int)
    requires IsIncidence(n) && |charts| == n.vertices && 0 <= e < |n.edges|
    ensures t in EdgeSupports(n, charts)[e] <==> OnAll(charts, EdgeCharts(n, e), t)
  {
    assert EdgeInRange(n, n.edges[e]);
  }

  lemma FaceSupportIs(n: Nerve, charts: seq<Targets>, f: int, t: int)
    requires IsIncidence(n) && |charts| == n.vertices && 0 <= f < |n.faces|
    ensures FaceInRange(n, n.faces[f])
    ensures t in FaceSupports(n, charts)[f] <==> OnAll(charts, FaceCharts(n, f), t)
  {
    assert FaceInRange(n, n.faces[f]);
    EdgeSupportIs(n, charts, n.faces[f].0, t);
    EdgeSupportIs(n, charts, n.faces[f].1, t);
    EdgeSupportIs(n, charts, n.faces[f].2, t);
  }

  predicate Ascending(s: seq<int>) { forall i, j :: 0 <= i < j < |s| ==> s[i] < s[j] }

  /** Some wanted target lies on all the charts. */
  ghost predicate Touches(charts: seq<Targets>, vs: set<int>, targets: iset<int>) {
    exists t :: t in targets && OnAll(charts, vs, t)
  }

  /** The cells are, ascending, those whose charts share a wanted target. */
  ghost predicate AreTouched(n: Nerve, charts: seq<Targets>, targets: iset<int>, cells: Cells)
    requires IsIncidence(n)
  {
    && Ascending(cells.vertices) && Ascending(cells.edges) && Ascending(cells.faces)
    && (forall v :: v in cells.vertices <==> 0 <= v < n.vertices && Touches(charts, {v}, targets))
    && (forall e :: e in cells.edges <==> 0 <= e < |n.edges| && Touches(charts, EdgeCharts(n, e), targets))
    && (forall f :: f in cells.faces <==> 0 <= f < |n.faces| && Touches(charts, FaceCharts(n, f), targets))
  }

  lemma MeetsMeans(support: Targets, targets: Targets)
    ensures Meets(support, targets) <==> exists t :: t in targets && t in support
  {
  }

  lemma SelectedAreTouched(n: Nerve, charts: seq<Targets>, targets: Targets, wanted: iset<int>)
    requires IsIncidence(n) && |charts| == n.vertices && forall t :: t in wanted <==> t in targets
    ensures AreTouched(n, charts, wanted, SelectCells(n, charts, targets))
  {
    hide IsIncidence;
    forall v | 0 <= v < n.vertices ensures Meets(charts[v], targets) <==> Touches(charts, {v}, wanted) {
      forall t ensures t in charts[v] <==> OnAll(charts, {v}, t) { assert v in {v}; }
    }
    forall e | 0 <= e < |n.edges| ensures Meets(EdgeSupports(n, charts)[e], targets) <==> Touches(charts, EdgeCharts(n, e), wanted) {
      forall t ensures t in EdgeSupports(n, charts)[e] <==> OnAll(charts, EdgeCharts(n, e), t) { EdgeSupportIs(n, charts, e, t); }
    }
    forall f | 0 <= f < |n.faces|
      ensures FaceInRange(n, n.faces[f])
      ensures Meets(FaceSupports(n, charts)[f], targets) <==> Touches(charts, FaceCharts(n, f), wanted)
    {
      FaceSupportIs(n, charts, f, 0);
      forall t ensures t in FaceSupports(n, charts)[f] <==> OnAll(charts, FaceCharts(n, f), t) { FaceSupportIs(n, charts, f, t); }
    }
  }

  /** The targets wanted on each side, from pi and A. */
  ghost function CoarseWanted(a: Targets): iset<int> { iset t | t in a }

  ghost function FineWanted(c: Comparison, a: Targets): iset<int> {
    iset t | 0 <= t < |c.pi| && c.pi[t] in a
  }

  /** Which coarse and fine cells A keeps. */
  lemma CellsAreTouched(c: Comparison, a: Targets)
    requires IsComparison(c)
    ensures AreTouched(c.morphism.coarse, c.coarseSupports, CoarseWanted(a), CoarseCells(c, a))
    ensures AreTouched(c.morphism.fine, c.fineSupports, FineWanted(c, a), FineCells(c, a))
  {
    SelectedAreTouched(c.morphism.coarse, c.coarseSupports, a, CoarseWanted(a));
    SelectedAreTouched(c.morphism.fine, c.fineSupports, Preimage(c, a), FineWanted(c, a));
  }

  // ---------- What the renumbering means ----------

  /** Read through the lists of kept cells, the restricted nerve is the original one. */
  predicate ReadsBack(n: Nerve, r: Nerve, cells: Cells) {
    && r.vertices == |cells.vertices| && |r.edges| == |cells.edges| && |r.faces| == |cells.faces|
    && (forall i :: 0 <= i < |r.edges| ==>
          && 0 <= cells.edges[i] < |n.edges| && EdgeInRange(r, r.edges[i])
          && (cells.vertices[r.edges[i].0], cells.vertices[r.edges[i].1]) == n.edges[cells.edges[i]])
    && (forall i :: 0 <= i < |r.faces| ==>
          && 0 <= cells.faces[i] < |n.faces| && FaceInRange(r, r.faces[i])
          && (cells.edges[r.faces[i].0], cells.edges[r.faces[i].1], cells.edges[r.faces[i].2]) == n.faces[cells.faces[i]])
  }

  lemma RenumberedEdge(n: Nerve, cells: Cells, i: nat)
    requires KeepsEnds(n, cells.vertices, cells.edges) && i < |cells.edges|
    ensures cells.edges[i] in cells.edges && 0 <= cells.edges[i] < |n.edges|
    ensures var e := RestrictEdge(n, cells.vertices, cells.edges[i]);
            && 0 <= e.0 < |cells.vertices| && 0 <= e.1 < |cells.vertices|
            && (cells.vertices[e.0], cells.vertices[e.1]) == n.edges[cells.edges[i]]
  {
    assert cells.edges[i] in cells.edges;
  }

  lemma RenumberedFace(n: Nerve, cells: Cells, i: nat)
    requires KeepsEdges(n, cells.edges, cells.faces) && i < |cells.faces|
    ensures cells.faces[i] in cells.faces && 0 <= cells.faces[i] < |n.faces|
    ensures var f := RestrictFace(n, cells.edges, cells.faces[i]);
            && 0 <= f.0 < |cells.edges| && 0 <= f.1 < |cells.edges| && 0 <= f.2 < |cells.edges|
            && (cells.edges[f.0], cells.edges[f.1], cells.edges[f.2]) == n.faces[cells.faces[i]]
  {
    assert cells.faces[i] in cells.faces;
  }

  lemma RenumberReadsBack(n: Nerve, cells: Cells)
    requires KeepsEnds(n, cells.vertices, cells.edges) && KeepsEdges(n, cells.edges, cells.faces)
    ensures ReadsBack(n, Renumber(n, cells.vertices, cells.edges, cells.faces), cells)
  {
    var r := Renumber(n, cells.vertices, cells.edges, cells.faces);
    forall i | 0 <= i < |cells.edges| ensures cells.edges[i] in cells.edges && r.edges[i] == RestrictEdge(n, cells.vertices, cells.edges[i]) {
      RenumberedEdge(n, cells, i);
    }
    forall i | 0 <= i < |cells.faces| ensures cells.faces[i] in cells.faces && r.faces[i] == RestrictFace(n, cells.edges, cells.faces[i]) {
      RenumberedFace(n, cells, i);
    }
    hide RestrictEdge, RestrictFace, KeepsEnds, KeepsEdges, Renumber;
    forall i | 0 <= i < |cells.edges|
      ensures 0 <= cells.edges[i] < |n.edges| && EdgeInRange(r, r.edges[i])
      ensures (cells.vertices[r.edges[i].0], cells.vertices[r.edges[i].1]) == n.edges[cells.edges[i]]
    {
      RenumberedEdge(n, cells, i);
    }
    forall i | 0 <= i < |cells.faces|
      ensures 0 <= cells.faces[i] < |n.faces| && FaceInRange(r, r.faces[i])
      ensures (cells.edges[r.faces[i].0], cells.edges[r.faces[i].1], cells.edges[r.faces[i].2]) == n.faces[cells.faces[i]]
    {
      RenumberedFace(n, cells, i);
    }
  }

  /** So are the maps, degenerate cells included. */
  predicate MapReadsBack(cellMap: seq<Option<int>>, r: seq<Option<int>>, fine: seq<int>, coarse: seq<int>) {
    && |r| == |fine|
    && forall i :: 0 <= i < |r| ==>
         && 0 <= fine[i] < |cellMap|
         && (r[i].None? <==> cellMap[fine[i]].None?)
         && (r[i].Some? ==> 0 <= r[i].value < |coarse| && coarse[r[i].value] == cellMap[fine[i]].value)
  }

  predicate VertexMapReadsBack(vertexMap: seq<int>, r: seq<int>, fine: seq<int>, coarse: seq<int>) {
    && |r| == |fine|
    && forall i :: 0 <= i < |r| ==> 0 <= fine[i] < |vertexMap| && 0 <= r[i] < |coarse| && coarse[r[i]] == vertexMap[fine[i]]
  }

  predicate MorphismReadsBack(m: NerveMorphism, r: NerveMorphism, fine: Cells, coarse: Cells) {
    && ReadsBack(m.coarse, r.coarse, coarse) && ReadsBack(m.fine, r.fine, fine)
    && VertexMapReadsBack(m.vertexMap, r.vertexMap, fine.vertices, coarse.vertices)
    && MapReadsBack(m.edgeMap, r.edgeMap, fine.edges, coarse.edges)
    && MapReadsBack(m.faceMap, r.faceMap, fine.faces, coarse.faces)
  }

  lemma RestrictMapReadsBack(cellMap: seq<Option<int>>, fine: seq<int>, coarse: seq<int>)
    requires forall i :: i in fine ==> 0 <= i < |cellMap| && (cellMap[i].Some? ==> cellMap[i].value in coarse)
    ensures MapReadsBack(cellMap, RestrictMap(cellMap, fine, coarse), fine, coarse)
  {
    forall i | 0 <= i < |fine| ensures fine[i] in fine {}
  }

  lemma RestrictionReadsBack(m: NerveMorphism, fine: Cells, coarse: Cells)
    requires IsClosed(m, fine, coarse)
    ensures MorphismReadsBack(m, RestrictMorphism(m, fine, coarse), fine, coarse)
  {
    RenumberReadsBack(m.coarse, coarse);
    RenumberReadsBack(m.fine, fine);
    RestrictMapReadsBack(m.edgeMap, fine.edges, coarse.edges);
    RestrictMapReadsBack(m.faceMap, fine.faces, coarse.faces);
    forall i | 0 <= i < |fine.vertices| ensures fine.vertices[i] in fine.vertices {}
  }

  /** The kept cells of both sides and the morphism between them. */
  datatype CoordinateResult = CoordinateResult(coarse: Cells, fine: Cells, morphism: NerveMorphism)

  /** Refused exactly when A is empty or leaves the coarse targets; otherwise the cells whose
      charts share a target of A, renumbered, with both nerves and the morphism passing their
      constructors. Every lookup on the way succeeds. */
  method CoordinateSubcomparison(c: Comparison, a: Targets) returns (r: Option<CoordinateResult>)
    requires IsComparison(c)
    ensures r.Some? <==> a != {} && InRange(a, c.coarseTargets)
    ensures r.Some? ==> r.value.morphism == Subcomparison(c, a) && IsMorphism(r.value.morphism)
    ensures r.Some? ==>
      && AreTouched(c.morphism.coarse, c.coarseSupports, CoarseWanted(a), r.value.coarse)
      && AreTouched(c.morphism.fine, c.fineSupports, FineWanted(c, a), r.value.fine)
      && MorphismReadsBack(c.morphism, r.value.morphism, r.value.fine, r.value.coarse)
  {
    if a == {} || !InRange(a, c.coarseTargets) { return None; }
    SubcomparisonIsIncidence(c);
    hide IsComparison, IsMorphism, KeepsEnds, KeepsEdges, FineCells, CoarseCells, AreTouched, MorphismReadsBack, IsIncidence;
    SubselectionIsClosed(c, a);
    SubcomparisonIsMorphism(c, a);
    CellsAreTouched(c, a);
    var m, fine, coarse := c.morphism, FineCells(c, a), CoarseCells(c, a);
    RestrictionReadsBack(m, fine, coarse);
    var vertexMap := RenumberVertexMap(m.vertexMap, fine.vertices, coarse.vertices);
    var edgeMap := RenumberMap(m.edgeMap, fine.edges, coarse.edges);
    var faceMap := RenumberMap(m.faceMap, fine.faces, coarse.faces);
    var morphism := NerveMorphism(Renumber(m.coarse, coarse.vertices, coarse.edges, coarse.faces),
                                  Renumber(m.fine, fine.vertices, fine.edges, fine.faces),
                                  vertexMap, edgeMap, faceMap);
    r := Some(CoordinateResult(coarse, fine, morphism));
  }

  lemma SubcomparisonIsIncidence(c: Comparison)
    requires IsComparison(c)
    ensures IsIncidence(c.morphism.coarse) && IsIncidence(c.morphism.fine)
  {
  }
}
