/**
 The global law-generated complex of necessity_map.py, and why it is, entry for entry and
 in the same order, the block-diagonal sum of its A-subnerve comparisons, one per value.
 */
module LawBlocks {
  import opened Sequences
  import opened Options
  import opened Matrices
  import opened Cohomology
  import opened H1Meaning
  import opened DirectSums
  import opened Nerves
  import opened NerveUnions
  import opened Restriction

  // ---------- Laws, values and coordinates ----------

  /** A law value: Python compares True and 1 alike, so an int stands for both. */
  datatype Law = Law(source: seq<int>, coarseDescend: seq<int>, fineDescend: seq<int>)

  /** The law passes validate: both descents agree with the source through pi. */
  predicate IsLaw(c: Comparison, law: Law) {
    && |law.source| == c.fineTargets && |law.fineDescend| == c.fineTargets && |law.coarseDescend| == c.coarseTargets
    && law.source == law.fineDescend
    && |c.pi| == c.fineTargets
    && (forall t :: 0 <= t < |c.pi| ==> 0 <= c.pi[t] < |law.coarseDescend| && law.coarseDescend[c.pi[t]] == law.source[t])
    && (forall t :: 0 <= t < |c.pi| ==> 0 <= c.pi[t] < |law.coarseDescend| && law.fineDescend[t] == law.coarseDescend[c.pi[t]])
  }

  function ValueOrder(descend: seq<int>): (values: seq<int>)
    ensures Distinct(values) && forall v :: v in values <==> v in descend
  {
    if descend == [] then [] else
      var n := |descend| - 1;
      var before := ValueOrder(descend[..n]);
      assert descend == descend[..n] + [descend[n]];
      before + if descend[n] in before then [] else [descend[n]]
  }

  /** A value comes before another when it occurs first. */
  lemma {:induction false} ValueOrderIsFirstOccurrence(descend: seq<int>, i: nat, j: nat)
    requires i < j < |ValueOrder(descend)|
    ensures var values := ValueOrder(descend);
            && values[i] in descend && values[j] in descend
            && Position(descend, values[i]) < Position(descend, values[j])
  {
    var n := |descend| - 1;
    var values, before := ValueOrder(descend), ValueOrder(descend[..n]);
    assert descend == descend[..n] + [descend[n]];
    assert values[i] in values && values[j] in values;
    assert values[i] == before[i] && before[i] in before;
    PositionInFirst(descend[..n], [descend[n]], values[i]);
    if j < |before| {
      ValueOrderIsFirstOccurrence(descend[..n], i, j);
      assert before[j] in before;
      PositionInFirst(descend[..n], [descend[n]], values[j]);
    } else {
      PositionInSecond(descend[..n], [descend[n]], values[j]);
    }
  }

  /** A valid law is a function on the coarse targets, pulled back along pi. */
  lemma IsLawMeans(c: Comparison, law: Law)
    requires IsComparison(c)
    ensures IsLaw(c, law) <==>
      && |law.coarseDescend| == c.coarseTargets && |law.fineDescend| == |c.pi|
      && law.source == law.fineDescend
      && forall t :: 0 <= t < |c.pi| ==> law.fineDescend[t] == law.coarseDescend[c.pi[t]]
  {
  }

  method GeneratedValueOrder(descend: seq<int>) returns (values: seq<int>)
    ensures values == ValueOrder(descend)
  {
    values := [];
    for i := 0 to |descend|
      invariant values == ValueOrder(descend[..i])
    {
      assert descend[..i + 1][..i] == descend[..i];
      if descend[i] !in values { values := values + [descend[i]]; }
    }
    assert descend[..|descend|] == descend;
  }

  type Coordinate = (int, int)

  predicate TakesValue(support: Targets, descend: seq<int>, v: int) {
    exists t :: t in support && 0 <= t < |descend| && descend[t] == v
  }

  /** The cells on whose support the law takes the value, ascending. */
  function ValueCells(supports: seq<Targets>, descend: seq<int>, v: int): (cells: seq<int>) {
    if supports == [] then [] else
      var n := |supports| - 1;
      ValueCells(supports[..n], descend, v) + if TakesValue(supports[n], descend, v) then [n] else []
  }

  function TargetsOf(descend: seq<int>, v: int): Targets {
    set t | 0 <= t < |descend| && descend[t] == v
  }

  lemma {:induction false} ValueCellsAreSelected(supports: seq<Targets>, descend: seq<int>, v: int)
    ensures ValueCells(supports, descend, v) == Selected(supports, TargetsOf(descend, v))
  {
    if supports != [] {
      var n := |supports| - 1;
      ValueCellsAreSelected(supports[..n], descend, v);
      if TakesValue(supports[n], descend, v) {
        var t :| t in supports[n] && 0 <= t < |descend| && descend[t] == v;
        assert t in TargetsOf(descend, v);
      }
      if Meets(supports[n], TargetsOf(descend, v)) {
        var t :| t in supports[n] && t in TargetsOf(descend, v);
      }
    }
  }

  function Labelled(cells: seq<int>, v: int): (b: seq<Coordinate>)
    ensures |b| == |cells| && forall i :: 0 <= i < |b| ==> b[i] == (cells[i], v)
  {
    seq(|cells|, i requires 0 <= i < |cells| => (cells[i], v))
  }

  /** Value-major, then ascending cell. */
  function Basis(supports: seq<Targets>, descend: seq<int>, values: seq<int>): seq<Coordinate> {
    if values == [] then [] else
      var n := |values| - 1;
      Basis(supports, descend, values[..n]) + Labelled(ValueCells(supports, descend, values[n]), values[n])
  }

  lemma LabelledHas(cells: seq<int>, v: int, x: Coordinate)
    ensures x in Labelled(cells, v) <==> x.1 == v && x.0 in cells
  {
    if x.1 == v && x.0 in cells {
      var i :| 0 <= i < |cells| && cells[i] == x.0;
      assert Labelled(cells, v)[i] == x;
    }
  }

  lemma {:induction false} BasisHas(supports: seq<Targets>, descend: seq<int>, values: seq<int>, x: Coordinate)
    ensures x in Basis(supports, descend, values) <==> x.1 in values && x.0 in Selected(supports, TargetsOf(descend, x.1))
  {
    if values != [] {
      var n := |values| - 1;
      BasisHas(supports, descend, values[..n], x);
      LabelledHas(ValueCells(supports, descend, values[n]), values[n], x);
      ValueCellsAreSelected(supports, descend, values[n]);
      assert x.1 in values <==> x.1 in values[..n] || x.1 == values[n];
    }
  }

  /** Earlier value first, then ascending cells. */
  predicate Precedes(values: seq<int>, x: Coordinate, y: Coordinate)
    requires x.1 in values && y.1 in values
  {
    Position(values, x.1) < Position(values, y.1) || (x.1 == y.1 && x.0 < y.0)
  }

  lemma PositionOfEarlier(values: seq<int>, v: int)
    requires values != [] && v in values[..|values| - 1] && Distinct(values)
    ensures Position(values, v) < Position(values, values[|values| - 1]) == |values| - 1
    ensures Position(values, v) == Position(values[..|values| - 1], v)
  {
    var n := |values| - 1;
    assert values == values[..n] + [values[n]];
    PositionInFirst(values[..n], [values[n]], v);
    PositionInSecond(values[..n], [values[n]], values[n]);
  }

  /** The coordinates come value-major, then by ascending cell, none twice. */
  lemma {:induction false} BasisIsOrdered(supports: seq<Targets>, descend: seq<int>, values: seq<int>, i: nat, j: nat)
    requires Distinct(values) && i < j < |Basis(supports, descend, values)|
    ensures var b := Basis(supports, descend, values);
            b[i].1 in values && b[j].1 in values && Precedes(values, b[i], b[j])
  {
    var n := |values| - 1;
    var v := values[n];
    var before, last := Basis(supports, descend, values[..n]), Labelled(ValueCells(supports, descend, v), v);
    var b := Basis(supports, descend, values);
    BasisHas(supports, descend, values, b[i]);
    BasisHas(supports, descend, values, b[j]);
    assert b[i] in b && b[j] in b;
    if j < |before| {
      BasisIsOrdered(supports, descend, values[..n], i, j);
      PositionOfEarlier(values, b[i].1);
      PositionOfEarlier(values, b[j].1);
    } else if i < |before| {
      assert before[i] in before;
      BasisHas(supports, descend, values[..n], b[i]);
      PositionOfEarlier(values, b[i].1);
    } else {
      ValueCellsAreSelected(supports, descend, v);
    }
  }

  /** Bases of charts, edges and faces. */
  datatype Bases = Bases(charts: seq<Coordinate>, edges: seq<Coordinate>, faces: seq<Coordinate>)

  function LawBases(n: Nerve, supports: seq<Targets>, descend: seq<int>, values: seq<int>): Bases
    requires IsIncidence(n) && |supports| == n.vertices
  {
    Bases(Basis(supports, descend, values),
          Basis(EdgeSupports(n, supports), descend, values),
          Basis(FaceSupports(n, supports), descend, values))
  }

  // ---------- The generated complex as a nerve on coordinates ----------

  predicate HasEnds(n: Nerve, charts: seq<Coordinate>, x: Coordinate) {
    0 <= x.0 < |n.edges| && (n.edges[x.0].0, x.1) in charts && (n.edges[x.0].1, x.1) in charts
  }

  predicate HasEdges(n: Nerve, edges: seq<Coordinate>, x: Coordinate) {
    && 0 <= x.0 < |n.faces| && (n.faces[x.0].0, x.1) in edges
    && (n.faces[x.0].1, x.1) in edges && (n.faces[x.0].2, x.1) in edges
  }

  predicate HasImage(cellMap: seq<Option<int>>, coarse: seq<Coordinate>, x: Coordinate) {
    0 <= x.0 < |cellMap| && (cellMap[x.0].Some? ==> (cellMap[x.0].value, x.1) in coarse)
  }

  /** Every lookup of the generator finds its coordinate. */
  predicate BasesClosed(n: Nerve, b: Bases) {
    (forall x :: x in b.edges ==> HasEnds(n, b.charts, x)) && (forall x :: x in b.faces ==> HasEdges(n, b.edges, x))
  }

  function LawEdge(n: Nerve, charts: seq<Coordinate>, x: Coordinate): Edge
    requires HasEnds(n, charts, x)
  {
    (Position(charts, (n.edges[x.0].0, x.1)), Position(charts, (n.edges[x.0].1, x.1)))
  }

  function LawFace(n: Nerve, edges: seq<Coordinate>, x: Coordinate): Face
    requires HasEdges(n, edges, x)
  {
    (Position(edges, (n.faces[x.0].0, x.1)), Position(edges, (n.faces[x.0].1, x.1)), Position(edges, (n.faces[x.0].2, x.1)))
  }

  function LawEdges(n: Nerve, charts: seq<Coordinate>, edges: seq<Coordinate>): (r: seq<Edge>)
    requires forall x :: x in edges ==> HasEnds(n, charts, x)
    ensures |r| == |edges| && forall i :: 0 <= i < |r| ==> edges[i] in edges && r[i] == LawEdge(n, charts, edges[i])
  {
    seq(|edges|, i requires 0 <= i < |edges| => assert edges[i] in edges; LawEdge(n, charts, edges[i]))
  }

  function LawFaces(n: Nerve, edges: seq<Coordinate>, faces: seq<Coordinate>): (r: seq<Face>)
    requires forall x :: x in faces ==> HasEdges(n, edges, x)
    ensures |r| == |faces| && forall i :: 0 <= i < |r| ==> faces[i] in faces && r[i] == LawFace(n, edges, faces[i])
  {
    seq(|faces|, i requires 0 <= i < |faces| => assert faces[i] in faces; LawFace(n, edges, faces[i]))
  }

  function LawNerve(n: Nerve, b: Bases): Nerve
    requires BasesClosed(n, b)
  {
    Nerve(|b.charts|, LawEdges(n, b.charts, b.edges), LawFaces(n, b.edges, b.faces))
  }

  function LawImage(cellMap: seq<Option<int>>, coarse: seq<Coordinate>, x: Coordinate): (image: Option<int>)
    requires HasImage(cellMap, coarse, x)
  {
    if cellMap[x.0].None? then None else Some(Position(coarse, (cellMap[x.0].value, x.1)) as int)
  }

  function LawMap(cellMap: seq<Option<int>>, fine: seq<Coordinate>, coarse: seq<Coordinate>): (r: seq<Option<int>>)
    requires forall x :: x in fine ==> HasImage(cellMap, coarse, x)
    ensures |r| == |fine| && forall i :: 0 <= i < |r| ==> fine[i] in fine && r[i] == LawImage(cellMap, coarse, fine[i])
  {
    seq(|fine|, i requires 0 <= i < |fine| => assert fine[i] in fine; LawImage(cellMap, coarse, fine[i]))
  }

  /** The vertex map is total, so every image is a number. */
  function LawVertexMap(cellMap: seq<int>, fine: seq<Coordinate>, coarse: seq<Coordinate>): (r: seq<int>)
    requires forall x :: x in fine ==> HasImage(Nerves.Total(cellMap), coarse, x)
    ensures |r| == |fine| && Nerves.Total(r) == LawMap(Nerves.Total(cellMap), fine, coarse)
  {
    var images := LawMap(Nerves.Total(cellMap), fine, coarse);
    var r := seq(|fine|, i requires 0 <= i < |fine| => assert fine[i] in fine; images[i].value);
    assert Nerves.Total(r) == images;
    r
  }

  predicate LawClosed(m: NerveMorphism, fine: Bases, coarse: Bases) {
    && BasesClosed(m.fine, fine) && BasesClosed(m.coarse, coarse)
    && (forall x :: x in fine.charts ==> HasImage(Nerves.Total(m.vertexMap), coarse.charts, x))
    && (forall x :: x in fine.edges ==> HasImage(m.edgeMap, coarse.edges, x))
    && (forall x :: x in fine.faces ==> HasImage(m.faceMap, coarse.faces, x))
  }

  function LawMorphism(m: NerveMorphism, fine: Bases, coarse: Bases): NerveMorphism
    requires LawClosed(m, fine, coarse)
  {
    NerveMorphism(LawNerve(m.coarse, coarse), LawNerve(m.fine, fine),
                  LawVertexMap(m.vertexMap, fine.charts, coarse.charts),
                  LawMap(m.edgeMap, fine.edges, coarse.edges),
                  LawMap(m.faceMap, fine.faces, coarse.faces))
  }

  // ---------- Adding one value appends one block ----------

  predicate Unlabelled(b: seq<Coordinate>, v: int) { forall x :: x in b ==> x.1 != v }

  lemma {:induction false} PositionLabelled(cells: seq<int>, v: int, cell: int)
    requires cell in cells
    ensures (cell, v) in Labelled(cells, v) && Position(Labelled(cells, v), (cell, v)) == Position(cells, cell)
  {
    LabelledHas(cells, v, (cell, v));
    if cells[0] != cell {
      assert Labelled(cells, v)[1..] == Labelled(cells[1..], v);
      PositionLabelled(cells[1..], v, cell);
    }
  }

  /** Where a coordinate of the new value sits. */
  lemma PositionNew(b: seq<Coordinate>, cells: seq<int>, v: int, cell: int)
    requires Unlabelled(b, v) && cell in cells
    ensures (cell, v) in b + Labelled(cells, v)
    ensures Position(b + Labelled(cells, v), (cell, v)) == |b| + Position(cells, cell)
  {
    PositionLabelled(cells, v, cell);
    assert (cell, v) !in b;
    PositionInSecond(b, Labelled(cells, v), (cell, v));
  }

  lemma AppendEdges(n: Nerve, charts: seq<Coordinate>, edges: seq<Coordinate>, cv: seq<int>, ce: seq<int>, v: int)
    requires forall x :: x in edges ==> HasEnds(n, charts, x)
    requires Unlabelled(charts, v) && KeepsEnds(n, cv, ce)
    ensures forall x :: x in edges + Labelled(ce, v) ==> HasEnds(n, charts + Labelled(cv, v), x)
    ensures LawEdges(n, charts + Labelled(cv, v), edges + Labelled(ce, v))
         == LawEdges(n, charts, edges) + ShiftEdges(Renumber(n, cv, ce, []).edges, |charts|)
  {
    var big, all := charts + Labelled(cv, v), edges + Labelled(ce, v);
    forall x | x in all ensures HasEnds(n, big, x) {
      if x !in edges {
        LabelledHas(ce, v, x);
        PositionNew(charts, cv, v, n.edges[x.0].0);
        PositionNew(charts, cv, v, n.edges[x.0].1);
      }
    }
    var right := LawEdges(n, charts, edges) + ShiftEdges(Renumber(n, cv, ce, []).edges, |charts|);
    forall i | 0 <= i < |all| ensures LawEdges(n, big, all)[i] == right[i] {
      if i < |edges| {
        assert all[i] == edges[i] && edges[i] in edges;
        PositionInFirst(charts, Labelled(cv, v), (n.edges[all[i].0].0, all[i].1));
        PositionInFirst(charts, Labelled(cv, v), (n.edges[all[i].0].1, all[i].1));
      } else {
        var e := ce[i - |edges|];
        assert all[i] == (e, v) && e in ce;
        PositionNew(charts, cv, v, n.edges[e].0);
        PositionNew(charts, cv, v, n.edges[e].1);
      }
    }
  }

  lemma OldFace(n: Nerve, edges: seq<Coordinate>, ce: seq<int>, v: int, x: Coordinate)
    requires HasEdges(n, edges, x)
    ensures HasEdges(n, edges + Labelled(ce, v), x)
    ensures LawFace(n, edges + Labelled(ce, v), x) == LawFace(n, edges, x)
  {
    PositionInFirst(edges, Labelled(ce, v), (n.faces[x.0].0, x.1));
    PositionInFirst(edges, Labelled(ce, v), (n.faces[x.0].1, x.1));
    PositionInFirst(edges, Labelled(ce, v), (n.faces[x.0].2, x.1));
  }

  lemma NewFace(n: Nerve, edges: seq<Coordinate>, ce: seq<int>, v: int, f: int)
    requires Unlabelled(edges, v) && KeepsEdges(n, ce, [f])
    ensures 0 <= f < |n.faces| && n.faces[f].0 in ce && n.faces[f].1 in ce && n.faces[f].2 in ce
    ensures HasEdges(n, edges + Labelled(ce, v), (f, v))
    ensures LawFace(n, edges + Labelled(ce, v), (f, v)) == ShiftFace(RestrictFace(n, ce, f), |edges|)
  {
    assert f in [f];
    PositionNew(edges, ce, v, n.faces[f].0);
    PositionNew(edges, ce, v, n.faces[f].1);
    PositionNew(edges, ce, v, n.faces[f].2);
  }

  lemma AppendFaces(n: Nerve, edges: seq<Coordinate>, faces: seq<Coordinate>, cv: seq<int>, ce: seq<int>, cf: seq<int>, v: int)
    requires forall x :: x in faces ==> HasEdges(n, edges, x)
    requires Unlabelled(edges, v) && KeepsEnds(n, cv, ce) && KeepsEdges(n, ce, cf)
    ensures forall x :: x in faces + Labelled(cf, v) ==> HasEdges(n, edges + Labelled(ce, v), x)
    ensures LawFaces(n, edges + Labelled(ce, v), faces + Labelled(cf, v))
         == LawFaces(n, edges, faces) + ShiftFaces(Renumber(n, cv, ce, cf).faces, |edges|)
  {
    hide HasEdges, LawFace, RestrictFace, ShiftFace, Unlabelled;
    var big, all := edges + Labelled(ce, v), faces + Labelled(cf, v);
    forall x | x in all ensures HasEdges(n, big, x) {
      if x in faces {
        OldFace(n, edges, ce, v, x);
      } else {
        LabelledHas(cf, v, x);
        NewFace(n, edges, ce, v, x.0);
      }
    }
    var right := LawFaces(n, edges, faces) + ShiftFaces(Renumber(n, cv, ce, cf).faces, |edges|);
    forall i | 0 <= i < |all| ensures LawFaces(n, big, all)[i] == right[i] {
      if i < |faces| {
        assert all[i] == faces[i] && faces[i] in faces;
        OldFace(n, edges, ce, v, faces[i]);
      } else {
        var f := cf[i - |faces|];
        assert all[i] == (f, v) && f in cf;
        NewFace(n, edges, ce, v, f);
      }
    }
  }

  predicate ImagesIn(cellMap: seq<Option<int>>, fine: seq<int>, coarse: seq<int>) {
    forall i :: i in fine ==> 0 <= i < |cellMap| && (cellMap[i].Some? ==> cellMap[i].value in coarse)
  }

  lemma AppendMap(cellMap: seq<Option<int>>, fine: seq<Coordinate>, coarse: seq<Coordinate>, cf: seq<int>, cc: seq<int>, v: int)
    requires forall x :: x in fine ==> HasImage(cellMap, coarse, x)
    requires Unlabelled(coarse, v) && ImagesIn(cellMap, cf, cc)
    ensures forall x :: x in fine + Labelled(cf, v) ==> HasImage(cellMap, coarse + Labelled(cc, v), x)
    ensures LawMap(cellMap, fine + Labelled(cf, v), coarse + Labelled(cc, v))
         == LawMap(cellMap, fine, coarse) + ShiftMap(RestrictMap(cellMap, cf, cc), |coarse|)
  {
    var big, all := coarse + Labelled(cc, v), fine + Labelled(cf, v);
    forall x | x in all ensures HasImage(cellMap, big, x) {
      if x !in fine {
        LabelledHas(cf, v, x);
        if cellMap[x.0].Some? { PositionNew(coarse, cc, v, cellMap[x.0].value); }
      }
    }
    var right := LawMap(cellMap, fine, coarse) + ShiftMap(RestrictMap(cellMap, cf, cc), |coarse|);
    forall i | 0 <= i < |all| ensures LawMap(cellMap, all, big)[i] == right[i] {
      if i < |fine| {
        assert all[i] == fine[i] && fine[i] in fine;
        if cellMap[all[i].0].Some? { PositionInFirst(coarse, Labelled(cc, v), (cellMap[all[i].0].value, all[i].1)); }
      } else {
        var x := cf[i - |fine|];
        assert all[i] == (x, v) && x in cf;
        if cellMap[x].Some? { PositionNew(coarse, cc, v, cellMap[x].value); }
      }
    }
  }

  function Extend(b: Bases, cells: Cells, v: int): Bases {
    Bases(b.charts + Labelled(cells.vertices, v), b.edges + Labelled(cells.edges, v), b.faces + Labelled(cells.faces, v))
  }

  predicate NewLabel(b: Bases, v: int) {
    Unlabelled(b.charts, v) && Unlabelled(b.edges, v) && Unlabelled(b.faces, v)
  }

  lemma AppendNerve(n: Nerve, b: Bases, cells: Cells, v: int)
    requires BasesClosed(n, b) && NewLabel(b, v)
    requires KeepsEnds(n, cells.vertices, cells.edges) && KeepsEdges(n, cells.edges, cells.faces)
    ensures BasesClosed(n, Extend(b, cells, v))
    ensures LawNerve(n, Extend(b, cells, v)) == JoinNerves(LawNerve(n, b), Renumber(n, cells.vertices, cells.edges, cells.faces))
  {
    AppendEdges(n, b.charts, b.edges, cells.vertices, cells.edges, v);
    AppendFaces(n, b.edges, b.faces, cells.vertices, cells.edges, cells.faces, v);
  }

  lemma AppendValue(m: NerveMorphism, fine: Bases, coarse: Bases, fc: Cells, cc: Cells, v: int)
    requires LawClosed(m, fine, coarse) && NewLabel(fine, v) && NewLabel(coarse, v) && IsClosed(m, fc, cc)
    ensures LawClosed(m, Extend(fine, fc, v), Extend(coarse, cc, v))
    ensures LawMorphism(m, Extend(fine, fc, v), Extend(coarse, cc, v))
         == JoinMorphisms(LawMorphism(m, fine, coarse), RestrictMorphism(m, fc, cc))
  {
    var vertexMap := Nerves.Total(m.vertexMap);
    AppendNerve(m.fine, fine, fc, v);
    AppendNerve(m.coarse, coarse, cc, v);
    AppendMap(vertexMap, fine.charts, coarse.charts, fc.vertices, cc.vertices, v);
    AppendMap(m.edgeMap, fine.edges, coarse.edges, fc.edges, cc.edges, v);
    AppendMap(m.faceMap, fine.faces, coarse.faces, fc.faces, cc.faces, v);
    AppendVertexMap(m.vertexMap, fine.charts, coarse.charts, fc.vertices, cc.vertices, v);
  }

  lemma TotalIsInjective(a: seq<int>, b: seq<int>)
    requires Nerves.Total(a) == Nerves.Total(b)
    ensures a == b
  {
    assert |Nerves.Total(a)| == |Nerves.Total(b)|;
    forall i | 0 <= i < |a| ensures a[i] == b[i] { assert Nerves.Total(a)[i] == Nerves.Total(b)[i]; }
  }

  lemma AppendVertexMap(cellMap: seq<int>, fine: seq<Coordinate>, coarse: seq<Coordinate>, cf: seq<int>, cc: seq<int>, v: int)
    requires forall x :: x in fine ==> HasImage(Nerves.Total(cellMap), coarse, x)
    requires Unlabelled(coarse, v) && forall i :: i in cf ==> 0 <= i < |cellMap| && cellMap[i] in cc
    ensures forall x :: x in fine + Labelled(cf, v) ==> HasImage(Nerves.Total(cellMap), coarse + Labelled(cc, v), x)
    ensures LawVertexMap(cellMap, fine + Labelled(cf, v), coarse + Labelled(cc, v))
         == LawVertexMap(cellMap, fine, coarse) + ShiftVertexMap(RestrictVertexMap(cellMap, cf, cc), |coarse|)
  {
    AppendMap(Nerves.Total(cellMap), fine, coarse, cf, cc, v);
    var left := LawVertexMap(cellMap, fine + Labelled(cf, v), coarse + Labelled(cc, v));
    var right := LawVertexMap(cellMap, fine, coarse) + ShiftVertexMap(RestrictVertexMap(cellMap, cf, cc), |coarse|);
    assert Nerves.Total(right) == Nerves.Total(LawVertexMap(cellMap, fine, coarse))
                                + ShiftMap(RestrictMap(Nerves.Total(cellMap), cf, cc), |coarse|);
    TotalIsInjective(left, right);
  }

  // ---------- The block reduction ----------

  function CoarseBases(c: Comparison, law: Law, values: seq<int>): Bases
    requires IsComparison(c)
  {
    LawBases(c.morphism.coarse, c.coarseSupports, law.coarseDescend, values)
  }

  function FineBases(c: Comparison, law: Law, values: seq<int>): Bases
    requires IsComparison(c)
  {
    LawBases(c.morphism.fine, c.fineSupports, law.fineDescend, values)
  }

  /** The A-subcomparisons, one per value. */
  function Parts(c: Comparison, coarseDescend: seq<int>, values: seq<int>): (parts: seq<NerveMorphism>)
    requires IsComparison(c)
    ensures |parts| == |values|
    ensures forall i :: 0 <= i < |parts| ==> parts[i] == Subcomparison(c, TargetsOf(coarseDescend, values[i]))
  {
    seq(|values|, i requires 0 <= i < |values| => Subcomparison(c, TargetsOf(coarseDescend, values[i])))
  }

  /** The fine targets with a value lie over the coarse targets with that value. */
  lemma PreimageOfValue(c: Comparison, law: Law, v: int)
    requires IsLaw(c, law)
    ensures Preimage(c, TargetsOf(law.coarseDescend, v)) == TargetsOf(law.fineDescend, v)
  {
  }

  lemma LawBasesExtend(n: Nerve, supports: seq<Targets>, descend: seq<int>, values: seq<int>)
    requires IsIncidence(n) && |supports| == n.vertices && values != [] && Distinct(values)
    ensures var k := |values| - 1;
            LawBases(n, supports, descend, values)
              == Extend(LawBases(n, supports, descend, values[..k]), SelectCells(n, supports, TargetsOf(descend, values[k])), values[k])
            && NewLabel(LawBases(n, supports, descend, values[..k]), values[k])
  {
    var k := |values| - 1;
    var v := values[k];
    ValueCellsAreSelected(supports, descend, v);
    ValueCellsAreSelected(EdgeSupports(n, supports), descend, v);
    ValueCellsAreSelected(FaceSupports(n, supports), descend, v);
    BasisUnlabelled(supports, descend, values[..k], v);
    BasisUnlabelled(EdgeSupports(n, supports), descend, values[..k], v);
    BasisUnlabelled(FaceSupports(n, supports), descend, values[..k], v);
  }

  lemma BasisUnlabelled(supports: seq<Targets>, descend: seq<int>, values: seq<int>, v: int)
    requires v !in values
    ensures Unlabelled(Basis(supports, descend, values), v)
  {
    forall x | x in Basis(supports, descend, values) ensures x.1 != v { BasisHas(supports, descend, values, x); }
  }

  lemma GeneratedStep(c: Comparison, law: Law, values: seq<int>, k: nat)
    requires IsComparison(c) && IsLaw(c, law) && Distinct(values) && |values| == k + 1
    requires LawClosed(c.morphism, FineBases(c, law, values[..k]), CoarseBases(c, law, values[..k]))
    ensures LawClosed(c.morphism, FineBases(c, law, values), CoarseBases(c, law, values))
    ensures LawMorphism(c.morphism, FineBases(c, law, values), CoarseBases(c, law, values))
         == JoinMorphisms(LawMorphism(c.morphism, FineBases(c, law, values[..k]), CoarseBases(c, law, values[..k])),
                          Subcomparison(c, TargetsOf(law.coarseDescend, values[k])))
  {
    hide LawClosed, LawMorphism, LawBases, JoinMorphisms, RestrictMorphism, IsClosed, NewLabel, IsLaw;
    var a := TargetsOf(law.coarseDescend, values[k]);
    LawBasesExtend(c.morphism.fine, c.fineSupports, law.fineDescend, values);
    LawBasesExtend(c.morphism.coarse, c.coarseSupports, law.coarseDescend, values);
    PreimageOfValue(c, law, values[k]);
    SubselectionIsClosed(c, a);
    AppendValue(c.morphism, FineBases(c, law, values[..k]), CoarseBases(c, law, values[..k]), FineCells(c, a), CoarseCells(c, a), values[k]);
  }

  lemma NothingGenerated(c: Comparison, law: Law)
    requires IsComparison(c)
    ensures LawClosed(c.morphism, FineBases(c, law, []), CoarseBases(c, law, []))
    ensures LawMorphism(c.morphism, FineBases(c, law, []), CoarseBases(c, law, [])) == UnionMorphism([])
  {
  }

  /** The generated morphism on coordinates is the disjoint union of the A-subcomparisons:
      same cells, same order, same maps. None of the generator's lookups fails. */
  lemma {:induction false} GeneratedIsUnion(c: Comparison, law: Law, values: seq<int>)
    requires IsComparison(c) && IsLaw(c, law) && Distinct(values)
    ensures LawClosed(c.morphism, FineBases(c, law, values), CoarseBases(c, law, values))
    ensures LawMorphism(c.morphism, FineBases(c, law, values), CoarseBases(c, law, values))
         == UnionMorphism(Parts(c, law.coarseDescend, values))
  {
    hide LawClosed, LawMorphism, LawBases, FineBases, CoarseBases, JoinMorphisms, Subcomparison, IsComparison, IsLaw;
    if values == [] {
      NothingGenerated(c, law);
      assert Parts(c, law.coarseDescend, values) == [];
    } else {
      var k := |values| - 1;
      GeneratedIsUnion(c, law, values[..k]);
      GeneratedStep(c, law, values, k);
      assert Parts(c, law.coarseDescend, values)[..k] == Parts(c, law.coarseDescend, values[..k]);
    }
  }

  // ---------- The two constructions of the program ----------

  datatype LawComplex = LawComplex(chartBasis: seq<Coordinate>, edgeBasis: seq<Coordinate>, faceBasis: seq<Coordinate>, d0: Matrix, d1: Matrix)

  datatype LawComparison = LawComparison(
    values: seq<int>, coarse: LawComplex, fine: LawComplex, pullback0: Matrix, pullback1: Matrix, pullback2: Matrix)

  function Underlying(l: LawComparison): ComplexMap {
    ComplexMap(l.coarse.d0, l.coarse.d1, l.fine.d0, l.fine.d1, l.pullback0, l.pullback1, l.pullback2)
  }

  function MakeComparison(values: seq<int>, coarse: Bases, fine: Bases, c: ComplexMap): LawComparison {
    LawComparison(values,
                  LawComplex(coarse.charts, coarse.edges, coarse.faces, c.coarseD0, c.coarseD1),
                  LawComplex(fine.charts, fine.edges, fine.faces, c.fineD0, c.fineD1),
                  c.pullback0, c.pullback1, c.pullback2)
  }

  lemma GeneratedIsMorphism(c: Comparison, law: Law, values: seq<int>)
    requires IsComparison(c) && IsLaw(c, law) && Distinct(values)
    ensures LawClosed(c.morphism, FineBases(c, law, values), CoarseBases(c, law, values))
    ensures IsMorphism(LawMorphism(c.morphism, FineBases(c, law, values), CoarseBases(c, law, values)))
    ensures forall i :: 0 <= i < |values| ==> IsMorphism(Parts(c, law.coarseDescend, values)[i])
  {
    GeneratedIsUnion(c, law, values);
    PartsAreMorphisms(c, law.coarseDescend, values);
    UnionPlainMap(Parts(c, law.coarseDescend, values));
  }

  lemma PartsAreMorphisms(c: Comparison, coarseDescend: seq<int>, values: seq<int>)
    requires IsComparison(c)
    ensures forall i :: 0 <= i < |values| ==> IsMorphism(Parts(c, coarseDescend, values)[i])
  {
    forall i | 0 <= i < |values| ensures IsMorphism(Parts(c, coarseDescend, values)[i]) {
      SubcomparisonIsMorphism(c, TargetsOf(coarseDescend, values[i]));
    }
  }

  /** The comparison generated directly from supports and descents. */
  function Generated(c: Comparison, law: Law): LawComparison
    requires IsComparison(c) && IsLaw(c, law)
  {
    var values := ValueOrder(law.fineDescend);
    var coarse, fine := CoarseBases(c, law, values), FineBases(c, law, values);
    GeneratedIsMorphism(c, law, values);
    MakeComparison(values, coarse, fine, PlainMap(LawMorphism(c.morphism, fine, coarse)))
  }

  /** Coordinates of the blocks: value-major, then the cells the part selected. */
  function BlockBasis(cells: seq<seq<int>>, values: seq<int>): seq<Coordinate>
    requires |cells| == |values|
  {
    if values == [] then [] else
      var n := |values| - 1;
      BlockBasis(cells[..n], values[..n]) + Labelled(cells[n], values[n])
  }

  function TotalCells(cells: seq<seq<int>>): (n: nat) {
    if cells == [] then 0 else TotalCells(cells[..|cells| - 1]) + |cells[|cells| - 1]|
  }

  /** The coordinates of block k follow those of the blocks before it. */
  lemma {:induction false} BlockBasisAt(cells: seq<seq<int>>, values: seq<int>, k: nat, i: nat)
    requires |cells| == |values| && k < |cells| && i < |cells[k]|
    ensures |BlockBasis(cells, values)| == TotalCells(cells)
    ensures TotalCells(cells[..k]) + i < TotalCells(cells)
    ensures BlockBasis(cells, values)[TotalCells(cells[..k]) + i] == (cells[k][i], values[k])
  {
    var m := |values| - 1;
    BlockBasisLength(cells, values);
    BlockBasisLength(cells[..m], values[..m]);
    if k < m {
      assert cells[..m][..k] == cells[..k];
      BlockBasisAt(cells[..m], values[..m], k, i);
    }
  }

  lemma {:induction false} BlockBasisLength(cells: seq<seq<int>>, values: seq<int>)
    requires |cells| == |values|
    ensures |BlockBasis(cells, values)| == TotalCells(cells)
  {
    if values != [] { BlockBasisLength(cells[..|cells| - 1], values[..|values| - 1]); }
  }

  function CellsOf(n: Nerve, supports: seq<Targets>, targets: seq<Targets>, dimension: nat): (cells: seq<seq<int>>)
    requires IsIncidence(n) && |supports| == n.vertices && dimension < 3
    ensures |cells| == |targets|
  {
    seq(|targets|, i requires 0 <= i < |targets| =>
      var selected := SelectCells(n, supports, targets[i]);
      if dimension == 0 then selected.vertices else if dimension == 1 then selected.edges else selected.faces)
  }

  function BlockBases(n: Nerve, supports: seq<Targets>, targets: seq<Targets>, values: seq<int>): Bases
    requires IsIncidence(n) && |supports| == n.vertices && |targets| == |values|
  {
    Bases(BlockBasis(CellsOf(n, supports, targets, 0), values),
          BlockBasis(CellsOf(n, supports, targets, 1), values),
          BlockBasis(CellsOf(n, supports, targets, 2), values))
  }

  function CoarseTargetSets(coarseDescend: seq<int>, values: seq<int>): (r: seq<Targets>)
    ensures |r| == |values|
  {
    seq(|values|, i requires 0 <= i < |values| => TargetsOf(coarseDescend, values[i]))
  }

  function FineTargetSets(c: Comparison, coarseDescend: seq<int>, values: seq<int>): (r: seq<Targets>)
    ensures |r| == |values|
  {
    seq(|values|, i requires 0 <= i < |values| => Preimage(c, TargetsOf(coarseDescend, values[i])))
  }

  /** The comparison assembled from the A-subcomparisons. */
  function BlockSum(c: Comparison, coarseDescend: seq<int>, values: seq<int>): LawComparison
    requires IsComparison(c)
  {
    PartsAreMorphisms(c, coarseDescend, values);
    MakeComparison(values,
                   BlockBases(c.morphism.coarse, c.coarseSupports, CoarseTargetSets(coarseDescend, values), values),
                   BlockBases(c.morphism.fine, c.fineSupports, FineTargetSets(c, coarseDescend, values), values),
                   DirectSum(PlainMaps(Parts(c, coarseDescend, values))))
  }

  lemma {:induction false} BasisIsBlockBasis(supports: seq<Targets>, descend: seq<int>, cells: seq<seq<int>>, values: seq<int>)
    requires |cells| == |values|
    requires forall i :: 0 <= i < |values| ==> cells[i] == Selected(supports, TargetsOf(descend, values[i]))
    ensures Basis(supports, descend, values) == BlockBasis(cells, values)
  {
    if values != [] {
      var n := |values| - 1;
      BasisIsBlockBasis(supports, descend, cells[..n], values[..n]);
      ValueCellsAreSelected(supports, descend, values[n]);
    }
  }

  lemma BasesAgree(n: Nerve, supports: seq<Targets>, descend: seq<int>, targets: seq<Targets>, values: seq<int>)
    requires IsIncidence(n) && |supports| == n.vertices && |targets| == |values|
    requires forall i :: 0 <= i < |values| ==> targets[i] == TargetsOf(descend, values[i])
    ensures LawBases(n, supports, descend, values) == BlockBases(n, supports, targets, values)
  {
    BasisIsBlockBasis(supports, descend, CellsOf(n, supports, targets, 0), values);
    BasisIsBlockBasis(EdgeSupports(n, supports), descend, CellsOf(n, supports, targets, 1), values);
    BasisIsBlockBasis(FaceSupports(n, supports), descend, CellsOf(n, supports, targets, 2), values);
  }

  lemma ComparisonParts(c: Comparison)
    requires IsComparison(c)
    ensures IsIncidence(c.morphism.coarse) && IsIncidence(c.morphism.fine)
    ensures |c.coarseSupports| == c.morphism.coarse.vertices && |c.fineSupports| == c.morphism.fine.vertices
  {
  }

  lemma CoarseBasesAgree(c: Comparison, law: Law, values: seq<int>)
    requires IsComparison(c)
    ensures CoarseBases(c, law, values)
         == BlockBases(c.morphism.coarse, c.coarseSupports, CoarseTargetSets(law.coarseDescend, values), values)
  {
    ComparisonParts(c);
    hide IsComparison, LawBases, BlockBases, IsMorphism, IsIncidence;
    BasesAgree(c.morphism.coarse, c.coarseSupports, law.coarseDescend, CoarseTargetSets(law.coarseDescend, values), values);
  }

  lemma FineBasesAgree(c: Comparison, law: Law, values: seq<int>)
    requires IsComparison(c) && IsLaw(c, law)
    ensures FineBases(c, law, values)
         == BlockBases(c.morphism.fine, c.fineSupports, FineTargetSets(c, law.coarseDescend, values), values)
  {
    ComparisonParts(c);
    hide IsComparison, LawBases, BlockBases, IsMorphism, IsLaw, IsIncidence;
    var targets := FineTargetSets(c, law.coarseDescend, values);
    forall i | 0 <= i < |values| ensures targets[i] == TargetsOf(law.fineDescend, values[i]) {
      PreimageOfValue(c, law, values[i]);
    }
    BasesAgree(c.morphism.fine, c.fineSupports, law.fineDescend, targets, values);
  }

  lemma MatricesAgree(c: Comparison, law: Law, values: seq<int>)
    requires IsComparison(c) && IsLaw(c, law) && Distinct(values)
    ensures LawClosed(c.morphism, FineBases(c, law, values), CoarseBases(c, law, values))
    ensures IsMorphism(LawMorphism(c.morphism, FineBases(c, law, values), CoarseBases(c, law, values)))
    ensures forall i :: 0 <= i < |values| ==> IsMorphism(Parts(c, law.coarseDescend, values)[i])
    ensures PlainMap(LawMorphism(c.morphism, FineBases(c, law, values), CoarseBases(c, law, values)))
         == DirectSum(PlainMaps(Parts(c, law.coarseDescend, values)))
  {
    hide IsComparison, IsLaw, IsMorphism, LawClosed, LawMorphism, FineBases, CoarseBases, DirectSum, PlainMap, UnionMorphism, Parts;
    GeneratedIsUnion(c, law, values);
    PartsAreMorphisms(c, law.coarseDescend, values);
    UnionPlainMap(Parts(c, law.coarseDescend, values));
  }

  /** Bases, d0, d1 and the three pullbacks of the two constructions are equal, entry for
      entry and in the same order. */
  lemma BlockReduction(c: Comparison, law: Law)
    requires IsComparison(c) && IsLaw(c, law)
    ensures Generated(c, law) == BlockSum(c, law.coarseDescend, ValueOrder(law.fineDescend))
  {
    ComparisonParts(c);
    hide IsComparison, IsLaw, IsMorphism, LawClosed, LawMorphism, FineBases, CoarseBases, BlockBases, DirectSum, PlainMap, Parts, IsIncidence;
    var values := ValueOrder(law.fineDescend);
    MatricesAgree(c, law, values);
    CoarseBasesAgree(c, law, values);
    FineBasesAgree(c, law, values);
  }

  // ---------- The generated comparison in terms of its data ----------

  /** The targets on which a descent takes the value. */
  ghost function Taking(descend: seq<int>, v: int): iset<int> {
    iset t | 0 <= t < |descend| && descend[t] == v
  }

  /** The coordinates are the (cell, value) with the value taken at a target that lies on all
      charts of the cell, value-major and then by cell. */
  ghost predicate AreCoordinates(n: Nerve, charts: seq<Targets>, descend: seq<int>, values: seq<int>, l: LawComplex)
    requires IsIncidence(n)
  {
    && (forall x :: x in l.chartBasis <==> 0 <= x.0 < n.vertices && Touches(charts, {x.0}, Taking(descend, x.1)))
    && (forall x :: x in l.edgeBasis <==> 0 <= x.0 < |n.edges| && Touches(charts, EdgeCharts(n, x.0), Taking(descend, x.1)))
    && (forall x :: x in l.faceBasis <==> 0 <= x.0 < |n.faces| && Touches(charts, FaceCharts(n, x.0), Taking(descend, x.1)))
    && InOrder(values, l.chartBasis) && InOrder(values, l.edgeBasis) && InOrder(values, l.faceBasis)
  }

  predicate InOrder(values: seq<int>, b: seq<Coordinate>) {
    forall i, j :: 0 <= i < j < |b| ==> InOrderAt(values, b, i, j)
  }

  predicate InOrderAt(values: seq<int>, b: seq<Coordinate>, i: nat, j: nat)
    requires i < j < |b|
  {
    b[i].1 in values && b[j].1 in values && Precedes(values, b[i], b[j])
  }

  function One(p: bool): real { if p then 1.0 else 0.0 }

  /** The row of an edge coordinate: the same value at the right end minus at the left. */
  predicate HasD0(n: Nerve, l: LawComplex) {
    && l.d0.rows == |l.edgeBasis| && l.d0.cols == |l.chartBasis|
    && forall i, j :: 0 <= i < |l.edgeBasis| && 0 <= j < |l.chartBasis| ==>
         && 0 <= l.edgeBasis[i].0 < |n.edges|
         && l.d0.entries[i][j] == One(l.chartBasis[j] == (n.edges[l.edgeBasis[i].0].1, l.edgeBasis[i].1))
                                - One(l.chartBasis[j] == (n.edges[l.edgeBasis[i].0].0, l.edgeBasis[i].1))
  }

  /** The row of a face coordinate: first edge minus second plus third, at the same value. */
  predicate HasD1(n: Nerve, l: LawComplex) {
    && l.d1.rows == |l.faceBasis| && l.d1.cols == |l.edgeBasis|
    && forall i, j :: 0 <= i < |l.faceBasis| && 0 <= j < |l.edgeBasis| ==>
         && 0 <= l.faceBasis[i].0 < |n.faces|
         && l.d1.entries[i][j] == One(l.edgeBasis[j] == (n.faces[l.faceBasis[i].0].0, l.faceBasis[i].1))
                                - One(l.edgeBasis[j] == (n.faces[l.faceBasis[i].0].1, l.faceBasis[i].1))
                                + One(l.edgeBasis[j] == (n.faces[l.faceBasis[i].0].2, l.faceBasis[i].1))
  }

  /** One at the image coordinate of the same value; nothing for a degenerate cell. */
  predicate HasPullback(cellMap: seq<Option<int>>, fine: seq<Coordinate>, coarse: seq<Coordinate>, p: Matrix) {
    && p.rows == |fine| && p.cols == |coarse|
    && forall i, j :: 0 <= i < |fine| && 0 <= j < |coarse| ==> IsPulled(cellMap, fine[i], coarse[j], p.entries[i][j])
  }

  predicate IsPulled(cellMap: seq<Option<int>>, x: Coordinate, y: Coordinate, entry: real) {
    0 <= x.0 < |cellMap| && entry == One(cellMap[x.0].Some? && y == (cellMap[x.0].value, x.1))
  }

  /** All of it: values, coordinates and the seven matrices. */
  ghost predicate IsGeneratedFrom(c: Comparison, law: Law, r: LawComparison)
    requires IsComparison(c)
  {
    && r.values == ValueOrder(law.fineDescend)
    && AreCoordinates(c.morphism.coarse, c.coarseSupports, law.coarseDescend, r.values, r.coarse)
    && AreCoordinates(c.morphism.fine, c.fineSupports, law.fineDescend, r.values, r.fine)
    && HasD0(c.morphism.coarse, r.coarse) && HasD1(c.morphism.coarse, r.coarse)
    && HasD0(c.morphism.fine, r.fine) && HasD1(c.morphism.fine, r.fine)
    && HasPullback(Nerves.Total(c.morphism.vertexMap), r.fine.chartBasis, r.coarse.chartBasis, r.pullback0)
    && HasPullback(c.morphism.edgeMap, r.fine.edgeBasis, r.coarse.edgeBasis, r.pullback1)
    && HasPullback(c.morphism.faceMap, r.fine.faceBasis, r.coarse.faceBasis, r.pullback2)
  }

  lemma PositionIs(b: seq<Coordinate>, x: Coordinate, j: nat)
    requires Distinct(b) && x in b && j < |b|
    ensures j == Position(b, x) <==> b[j] == x
  {
  }

  lemma OrderedIsDistinct(values: seq<int>, b: seq<Coordinate>)
    requires InOrder(values, b)
    ensures Distinct(b)
  {
    forall i, j | 0 <= i < j < |b| ensures b[i] != b[j] { assert InOrderAt(values, b, i, j); }
  }

  lemma GeneratedD0(n: Nerve, b: Bases)
    requires BasesClosed(n, b) && Distinct(b.charts) && IsIncidence(LawNerve(n, b))
    ensures HasD0(n, LawComplex(b.charts, b.edges, b.faces, D0(LawNerve(n, b)), D1(LawNerve(n, b))))
  {
    var r := LawNerve(n, b);
    forall i, j | 0 <= i < |b.edges| && 0 <= j < |b.charts|
      ensures 0 <= b.edges[i].0 < |n.edges|
      ensures D0(r).entries[i][j] == One(b.charts[j] == (n.edges[b.edges[i].0].1, b.edges[i].1))
                                   - One(b.charts[j] == (n.edges[b.edges[i].0].0, b.edges[i].1))
    {
      var x := b.edges[i];
      assert x in b.edges && HasEnds(n, b.charts, x);
      PositionIs(b.charts, (n.edges[x.0].0, x.1), j);
      PositionIs(b.charts, (n.edges[x.0].1, x.1), j);
      assert D0(r).entries[i] == EdgeRow(r.vertices, r.edges[i]);
    }
  }

  lemma GeneratedD1(n: Nerve, b: Bases)
    requires BasesClosed(n, b) && Distinct(b.edges) && IsIncidence(LawNerve(n, b))
    ensures HasD1(n, LawComplex(b.charts, b.edges, b.faces, D0(LawNerve(n, b)), D1(LawNerve(n, b))))
  {
    var r := LawNerve(n, b);
    forall i, j | 0 <= i < |b.faces| && 0 <= j < |b.edges|
      ensures 0 <= b.faces[i].0 < |n.faces|
      ensures D1(r).entries[i][j] == One(b.edges[j] == (n.faces[b.faces[i].0].0, b.faces[i].1))
                                   - One(b.edges[j] == (n.faces[b.faces[i].0].1, b.faces[i].1))
                                   + One(b.edges[j] == (n.faces[b.faces[i].0].2, b.faces[i].1))
    {
      var x := b.faces[i];
      assert x in b.faces && HasEdges(n, b.edges, x);
      PositionIs(b.edges, (n.faces[x.0].0, x.1), j);
      PositionIs(b.edges, (n.faces[x.0].1, x.1), j);
      PositionIs(b.edges, (n.faces[x.0].2, x.1), j);
      assert D1(r).entries[i] == FaceRow(|r.edges|, r.faces[i]);
    }
  }

  lemma GeneratedPullback(cellMap: seq<Option<int>>, fine: seq<Coordinate>, coarse: seq<Coordinate>)
    requires Distinct(coarse) && forall x :: x in fine ==> HasImage(cellMap, coarse, x)
    ensures MapsInto(LawMap(cellMap, fine, coarse), |coarse|)
    ensures HasPullback(cellMap, fine, coarse, Pullback(LawMap(cellMap, fine, coarse), |coarse|))
  {
    var images := LawMap(cellMap, fine, coarse);
    var p := Pullback(images, |coarse|);
    assert p.rows == |fine| && p.cols == |coarse|;
    forall i, j | 0 <= i < |fine| && 0 <= j < |coarse| ensures IsPulled(cellMap, fine[i], coarse[j], p.entries[i][j]) {
      assert fine[i] in fine;
      PulledEntry(cellMap, fine[i], coarse, j);
      assert images[i] == LawImage(cellMap, coarse, fine[i]);
      assert p.entries[i] == PullbackRow(images[i], |coarse|);
    }
  }

  lemma PulledEntry(cellMap: seq<Option<int>>, x: Coordinate, coarse: seq<Coordinate>, j: nat)
    requires Distinct(coarse) && HasImage(cellMap, coarse, x) && j < |coarse|
    ensures IsPulled(cellMap, x, coarse[j], PullbackRow(LawImage(cellMap, coarse, x), |coarse|)[j])
  {
    if cellMap[x.0].Some? { PositionIs(coarse, (cellMap[x.0].value, x.1), j); }
  }

  /** A basis over some cells, given which targets lie on each cell. */
  lemma BasisIsTouched(supports: seq<Targets>, descend: seq<int>, values: seq<int>, charts: seq<Targets>, vs: set<int>, x: Coordinate)
    requires forall v :: v in descend ==> v in values
    requires 0 <= x.0 < |supports| && forall t :: t in supports[x.0] <==> OnAll(charts, vs, t)
    ensures x in Basis(supports, descend, values) <==> x.1 in values && Touches(charts, vs, Taking(descend, x.1))
  {
    BasisHas(supports, descend, values, x);
    var targets := TargetsOf(descend, x.1);
    if x.0 in Selected(supports, targets) {
      var t :| t in supports[x.0] && t in targets;
      assert t in Taking(descend, x.1) && OnAll(charts, vs, t);
    }
    if Touches(charts, vs, Taking(descend, x.1)) {
      var t :| t in Taking(descend, x.1) && OnAll(charts, vs, t);
      assert t in supports[x.0] && t in targets;
      assert Meets(supports[x.0], targets);
    }
  }

  lemma TakenIsListed(charts: seq<Targets>, vs: set<int>, descend: seq<int>, values: seq<int>, v: int)
    requires Touches(charts, vs, Taking(descend, v)) && forall u :: u in descend ==> u in values
    ensures v in values
  {
    var t :| t in Taking(descend, v) && OnAll(charts, vs, t);
    assert descend[t] in descend;
  }

  lemma BasisOutOfRange(supports: seq<Targets>, descend: seq<int>, values: seq<int>, x: Coordinate)
    requires x in Basis(supports, descend, values)
    ensures 0 <= x.0 < |supports|
  {
    BasisHas(supports, descend, values, x);
  }

  lemma BasisInOrder(supports: seq<Targets>, descend: seq<int>, values: seq<int>)
    requires Distinct(values)
    ensures InOrder(values, Basis(supports, descend, values))
  {
    hide Basis;
    var b := Basis(supports, descend, values);
    forall i, j | 0 <= i < j < |b| ensures InOrderAt(values, b, i, j) { BasisIsOrdered(supports, descend, values, i, j); }
  }

  lemma ChartCoordinates(n: Nerve, charts: seq<Targets>, descend: seq<int>, values: seq<int>, x: Coordinate)
    requires IsIncidence(n) && |charts| == n.vertices && forall v :: v in descend ==> v in values
    ensures x in Basis(charts, descend, values) <==> 0 <= x.0 < n.vertices && Touches(charts, {x.0}, Taking(descend, x.1))
  {
    hide IsIncidence;
    if 0 <= x.0 < n.vertices {
      forall t ensures t in charts[x.0] <==> OnAll(charts, {x.0}, t) { assert x.0 in {x.0}; }
      BasisIsTouched(charts, descend, values, charts, {x.0}, x);
      if Touches(charts, {x.0}, Taking(descend, x.1)) { TakenIsListed(charts, {x.0}, descend, values, x.1); }
    } else if x in Basis(charts, descend, values) {
      BasisOutOfRange(charts, descend, values, x);
    }
  }

  lemma EdgeCoordinates(n: Nerve, charts: seq<Targets>, descend: seq<int>, values: seq<int>, x: Coordinate)
    requires IsIncidence(n) && |charts| == n.vertices && forall v :: v in descend ==> v in values
    ensures x in Basis(EdgeSupports(n, charts), descend, values) <==>
      0 <= x.0 < |n.edges| && Touches(charts, EdgeCharts(n, x.0), Taking(descend, x.1))
  {
    hide IsIncidence;
    var supports := EdgeSupports(n, charts);
    if 0 <= x.0 < |n.edges| {
      var vs := EdgeCharts(n, x.0);
      forall t ensures t in supports[x.0] <==> OnAll(charts, vs, t) { EdgeSupportIs(n, charts, x.0, t); }
      BasisIsTouched(supports, descend, values, charts, vs, x);
      if Touches(charts, vs, Taking(descend, x.1)) { TakenIsListed(charts, vs, descend, values, x.1); }
    } else if x in Basis(supports, descend, values) {
      BasisOutOfRange(supports, descend, values, x);
    }
  }

  lemma FaceCoordinates(n: Nerve, charts: seq<Targets>, descend: seq<int>, values: seq<int>, x: Coordinate)
    requires IsIncidence(n) && |charts| == n.vertices && forall v :: v in descend ==> v in values
    ensures x in Basis(FaceSupports(n, charts), descend, values) <==>
      0 <= x.0 < |n.faces| && Touches(charts, FaceCharts(n, x.0), Taking(descend, x.1))
  {
    var supports := FaceSupports(n, charts);
    if 0 <= x.0 < |n.faces| {
      var vs := FaceCharts(n, x.0);
      hide IsIncidence;
      forall t ensures t in supports[x.0] <==> OnAll(charts, vs, t) { FaceSupportIs(n, charts, x.0, t); }
      BasisIsTouched(supports, descend, values, charts, vs, x);
      if Touches(charts, vs, Taking(descend, x.1)) { TakenIsListed(charts, vs, descend, values, x.1); }
    } else if x in Basis(supports, descend, values) {
      BasisOutOfRange(supports, descend, values, x);
    }
  }

  lemma LawBasesAreCoordinates(n: Nerve, charts: seq<Targets>, descend: seq<int>, values: seq<int>, l: LawComplex)
    requires IsIncidence(n) && |charts| == n.vertices && Distinct(values) && forall v :: v in descend ==> v in values
    requires Bases(l.chartBasis, l.edgeBasis, l.faceBasis) == LawBases(n, charts, descend, values)
    ensures AreCoordinates(n, charts, descend, values, l)
  {
    hide Basis, InOrder, Touches, EdgeSupports, FaceSupports;
    BasisInOrder(charts, descend, values);
    BasisInOrder(EdgeSupports(n, charts), descend, values);
    BasisInOrder(FaceSupports(n, charts), descend, values);
    forall x ensures x in l.chartBasis <==> 0 <= x.0 < n.vertices && Touches(charts, {x.0}, Taking(descend, x.1)) {
      ChartCoordinates(n, charts, descend, values, x);
    }
    forall x ensures x in l.edgeBasis <==> 0 <= x.0 < |n.edges| && Touches(charts, EdgeCharts(n, x.0), Taking(descend, x.1)) {
      EdgeCoordinates(n, charts, descend, values, x);
    }
    forall x ensures x in l.faceBasis <==> 0 <= x.0 < |n.faces| && Touches(charts, FaceCharts(n, x.0), Taking(descend, x.1)) {
      FaceCoordinates(n, charts, descend, values, x);
    }
  }

  /** Every coarse value is taken on a fine target, pi being onto. */
  lemma CoarseValuesListed(c: Comparison, law: Law)
    requires IsComparison(c) && IsLaw(c, law)
    ensures forall v :: v in law.coarseDescend ==> v in ValueOrder(law.fineDescend)
  {
    forall v | v in law.coarseDescend ensures v in law.fineDescend {
      var u :| 0 <= u < |law.coarseDescend| && law.coarseDescend[u] == v;
      assert u in c.pi;
      var t :| 0 <= t < |c.pi| && c.pi[t] == u;
      assert law.fineDescend[t] == v;
    }
  }

  lemma GeneratedMatrices(m: NerveMorphism, fine: Bases, coarse: Bases, values: seq<int>, r: LawComparison)
    requires LawClosed(m, fine, coarse) && IsMorphism(LawMorphism(m, fine, coarse))
    requires Distinct(fine.charts) && Distinct(fine.edges) && Distinct(coarse.charts) && Distinct(coarse.edges) && Distinct(coarse.faces)
    requires r == MakeComparison(values, coarse, fine, PlainMap(LawMorphism(m, fine, coarse)))
    ensures HasD0(m.coarse, r.coarse) && HasD1(m.coarse, r.coarse) && HasD0(m.fine, r.fine) && HasD1(m.fine, r.fine)
    ensures HasPullback(Nerves.Total(m.vertexMap), fine.charts, coarse.charts, r.pullback0)
    ensures HasPullback(m.edgeMap, fine.edges, coarse.edges, r.pullback1)
    ensures HasPullback(m.faceMap, fine.faces, coarse.faces, r.pullback2)
  {
    hide HasD0, HasD1, HasPullback, IsIncidence, D0, D1, Pullback;
    GeneratedParts(m, fine, coarse);
    GeneratedD0(m.coarse, coarse);
    GeneratedD1(m.coarse, coarse);
    GeneratedD0(m.fine, fine);
    GeneratedD1(m.fine, fine);
    GeneratedPullback(Nerves.Total(m.vertexMap), fine.charts, coarse.charts);
    GeneratedPullback(m.edgeMap, fine.edges, coarse.edges);
    GeneratedPullback(m.faceMap, fine.faces, coarse.faces);
  }

  lemma BasesAreDistinct(n: Nerve, charts: seq<Targets>, descend: seq<int>, values: seq<int>)
    requires IsIncidence(n) && |charts| == n.vertices && Distinct(values)
    ensures var b := LawBases(n, charts, descend, values); Distinct(b.charts) && Distinct(b.edges) && Distinct(b.faces)
  {
    hide Basis, InOrder, EdgeSupports, FaceSupports, IsIncidence;
    BasisInOrder(charts, descend, values);
    BasisInOrder(EdgeSupports(n, charts), descend, values);
    BasisInOrder(FaceSupports(n, charts), descend, values);
    OrderedIsDistinct(values, Basis(charts, descend, values));
    OrderedIsDistinct(values, Basis(EdgeSupports(n, charts), descend, values));
    OrderedIsDistinct(values, Basis(FaceSupports(n, charts), descend, values));
  }

  /** Entry for entry, what the generated comparison is, from supports, descents and maps. */
  lemma GeneratedMeans(c: Comparison, law: Law)
    requires IsComparison(c) && IsLaw(c, law)
    ensures IsGeneratedFrom(c, law, Generated(c, law))
  {
    ComparisonParts(c);
    CoarseValuesListed(c, law);
    var values, r := ValueOrder(law.fineDescend), Generated(c, law);
    var coarse, fine := CoarseBases(c, law, values), FineBases(c, law, values);
    hide IsComparison, IsLaw, IsMorphism, LawClosed, LawMorphism, LawBases, PlainMap, HasD0, HasD1, HasPullback, AreCoordinates;
    hide IsIncidence, ValueOrder;
    GeneratedIsMorphism(c, law, values);
    BasesAreDistinct(c.morphism.coarse, c.coarseSupports, law.coarseDescend, values);
    BasesAreDistinct(c.morphism.fine, c.fineSupports, law.fineDescend, values);
    LawBasesAreCoordinates(c.morphism.coarse, c.coarseSupports, law.coarseDescend, values, r.coarse);
    LawBasesAreCoordinates(c.morphism.fine, c.fineSupports, law.fineDescend, values, r.fine);
    GeneratedMatrices(c.morphism, fine, coarse, values, r);
  }

  // ---------- The two builders ----------

  /** Every value class is a legal A: nonempty, and among the coarse targets. */
  lemma ValueClassesAreLegal(c: Comparison, law: Law, v: int)
    requires IsComparison(c) && IsLaw(c, law)
    ensures InRange(TargetsOf(law.coarseDescend, v), c.coarseTargets)
    ensures v in ValueOrder(law.fineDescend) <==> TargetsOf(law.coarseDescend, v) != {}
  {
    var a := TargetsOf(law.coarseDescend, v);
    if v in ValueOrder(law.fineDescend) {
      var t :| 0 <= t < |law.fineDescend| && law.fineDescend[t] == v;
      assert c.pi[t] in a;
    }
    if a != {} {
      var u :| u in a;
      assert u in c.pi;
      var t :| 0 <= t < |c.pi| && c.pi[t] == u;
      assert law.fineDescend[t] == v;
    }
  }

  method FillComplex(n: Nerve, b: Bases) returns (r: LawComplex)
    requires BasesClosed(n, b) && IsIncidence(LawNerve(n, b))
    ensures r == LawComplex(b.charts, b.edges, b.faces, D0(LawNerve(n, b)), D1(LawNerve(n, b)))
  {
    var d0 := FillD0(LawNerve(n, b));
    var d1 := FillD1(LawNerve(n, b));
    r := LawComplex(b.charts, b.edges, b.faces, d0, d1);
  }

  method FillPullbacks(m: NerveMorphism) returns (p0: Matrix, p1: Matrix, p2: Matrix)
    requires IsMorphism(m)
    ensures p0 == P0(m) && p1 == P1(m) && p2 == P2(m)
  {
    MorphismMapsInto(m);
    p0 := FillPullback(Nerves.Total(m.vertexMap), m.coarse.vertices);
    p1 := FillPullback(m.edgeMap, |m.coarse.edges|);
    p2 := FillPullback(m.faceMap, |m.coarse.faces|);
  }

  /** An invalid law is refused; a valid one gives the generated comparison, whose closing
      analysis cannot raise. */
  method BuildLawGeneratedComparison(c: Comparison, law: Law) returns (r: Option<LawComparison>)
    requires IsComparison(c)
    ensures r.Some? <==> IsLaw(c, law)
    ensures r.Some? ==> r.value == Generated(c, law) && IsGeneratedFrom(c, law, r.value) && IsCochainMap(Underlying(r.value))
  {
    if !IsLaw(c, law) { return None; }
    GeneratedMeans(c, law);
    hide IsGeneratedFrom;
    hide IsComparison, IsLaw, IsMorphism, LawClosed, LawMorphism, FineBases, CoarseBases, PlainMap, D0, D1, P0, P1, P2, IsIncidence;
    var values := GeneratedValueOrder(law.fineDescend);
    var coarse, fine := CoarseBases(c, law, values), FineBases(c, law, values);
    MatricesAgree(c, law, values);
    var m := LawMorphism(c.morphism, fine, coarse);
    GeneratedParts(c.morphism, fine, coarse);
    var coarseComplex := FillComplex(c.morphism.coarse, coarse);
    var fineComplex := FillComplex(c.morphism.fine, fine);
    var p0, p1, p2 := FillPullbacks(m);
    r := Some(LawComparison(values, coarseComplex, fineComplex, p0, p1, p2));
    var analysis := AnalyzeComplexMap(Underlying(r.value));
  }

  lemma GeneratedParts(m: NerveMorphism, fine: Bases, coarse: Bases)
    requires LawClosed(m, fine, coarse) && IsMorphism(LawMorphism(m, fine, coarse))
    ensures BasesClosed(m.fine, fine) && BasesClosed(m.coarse, coarse)
    ensures IsIncidence(LawNerve(m.fine, fine)) && IsIncidence(LawNerve(m.coarse, coarse))
    ensures var l := LawMorphism(m, fine, coarse);
            PlainMap(l) == ComplexMap(D0(LawNerve(m.coarse, coarse)), D1(LawNerve(m.coarse, coarse)),
                                      D0(LawNerve(m.fine, fine)), D1(LawNerve(m.fine, fine)), P0(l), P1(l), P2(l))
    ensures IsCochainMap(PlainMap(LawMorphism(m, fine, coarse)))
  {
    PlainCoefficients(LawMorphism(m, fine, coarse));
  }

  function Field(c: ComplexMap, k: nat): Matrix {
    match k
    case 0 => c.coarseD0
    case 1 => c.coarseD1
    case 2 => c.fineD0
    case 3 => c.fineD1
    case 4 => c.pullback0
    case 5 => c.pullback1
    case _ => c.pullback2
  }

  function Fields(cs: seq<ComplexMap>, k: nat): (ms: seq<Matrix>)
    ensures |ms| == |cs| && forall i :: 0 <= i < |ms| ==> ms[i] == Field(cs[i], k)
  {
    seq(|cs|, i requires 0 <= i < |cs| => Field(cs[i], k))
  }

  lemma {:induction false} FieldOfDirectSum(cs: seq<ComplexMap>, k: nat)
    ensures Field(DirectSum(cs), k) == BlockDiag(Fields(cs, k))
  {
    hide Diag, Field, SumOfTwo, BlockDiag;
    if cs == [] {
      EmptyField(k);
      assert Fields(cs, k) == [];
    } else {
      var n := |cs| - 1;
      FieldOfDirectSum(cs[..n], k);
      assert Fields(cs, k)[..n] == Fields(cs[..n], k);
      FieldOfSum(DirectSum(cs[..n]), cs[n], k);
      LastBlock(Fields(cs, k));
    }
  }

  lemma LastBlock(ms: seq<Matrix>)
    requires ms != []
    ensures BlockDiag(ms) == Diag(BlockDiag(ms[..|ms| - 1]), ms[|ms| - 1])
  {
  }

  lemma EmptyField(k: nat)
    ensures Field(DirectSum([]), k) == BlockDiag([])
  {
  }

  lemma FieldOfSum(c: ComplexMap, d: ComplexMap, k: nat)
    ensures Field(SumOfTwo(c, d), k) == Diag(Field(c, k), Field(d, k))
  {
    hide Diag;
  }

  lemma SevenFields(c: ComplexMap)
    ensures c == ComplexMap(Field(c, 0), Field(c, 1), Field(c, 2), Field(c, 3), Field(c, 4), Field(c, 5), Field(c, 6))
  {
  }

  /** The seven block_diagonal calls. */
  method BlockDiagonals(cs: seq<ComplexMap>) returns (r: ComplexMap)
    ensures r == DirectSum(cs)
  {
    hide BlockDiag, DirectSum, Field;
    SevenFields(DirectSum(cs));
    forall k: nat | k < 7 ensures Field(DirectSum(cs), k) == BlockDiag(Fields(cs, k)) { FieldOfDirectSum(cs, k); }
    var m0 := BlockDiagonal(Fields(cs, 0));
    var m1 := BlockDiagonal(Fields(cs, 1));
    var m2 := BlockDiagonal(Fields(cs, 2));
    var m3 := BlockDiagonal(Fields(cs, 3));
    var m4 := BlockDiagonal(Fields(cs, 4));
    var m5 := BlockDiagonal(Fields(cs, 5));
    var m6 := BlockDiagonal(Fields(cs, 6));
    r := ComplexMap(m0, m1, m2, m3, m4, m5, m6);
  }

  /** The matrices of each part. */
  method BuildPlainMaps(parts: seq<NerveMorphism>) returns (cs: seq<ComplexMap>)
    requires forall i :: 0 <= i < |parts| ==> IsMorphism(parts[i])
    ensures cs == PlainMaps(parts)
  {
    hide IsMorphism, D0, D1, P0, P1, P2, IsIncidence;
    cs := [];
    for i := 0 to |parts|
      invariant |cs| == i && forall j :: 0 <= j < i ==> cs[j] == PlainMap(parts[j])
    {
      MorphismParts(parts[i]);
      var coarseD0 := FillD0(parts[i].coarse);
      var coarseD1 := FillD1(parts[i].coarse);
      var fineD0 := FillD0(parts[i].fine);
      var fineD1 := FillD1(parts[i].fine);
      var p0, p1, p2 := FillPullbacks(parts[i]);
      cs := cs + [ComplexMap(coarseD0, coarseD1, fineD0, fineD1, p0, p1, p2)];
    }
  }

  /** The class of a value is a legal set of targets. */
  predicate IsLegalClass(c: Comparison, coarseDescend: seq<int>, v: int) {
    TargetsOf(coarseDescend, v) != {} && InRange(TargetsOf(coarseDescend, v), c.coarseTargets)
  }

  /** The class of a value, read off the descent alone. */
  lemma LegalClassMeans(c: Comparison, coarseDescend: seq<int>, v: int)
    ensures IsLegalClass(c, coarseDescend, v) <==>
      && (exists t :: 0 <= t < |coarseDescend| && coarseDescend[t] == v)
      && (forall t :: 0 <= t < |coarseDescend| && coarseDescend[t] == v ==> t < c.coarseTargets)
  {
    var targets := TargetsOf(coarseDescend, v);
    if t :| 0 <= t < |coarseDescend| && coarseDescend[t] == v { assert t in targets; }
    forall t | 0 <= t < |coarseDescend| && coarseDescend[t] == v ensures t in targets {}
    if targets != {} { var t :| t in targets; }
  }

  predicate AllLegal(c: Comparison, coarseDescend: seq<int>, values: seq<int>) {
    forall i :: 0 <= i < |values| ==> IsLegalClass(c, coarseDescend, values[i])
  }

  method BuildParts(c: Comparison, coarseDescend: seq<int>, values: seq<int>) returns (r: Option<seq<NerveMorphism>>)
    requires IsComparison(c)
    ensures r.Some? <==> AllLegal(c, coarseDescend, values)
    ensures r.Some? ==> r.value == Parts(c, coarseDescend, values)
  {
    hide IsComparison;
    var parts: seq<NerveMorphism> := [];
    for i := 0 to |values|
      invariant |parts| == i
      invariant forall j :: 0 <= j < i ==>
        IsLegalClass(c, coarseDescend, values[j]) && parts[j] == Subcomparison(c, TargetsOf(coarseDescend, values[j]))
    {
      var part := CoordinateSubcomparison(c, TargetsOf(coarseDescend, values[i]));
      if part.None? { return None; }
      parts := parts + [part.value.morphism];
    }
    return Some(parts);
  }

  /** Refused exactly when the class of some value is empty or leaves the coarse targets;
      otherwise the sum of the parts, whose closing analysis cannot raise. For the values of
      a valid law it is the generated comparison. */
  method BuildValueBlockDirectSum(c: Comparison, coarseDescend: seq<int>, values: seq<int>) returns (r: Option<LawComparison>)
    requires IsComparison(c)
    ensures r.Some? <==> AllLegal(c, coarseDescend, values)
    ensures r.Some? ==> r.value == BlockSum(c, coarseDescend, values) && IsCochainMap(Underlying(r.value))
    ensures forall law :: IsLaw(c, law) && law.coarseDescend == coarseDescend && ValueOrder(law.fineDescend) == values ==>
      r == Some(Generated(c, law))
  {
    ComparisonParts(c);
    hide IsComparison, IsLaw, IsMorphism, BlockBases, DirectSum, PlainMap, Parts, Generated, IsIncidence, IsCochainMap, AllLegal;
    forall law | IsLaw(c, law) && law.coarseDescend == coarseDescend && ValueOrder(law.fineDescend) == values
      ensures AllLegal(c, coarseDescend, values)
    {
      ClassesOfLawAreLegal(c, law);
    }
    var parts := BuildParts(c, coarseDescend, values);
    if parts.None? { return None; }
    PartsAreMorphisms(c, coarseDescend, values);
    var maps := BuildPlainMaps(parts.value);
    var sum := BlockDiagonals(maps);
    r := Some(MakeComparison(values,
                             BlockBases(c.morphism.coarse, c.coarseSupports, CoarseTargetSets(coarseDescend, values), values),
                             BlockBases(c.morphism.fine, c.fineSupports, FineTargetSets(c, coarseDescend, values), values),
                             sum));
    SumIsCochainMap(Parts(c, coarseDescend, values));
    var analysis := AnalyzeComplexMap(Underlying(r.value));
    forall law | IsLaw(c, law) && law.coarseDescend == coarseDescend && ValueOrder(law.fineDescend) == values
      ensures r == Some(Generated(c, law))
    {
      BlockReduction(c, law);
    }
  }

  lemma ClassesOfLawAreLegal(c: Comparison, law: Law)
    requires IsComparison(c) && IsLaw(c, law)
    ensures AllLegal(c, law.coarseDescend, ValueOrder(law.fineDescend))
  {
    var values := ValueOrder(law.fineDescend);
    forall i | 0 <= i < |values| ensures IsLegalClass(c, law.coarseDescend, values[i]) {
      assert values[i] in values;
      ValueClassesAreLegal(c, law, values[i]);
    }
  }

  lemma SumIsCochainMap(parts: seq<NerveMorphism>)
    requires forall i :: 0 <= i < |parts| ==> IsMorphism(parts[i])
    ensures IsCochainMap(DirectSum(PlainMaps(parts)))
  {
    UnionPlainMap(parts);
    PlainCoefficients(UnionMorphism(parts));
  }

  // ---------- Dimensions add over the value classes ----------

  function SumDefects(items: seq<H1Analysis>): (int, int) {
    if items == [] then (0, 0) else
      var before, last := SumDefects(items[..|items| - 1]), Defect(items[|items| - 1]);
      (before.0 + last.0, before.1 + last.1)
  }

  lemma {:induction false} DefectOfTotal(items: seq<H1Analysis>)
    ensures Defect(DirectSums.Total(items)) == SumDefects(items)
  {
    if items != [] { DefectOfTotal(items[..|items| - 1]); }
  }

  /** The analysis of a law is the direct-sum analysis of J_A over its value classes, each
      computed with constant one-dimensional coefficients. */
  lemma LawAnalysisIsSumOverValues(c: Comparison, law: Law)
    requires IsComparison(c) && IsLaw(c, law)
    ensures var parts := Parts(c, law.coarseDescend, ValueOrder(law.fineDescend));
            && IsCochainMap(Underlying(Generated(c, law)))
            && (forall i :: 0 <= i < |parts| ==> IsMorphism(parts[i]) && IsCochainMap(CoefficientMap(parts[i], Identity(1))))
            && exists items: seq<H1Analysis> ::
                 |items| == |parts|
                 && (forall i :: 0 <= i < |parts| ==> items[i] == AnalysisOf(CoefficientMap(parts[i], Identity(1))))
                 && AnalysisOf(Underlying(Generated(c, law))) == DirectSums.Total(items)
                 && Defect(AnalysisOf(Underlying(Generated(c, law)))) == SumDefects(items)
  {
    var parts := Parts(c, law.coarseDescend, ValueOrder(law.fineDescend));
    PartsAreMorphisms(c, law.coarseDescend, ValueOrder(law.fineDescend));
    forall i | 0 <= i < |parts| ensures IsCochainMap(PlainMap(parts[i])) && CoefficientMap(parts[i], Identity(1)) == PlainMap(parts[i]) {
      PlainCoefficients(parts[i]);
    }
    BlockReduction(c, law);
    AnalysisOfDirectSum(PlainMaps(parts));
    var items := Analyses(PlainMaps(parts));
    DefectOfTotal(items);
  }
}
