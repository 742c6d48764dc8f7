/**
 Disjoint unions of nerves and morphisms: their incidence matrices are block diagonal, so
 their comparison is the direct sum of the comparisons of the parts.
 */
module NerveUnions {
  import opened Options
  import opened Matrices
  import opened Kronecker
  import opened Cohomology
  import opened DirectSums
  import opened Nerves

  // ---------- Two parts ----------

  function ShiftEdge(e: Edge, v: int): Edge { (e.0 + v, e.1 + v) }

  function ShiftFace(f: Face, e: int): Face { (f.0 + e, f.1 + e, f.2 + e) }

  function ShiftEdges(edges: seq<Edge>, v: int): (r: seq<Edge>)
    ensures |r| == |edges| && forall i :: 0 <= i < |r| ==> r[i] == ShiftEdge(edges[i], v)
  {
    seq(|edges|, i requires 0 <= i < |edges| => ShiftEdge(edges[i], v))
  }

  function ShiftFaces(faces: seq<Face>, e: int): (r: seq<Face>)
    ensures |r| == |faces| && forall i :: 0 <= i < |r| ==> r[i] == ShiftFace(faces[i], e)
  {
    seq(|faces|, i requires 0 <= i < |faces| => ShiftFace(faces[i], e))
  }

  /** The second nerve numbered after the first. */
  function JoinNerves(a: Nerve, b: Nerve): Nerve {
    Nerve(a.vertices + b.vertices, a.edges + ShiftEdges(b.edges, a.vertices), a.faces + ShiftFaces(b.faces, |a.edges|))
  }

  lemma JoinIsIncidence(a: Nerve, b: Nerve)
    requires IsIncidence(a) && IsIncidence(b)
    ensures IsIncidence(JoinNerves(a, b))
  {
    var n := JoinNerves(a, b);
    forall i | 0 <= i < |n.edges| ensures EdgeInRange(n, n.edges[i]) {
      if i < |a.edges| { assert EdgeInRange(a, a.edges[i]); } else { assert EdgeInRange(b, b.edges[i - |a.edges|]); }
    }
    forall i | 0 <= i < |n.faces| ensures FaceInRange(n, n.faces[i]) && FaceCloses(n, n.faces[i]) {
      if i < |a.faces| {
        assert FaceCloses(a, a.faces[i]);
      } else {
        assert FaceCloses(b, b.faces[i - |a.faces|]);
      }
    }
  }

  lemma JoinD0Row(a: Nerve, b: Nerve, i: nat)
    requires IsIncidence(a) && IsIncidence(b) && IsIncidence(JoinNerves(a, b)) && i < |a.edges| + |b.edges|
    ensures D0(JoinNerves(a, b)).entries[i] == DiagRow(D0(a), D0(b), i)
  {
    hide EdgeRow, FaceCloses, FaceInRange;
    if i < |a.edges| {
      EdgeRowPadRight(a.vertices, b.vertices, a.edges[i]);
    } else {
      EdgeRowPadLeft(a.vertices, b.vertices, b.edges[i - |a.edges|]);
    }
  }

  lemma JoinD0(a: Nerve, b: Nerve)
    requires IsIncidence(a) && IsIncidence(b)
    ensures IsIncidence(JoinNerves(a, b)) && D0(JoinNerves(a, b)) == Diag(D0(a), D0(b))
  {
    JoinIsIncidence(a, b);
    hide IsIncidence, D0, DiagRow;
    var n := JoinNerves(a, b);
    forall i | 0 <= i < |n.edges| ensures D0(n).entries[i] == DiagRow(D0(a), D0(b), i) { JoinD0Row(a, b, i); }
    EqualByRows(D0(n), Diag(D0(a), D0(b)));
  }

  lemma EdgeRowPadRight(m: nat, n: nat, e: Edge)
    requires 0 <= e.0 < m && 0 <= e.1 < m
    ensures EdgeRow(m + n, e) == EdgeRow(m, e) + Zeros(n)
  {
  }

  lemma EdgeRowPadLeft(m: nat, n: nat, e: Edge)
    requires 0 <= e.0 < n && 0 <= e.1 < n
    ensures EdgeRow(m + n, ShiftEdge(e, m)) == Zeros(m) + EdgeRow(n, e)
  {
  }

  lemma FaceRowPadRight(m: nat, n: nat, f: Face)
    requires 0 <= f.0 < m && 0 <= f.1 < m && 0 <= f.2 < m
    ensures FaceRow(m + n, f) == FaceRow(m, f) + Zeros(n)
  {
  }

  lemma FaceRowPadLeft(m: nat, n: nat, f: Face)
    requires 0 <= f.0 < n && 0 <= f.1 < n && 0 <= f.2 < n
    ensures FaceRow(m + n, ShiftFace(f, m)) == Zeros(m) + FaceRow(n, f)
  {
  }

  lemma JoinD1Row(a: Nerve, b: Nerve, i: nat)
    requires IsIncidence(a) && IsIncidence(b) && IsIncidence(JoinNerves(a, b)) && i < |a.faces| + |b.faces|
    ensures D1(JoinNerves(a, b)).entries[i] == DiagRow(D1(a), D1(b), i)
  {
    hide FaceRow, FaceCloses, EdgeInRange;
    if i < |a.faces| {
      FaceRowPadRight(|a.edges|, |b.edges|, a.faces[i]);
    } else {
      FaceRowPadLeft(|a.edges|, |b.edges|, b.faces[i - |a.faces|]);
    }
  }

  lemma JoinD1(a: Nerve, b: Nerve)
    requires IsIncidence(a) && IsIncidence(b)
    ensures IsIncidence(JoinNerves(a, b)) && D1(JoinNerves(a, b)) == Diag(D1(a), D1(b))
  {
    JoinIsIncidence(a, b);
    hide IsIncidence, D1, DiagRow;
    var n := JoinNerves(a, b);
    forall i | 0 <= i < |n.faces| ensures D1(n).entries[i] == DiagRow(D1(a), D1(b), i) {
      JoinD1Row(a, b, i);
    }
    EqualByRows(D1(n), Diag(D1(a), D1(b)));
  }

  // ---------- Two morphisms ----------

  function ShiftImage(image: Option<int>, k: int): Option<int> {
    if image.None? then None else Some(image.value + k)
  }

  function ShiftMap(cellMap: seq<Option<int>>, k: int): (r: seq<Option<int>>)
    ensures |r| == |cellMap| && forall i :: 0 <= i < |r| ==> r[i] == ShiftImage(cellMap[i], k)
  {
    seq(|cellMap|, i requires 0 <= i < |cellMap| => ShiftImage(cellMap[i], k))
  }

  function ShiftVertexMap(cellMap: seq<int>, k: int): (r: seq<int>)
    ensures |r| == |cellMap| && forall i :: 0 <= i < |r| ==> r[i] == cellMap[i] + k
  {
    seq(|cellMap|, i requires 0 <= i < |cellMap| => cellMap[i] + k)
  }

  function JoinMorphisms(a: NerveMorphism, b: NerveMorphism): NerveMorphism {
    NerveMorphism(
      JoinNerves(a.coarse, b.coarse), JoinNerves(a.fine, b.fine),
      a.vertexMap + ShiftVertexMap(b.vertexMap, a.coarse.vertices),
      a.edgeMap + ShiftMap(b.edgeMap, |a.coarse.edges|),
      a.faceMap + ShiftMap(b.faceMap, |a.coarse.faces|))
  }

  lemma JoinEdgeMaps(a: NerveMorphism, b: NerveMorphism, i: nat)
    requires IsMorphism(a) && IsMorphism(b) && i < |a.fine.edges| + |b.fine.edges|
    requires IsIncidence(JoinNerves(a.fine, b.fine))
    ensures EdgeMaps(JoinMorphisms(a, b), i)
  {
    if i < |a.fine.edges| { assert EdgeMaps(a, i); } else { assert EdgeMaps(b, i - |a.fine.edges|); }
  }

  lemma JoinFaceMapsLeft(a: NerveMorphism, b: NerveMorphism, i: nat)
    requires IsMorphism(a) && IsMorphism(b) && i < |a.fine.faces|
    requires IsIncidence(JoinNerves(a.fine, b.fine))
    ensures FaceMaps(JoinMorphisms(a, b), i)
  {
    assert FaceMaps(a, i);
  }

  /** FaceMaps on the data it reads. */
  predicate FaceImage(edgeMap: seq<Option<int>>, coarseFaces: seq<Face>, f: Face, image: Option<int>) {
    && 0 <= f.0 < |edgeMap| && 0 <= f.1 < |edgeMap| && 0 <= f.2 < |edgeMap|
    && var boundary := (edgeMap[f.0], edgeMap[f.1], edgeMap[f.2]);
       match image
       case None => boundary == (None, None, None)
       case Some(g) =>
         0 <= g < |coarseFaces| && boundary == (Some(coarseFaces[g].0), Some(coarseFaces[g].1), Some(coarseFaces[g].2))
  }

  lemma ShiftFaceImage(edgesA: seq<Option<int>>, facesA: seq<Face>, coarseEdges: nat,
                       edgesB: seq<Option<int>>, facesB: seq<Face>, f: Face, image: Option<int>)
    requires FaceImage(edgesB, facesB, f, image)
    ensures FaceImage(edgesA + ShiftMap(edgesB, coarseEdges), facesA + ShiftFaces(facesB, coarseEdges),
                      ShiftFace(f, |edgesA|), ShiftImage(image, |facesA|))
  {
  }

  lemma FaceImageOf(m: NerveMorphism, i: nat)
    requires IsMorphism(m) && i < |m.fine.faces|
    ensures |m.faceMap| == |m.fine.faces| && |m.edgeMap| == |m.fine.edges|
    ensures FaceImage(m.edgeMap, m.coarse.faces, m.fine.faces[i], m.faceMap[i])
  {
    assert FaceMaps(m, i) && FaceInRange(m.fine, m.fine.faces[i]);
  }

  lemma FaceImageIsFaceMaps(m: NerveMorphism, i: nat)
    requires i < |m.fine.faces| == |m.faceMap| && |m.edgeMap| == |m.fine.edges|
    requires FaceImage(m.edgeMap, m.coarse.faces, m.fine.faces[i], m.faceMap[i])
    ensures FaceInRange(m.fine, m.fine.faces[i]) && FaceMaps(m, i)
  {
  }

  lemma MapSizes(m: NerveMorphism)
    requires IsMorphism(m)
    ensures |m.faceMap| == |m.fine.faces| && |m.edgeMap| == |m.fine.edges|
  {
  }

  lemma JoinFaceMapsRight(a: NerveMorphism, b: NerveMorphism, i: nat)
    requires IsMorphism(a) && IsMorphism(b) && |a.fine.faces| <= i < |a.fine.faces| + |b.fine.faces|
    requires IsIncidence(JoinNerves(a.fine, b.fine))
    ensures FaceMaps(JoinMorphisms(a, b), i)
  {
    hide IsMorphism, IsIncidence, FaceMaps, FaceImage, FaceInRange;
    var j, m := i - |a.fine.faces|, JoinMorphisms(a, b);
    MapSizes(a);
    FaceImageOf(b, j);
    ShiftFaceImage(a.edgeMap, a.coarse.faces, |a.coarse.edges|, b.edgeMap, b.coarse.faces, b.fine.faces[j], b.faceMap[j]);
    assert m.fine.faces[i] == ShiftFace(b.fine.faces[j], |a.edgeMap|);
    FaceImageIsFaceMaps(m, i);
  }

  lemma JoinIsMorphism(a: NerveMorphism, b: NerveMorphism)
    requires IsMorphism(a) && IsMorphism(b)
    ensures IsMorphism(JoinMorphisms(a, b))
  {
    var m := JoinMorphisms(a, b);
    JoinIsIncidence(a.coarse, b.coarse);
    JoinIsIncidence(a.fine, b.fine);
    forall i | 0 <= i < |m.edgeMap| ensures EdgeMaps(m, i) { JoinEdgeMaps(a, b, i); }
    forall i | 0 <= i < |m.faceMap| ensures FaceMaps(m, i) {
      if i < |a.fine.faces| { JoinFaceMapsLeft(a, b, i); } else { JoinFaceMapsRight(a, b, i); }
    }
  }

  lemma JoinPullbackRow(f: seq<Option<int>>, m: nat, g: seq<Option<int>>, n: nat, i: nat)
    requires MapsInto(f, m) && MapsInto(g, n) && MapsInto(f + ShiftMap(g, m), m + n) && i < |f| + |g|
    ensures Pullback(f + ShiftMap(g, m), m + n).entries[i] == DiagRow(Pullback(f, m), Pullback(g, n), i)
  {
    if i < |f| {
      PullbackRowPadRight(m, n, f[i]);
    } else {
      PullbackRowPadLeft(m, n, g[i - |f|]);
    }
  }

  lemma JoinPullback(f: seq<Option<int>>, m: nat, g: seq<Option<int>>, n: nat)
    requires MapsInto(f, m) && MapsInto(g, n)
    ensures MapsInto(f + ShiftMap(g, m), m + n)
    ensures Pullback(f + ShiftMap(g, m), m + n) == Diag(Pullback(f, m), Pullback(g, n))
  {
    var h := f + ShiftMap(g, m);
    assert MapsInto(h, m + n);
    hide MapsInto, Pullback, DiagRow;
    forall i | 0 <= i < |h| ensures Pullback(h, m + n).entries[i] == DiagRow(Pullback(f, m), Pullback(g, n), i) {
      JoinPullbackRow(f, m, g, n, i);
    }
    EqualByRows(Pullback(h, m + n), Diag(Pullback(f, m), Pullback(g, n)));
  }

  lemma PullbackRowPadRight(m: nat, n: nat, image: Option<int>)
    requires image.Some? ==> 0 <= image.value < m
    ensures PullbackRow(image, m + n) == PullbackRow(image, m) + Zeros(n)
  {
  }

  lemma PullbackRowPadLeft(m: nat, n: nat, image: Option<int>)
    requires image.Some? ==> 0 <= image.value < n
    ensures PullbackRow(ShiftImage(image, m), m + n) == Zeros(m) + PullbackRow(image, n)
  {
  }

  /** The comparison of a morphism with plain rational coefficients. */
  function PlainMap(m: NerveMorphism): ComplexMap
    requires IsMorphism(m)
  {
    ComplexMap(D0(m.coarse), D1(m.coarse), D0(m.fine), D1(m.fine), P0(m), P1(m), P2(m))
  }

  lemma JoinPlainMap(a: NerveMorphism, b: NerveMorphism)
    requires IsMorphism(a) && IsMorphism(b)
    ensures IsMorphism(JoinMorphisms(a, b))
    ensures PlainMap(JoinMorphisms(a, b)) == SumOfTwo(PlainMap(a), PlainMap(b))
  {
    hide D0, D1, Diag, Pullback, IsMorphism;
    JoinIsMorphism(a, b);
    MorphismParts(a);
    MorphismParts(b);
    JoinD0(a.coarse, b.coarse);
    JoinD1(a.coarse, b.coarse);
    JoinD0(a.fine, b.fine);
    JoinD1(a.fine, b.fine);
    MorphismMapsInto(a);
    MorphismMapsInto(b);
    JoinPullback(Nerves.Total(a.vertexMap), a.coarse.vertices, Nerves.Total(b.vertexMap), b.coarse.vertices);
    JoinPullback(a.edgeMap, |a.coarse.edges|, b.edgeMap, |b.coarse.edges|);
    JoinPullback(a.faceMap, |a.coarse.faces|, b.faceMap, |b.coarse.faces|);
    assert Nerves.Total(a.vertexMap + ShiftVertexMap(b.vertexMap, a.coarse.vertices))
        == Nerves.Total(a.vertexMap) + ShiftMap(Nerves.Total(b.vertexMap), a.coarse.vertices);
  }

  lemma MorphismParts(m: NerveMorphism)
    requires IsMorphism(m)
    ensures IsIncidence(m.coarse) && IsIncidence(m.fine) && 0 <= m.coarse.vertices
  {
  }

  // ---------- Any number of parts ----------

  function UnionMorphism(ms: seq<NerveMorphism>): NerveMorphism {
    if ms == [] then NerveMorphism(Nerve(0, [], []), Nerve(0, [], []), [], [], [])
    else JoinMorphisms(UnionMorphism(ms[..|ms| - 1]), ms[|ms| - 1])
  }

  function PlainMaps(ms: seq<NerveMorphism>): (cs: seq<ComplexMap>)
    requires forall i :: 0 <= i < |ms| ==> IsMorphism(ms[i])
    ensures |cs| == |ms| && forall i :: 0 <= i < |cs| ==> cs[i] == PlainMap(ms[i])
  {
    seq(|ms|, i requires 0 <= i < |ms| => PlainMap(ms[i]))
  }

  lemma {:induction false} UnionPlainMap(ms: seq<NerveMorphism>)
    requires forall i :: 0 <= i < |ms| ==> IsMorphism(ms[i])
    ensures IsMorphism(UnionMorphism(ms)) && PlainMap(UnionMorphism(ms)) == DirectSum(PlainMaps(ms))
  {
    hide IsMorphism, PlainMap, SumOfTwo, JoinMorphisms;
    if ms == [] {
      EmptyUnion();
    } else {
      var n := |ms| - 1;
      UnionPlainMap(ms[..n]);
      JoinPlainMap(UnionMorphism(ms[..n]), ms[n]);
      assert PlainMaps(ms)[..n] == PlainMaps(ms[..n]);
    }
  }

  lemma EmptyUnion()
    ensures IsMorphism(UnionMorphism([])) && PlainMap(UnionMorphism([])) == DirectSum(PlainMaps([]))
  {
    var m := UnionMorphism([]);
    var o: Matrix := MatrixData(0, 0, []);
    assert DirectSum(PlainMaps([])) == ComplexMap(o, o, o, o, o, o, o);
    NoRows(D0(m.coarse));
    NoRows(D1(m.coarse));
    NoRows(P0(m));
    NoRows(P1(m));
    NoRows(P2(m));
  }

  lemma NoRows(m: Matrix)
    requires m.rows == 0 && m.cols == 0
    ensures m == MatrixData(0, 0, [])
  {
  }

  // ---------- One-dimensional coefficients ----------

  lemma {:induction false} KronVecOne(a: Vec)
    ensures KronVec(a, [1.0]) == a
  {
    if |a| == 0 {
      assert KronVec(a, [1.0]) == [];
    } else {
      KronVecOne(a[..|a| - 1]);
      KronVecOneLast(a);
    }
  }

  lemma KronVecOneLast(a: Vec)
    requires |a| > 0 && KronVec(a[..|a| - 1], [1.0]) == a[..|a| - 1]
    ensures KronVec(a, [1.0]) == a
  {
    hide *;
    KronVecLast(a, [1.0]);
    ScaleOne(a[|a| - 1]);
    assert a == a[..|a| - 1] + [a[|a| - 1]];
  }

  lemma ScaleOne(t: real)
    ensures Scale(t, [1.0]) == [t]
  {
    assert Scale(t, [1.0])[0] == t * 1.0;
  }

  lemma KronOne(m: Matrix)
    ensures Kron(m, Identity(1)) == m
  {
    hide KronVec;
    var k := Kron(m, Identity(1));
    assert k.rows == m.rows && k.cols == m.cols;
    forall i | 0 <= i < m.rows ensures k.entries[i] == m.entries[i] { KronOneRow(m, i); }
    EqualByRows(k, m);
  }

  lemma KronOneRow(m: Matrix, i: nat)
    requires i < m.rows
    ensures Kron(m, Identity(1)).rows == m.rows && Kron(m, Identity(1)).entries[i] == m.entries[i]
  {
    hide KronVec;
    KronRowAt(m.entries, Identity(1).entries, i, 0);
    assert Identity(1).entries[0] == [1.0];
    KronVecOne(m.entries[i]);
  }

  /** With the identity coefficient map the tensored comparison is the plain one. */
  lemma PlainCoefficients(m: NerveMorphism)
    requires IsMorphism(m)
    ensures CoefficientMap(m, Identity(1)) == PlainMap(m) && IsCochainMap(PlainMap(m))
  {
    MorphismIsCochainMap(m, Identity(1));
    KronOne(D0(m.coarse));
    KronOne(D1(m.coarse));
    KronOne(D0(m.fine));
    KronOne(D1(m.fine));
    KronOne(P0(m));
    KronOne(P1(m));
    KronOne(P2(m));
  }
}
