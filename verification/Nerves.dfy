/**
 Oriented nerves and fine-to-coarse morphisms of necessity_map.py, and why every accepted
 morphism gives a cochain map whatever the coefficients.
 */
module Nerves {
  import opened Options
  import opened Matrices
  import opened Kronecker
  import opened Cohomology

  type Edge = (int, int)
  type Face = (int, int, int)

  datatype Nerve = Nerve(vertices: int, edges: seq<Edge>, faces: seq<Face>)

  // ---------- The constructor's checks ----------

  predicate EdgeInRange(n: Nerve, e: Edge) {
    0 <= e.0 < n.vertices && 0 <= e.1 < n.vertices
  }

  predicate FaceInRange(n: Nerve, f: Face) {
    0 <= f.0 < |n.edges| && 0 <= f.1 < |n.edges| && 0 <= f.2 < |n.edges|
  }

  /** The three endpoint equalities. */
  predicate FaceCloses(n: Nerve, f: Face)
    requires FaceInRange(n, f)
  {
    var a, b, c := n.edges[f.0], n.edges[f.1], n.edges[f.2];
    a.0 == b.0 && a.1 == c.0 && b.1 == c.1
  }

  predicate IsIncidence(n: Nerve) {
    && 0 <= n.vertices
    && (forall i :: 0 <= i < |n.edges| ==> EdgeInRange(n, n.edges[i]))
    && (forall i :: 0 <= i < |n.faces| ==> FaceInRange(n, n.faces[i]) && FaceCloses(n, n.faces[i]))
  }

  function EdgeRow(n: nat, e: Edge): (row: Vec)
    requires 0 <= e.0 < n && 0 <= e.1 < n
    ensures |row| == n
  {
    Sub(Unit(n, e.1), Unit(n, e.0))
  }

  function FaceRow(n: nat, f: Face): (row: Vec)
    requires 0 <= f.0 < n && 0 <= f.1 < n && 0 <= f.2 < n
    ensures |row| == n
  {
    Add(Sub(Unit(n, f.0), Unit(n, f.1)), Unit(n, f.2))
  }

  function D0(n: Nerve): (m: Matrix)
    requires IsIncidence(n)
    ensures m.rows == |n.edges| && m.cols == n.vertices
  {
    MatrixData(|n.edges|, n.vertices, seq(|n.edges|, i requires 0 <= i < |n.edges| => EdgeRow(n.vertices, n.edges[i])))
  }

  function D1(n: Nerve): (m: Matrix)
    requires IsIncidence(n)
    ensures m.rows == |n.faces| && m.cols == |n.edges|
  {
    MatrixData(|n.faces|, |n.edges|, seq(|n.faces|, i requires 0 <= i < |n.faces| => FaceRow(|n.edges|, n.faces[i])))
  }

  /** All the checks, the product test included. */
  predicate AcceptsNerve(n: Nerve) {
    IsIncidence(n) && IsZero(MatMul(D1(n), D0(n)))
  }

  /** The loops filling d0, a self-loop cancelling to zero. */
  method FillD0(n: Nerve) returns (m: Matrix)
    requires IsIncidence(n)
    ensures m == D0(n)
  {
    var data: seq<Vec> := seq(|n.edges|, _ => Zeros(n.vertices));
    for i := 0 to |n.edges|
      invariant |data| == |n.edges|
      invariant forall k :: 0 <= k < |n.edges| ==> data[k] == if k < i then EdgeRow(n.vertices, n.edges[k]) else Zeros(n.vertices)
    {
      var (left, right) := n.edges[i];
      var row := data[i];
      row := row[left := row[left] - 1.0];
      row := row[right := row[right] + 1.0];
      assert row == EdgeRow(n.vertices, n.edges[i]);
      data := data[i := row];
    }
    m := MatrixData(|n.edges|, n.vertices, data);
    assert m.entries == D0(n).entries;
  }

  method WriteFace(zeros: Vec, f: Face) returns (row: Vec)
    requires zeros == Zeros(|zeros|) && 0 <= f.0 < |zeros| && 0 <= f.1 < |zeros| && 0 <= f.2 < |zeros|
    ensures row == FaceRow(|zeros|, f)
  {
    var (e0, e1, e2) := f;
    row := zeros;
    row := row[e0 := row[e0] + 1.0];
    row := row[e1 := row[e1] - 1.0];
    row := row[e2 := row[e2] + 1.0];
  }

  /** The loops filling d1, repeated edges adding up. */
  method FillD1(n: Nerve) returns (m: Matrix)
    requires IsIncidence(n)
    ensures m == D1(n)
  {
    var data: seq<Vec> := seq(|n.faces|, _ => Zeros(|n.edges|));
    for i := 0 to |n.faces|
      invariant |data| == |n.faces|
      invariant forall k :: 0 <= k < |n.faces| ==> data[k] == if k < i then FaceRow(|n.edges|, n.faces[k]) else Zeros(|n.edges|)
    {
      var row := WriteFace(data[i], n.faces[i]);
      data := data[i := row];
    }
    m := MatrixData(|n.faces|, |n.edges|, data);
    assert m.entries == D1(n).entries;
  }

  // ---------- d1 d0 = 0 ----------

  lemma DotUnit(n: nat, k: nat, x: Vec)
    requires k < n && |x| == n
    ensures Dot(Unit(n, k), x) == x[k]
  {
    DotAt(Unit(n, k), x, k);
  }

  lemma EdgeRowDot(n: nat, e: Edge, x: Vec)
    requires 0 <= e.0 < n && 0 <= e.1 < n && |x| == n
    ensures Dot(EdgeRow(n, e), x) == x[e.1] - x[e.0]
  {
    DotSub(Unit(n, e.1), Unit(n, e.0), x);
    DotUnit(n, e.1, x);
    DotUnit(n, e.0, x);
  }

  lemma FaceRowDot(n: nat, f: Face, y: Vec)
    requires 0 <= f.0 < n && 0 <= f.1 < n && 0 <= f.2 < n && |y| == n
    ensures Dot(FaceRow(n, f), y) == y[f.0] - y[f.1] + y[f.2]
  {
    DotAdd(Sub(Unit(n, f.0), Unit(n, f.1)), Unit(n, f.2), y);
    DotSub(Unit(n, f.0), Unit(n, f.1), y);
    DotUnit(n, f.0, y);
    DotUnit(n, f.1, y);
    DotUnit(n, f.2, y);
  }

  /** d0 takes the difference along an edge. */
  lemma D0At(n: Nerve, x: Vec, i: nat)
    requires IsIncidence(n) && |x| == n.vertices && i < |n.edges|
    ensures EdgeInRange(n, n.edges[i]) && MulVec(D0(n), x)[i] == x[n.edges[i].1] - x[n.edges[i].0]
  {
    EdgeRowDot(n.vertices, n.edges[i], x);
  }

  lemma D1At(n: Nerve, y: Vec, i: nat)
    requires IsIncidence(n) && |y| == |n.edges| && i < |n.faces|
    ensures FaceInRange(n, n.faces[i])
    ensures MulVec(D1(n), y)[i] == y[n.faces[i].0] - y[n.faces[i].1] + y[n.faces[i].2]
  {
    FaceRowDot(|n.edges|, n.faces[i], y);
  }

  /** The endpoint equalities alone force d1 d0 = 0, so the last check never raises. */
  lemma EndpointEqualitiesGiveComplex(n: Nerve)
    requires IsIncidence(n)
    ensures IsZero(MatMul(D1(n), D0(n))) && AcceptsNerve(n)
  {
    var product := MatMul(D1(n), D0(n));
    forall x | |x| == product.cols ensures MulVec(product, x) == Zeros(product.rows) {
      MulAssociates(D1(n), D0(n), x);
      var y := MulVec(D0(n), x);
      forall i | 0 <= i < |n.faces| ensures MulVec(D1(n), y)[i] == 0.0 {
        var f := n.faces[i];
        D1At(n, y, i);
        D0At(n, x, f.0);
        D0At(n, x, f.1);
        D0At(n, x, f.2);
        assert FaceCloses(n, f);
      }
      assert MulVec(D1(n), y) == Zeros(product.rows);
    }
    ZeroMatrixMeans(product);
  }

  // ---------- Morphisms ----------

  datatype NerveMorphism = NerveMorphism(
    coarse: Nerve, fine: Nerve,
    vertexMap: seq<int>, edgeMap: seq<Option<int>>, faceMap: seq<Option<int>>)

  /** A degenerate edge stays in one fibre; another maps with its endpoints. */
  predicate EdgeMaps(m: NerveMorphism, i: nat)
    requires i < |m.fine.edges| == |m.edgeMap| && |m.vertexMap| == m.fine.vertices && EdgeInRange(m.fine, m.fine.edges[i])
  {
    var ends := (m.vertexMap[m.fine.edges[i].0], m.vertexMap[m.fine.edges[i].1]);
    match m.edgeMap[i]
    case None => ends.0 == ends.1
    case Some(e) => 0 <= e < |m.coarse.edges| && ends == m.coarse.edges[e]
  }

  /** A degenerate face has only degenerate edges; another maps with its boundary. */
  predicate FaceMaps(m: NerveMorphism, i: nat)
    requires i < |m.fine.faces| == |m.faceMap| && |m.edgeMap| == |m.fine.edges| && FaceInRange(m.fine, m.fine.faces[i])
  {
    var f := m.fine.faces[i];
    var boundary := (m.edgeMap[f.0], m.edgeMap[f.1], m.edgeMap[f.2]);
    match m.faceMap[i]
    case None => boundary == (None, None, None)
    case Some(g) =>
      0 <= g < |m.coarse.faces|
      && boundary == (Some(m.coarse.faces[g].0), Some(m.coarse.faces[g].1), Some(m.coarse.faces[g].2))
  }

  /** The morphism constructor accepts. */
  predicate IsMorphism(m: NerveMorphism) {
    && IsIncidence(m.coarse) && IsIncidence(m.fine)
    && |m.vertexMap| == m.fine.vertices && |m.edgeMap| == |m.fine.edges| && |m.faceMap| == |m.fine.faces|
    && (forall i :: 0 <= i < |m.vertexMap| ==> 0 <= m.vertexMap[i] < m.coarse.vertices)
    && (forall i :: 0 <= i < |m.edgeMap| ==> EdgeMaps(m, i))
    && (forall i :: 0 <= i < |m.faceMap| ==> FaceMaps(m, i))
  }

  predicate MapsInto(cellMap: seq<Option<int>>, cells: nat) {
    forall i :: 0 <= i < |cellMap| && cellMap[i].Some? ==> 0 <= cellMap[i].value < cells
  }

  /** One row per fine cell: a one at its coarse image, zero when degenerate. */
  function PullbackRow(image: Option<int>, cells: nat): (row: Vec)
    requires image.Some? ==> 0 <= image.value < cells
    ensures |row| == cells
  {
    if image.None? then Zeros(cells) else Unit(cells, image.value)
  }

  function Pullback(cellMap: seq<Option<int>>, cells: nat): (m: Matrix)
    requires MapsInto(cellMap, cells)
    ensures m.rows == |cellMap| && m.cols == cells
  {
    MatrixData(|cellMap|, cells, seq(|cellMap|, i requires 0 <= i < |cellMap| => PullbackRow(cellMap[i], cells)))
  }

  function Total(vertexMap: seq<int>): (cellMap: seq<Option<int>>)
    ensures |cellMap| == |vertexMap| && forall i :: 0 <= i < |cellMap| ==> cellMap[i] == Some(vertexMap[i])
  {
    seq(|vertexMap|, i requires 0 <= i < |vertexMap| => Some(vertexMap[i]))
  }

  method FillPullback(cellMap: seq<Option<int>>, cells: nat) returns (m: Matrix)
    requires MapsInto(cellMap, cells)
    ensures m == Pullback(cellMap, cells)
  {
    var data: seq<Vec> := seq(|cellMap|, _ => Zeros(cells));
    for i := 0 to |cellMap|
      invariant |data| == |cellMap|
      invariant forall k :: 0 <= k < |cellMap| ==> data[k] == if k < i then PullbackRow(cellMap[k], cells) else Zeros(cells)
    {
      if cellMap[i].Some? {
        var row := data[i][cellMap[i].value := 1.0];
        assert row == PullbackRow(cellMap[i], cells);
        data := data[i := row];
      }
    }
    m := MatrixData(|cellMap|, cells, data);
    assert m.entries == Pullback(cellMap, cells).entries;
  }

  lemma PullbackAt(cellMap: seq<Option<int>>, cells: nat, x: Vec, i: nat)
    requires MapsInto(cellMap, cells) && |x| == cells && i < |cellMap|
    ensures MulVec(Pullback(cellMap, cells), x)[i] == if cellMap[i].None? then 0.0 else x[cellMap[i].value]
  {
    if cellMap[i].None? { DotVanishes(Zeros(cells), x); } else { DotUnit(cells, cellMap[i].value, x); }
  }

  lemma MorphismMapsInto(m: NerveMorphism)
    requires IsMorphism(m)
    ensures MapsInto(Total(m.vertexMap), m.coarse.vertices)
    ensures MapsInto(m.edgeMap, |m.coarse.edges|) && MapsInto(m.faceMap, |m.coarse.faces|)
  {
    forall i | 0 <= i < |m.edgeMap| && m.edgeMap[i].Some? ensures 0 <= m.edgeMap[i].value < |m.coarse.edges| {
      assert EdgeMaps(m, i);
    }
    forall i | 0 <= i < |m.faceMap| && m.faceMap[i].Some? ensures 0 <= m.faceMap[i].value < |m.coarse.faces| {
      assert FaceMaps(m, i);
    }
  }

  function P0(m: NerveMorphism): (p: Matrix)
    requires IsMorphism(m)
    ensures p.rows == m.fine.vertices && p.cols == m.coarse.vertices
  {
    MorphismMapsInto(m);
    Pullback(Total(m.vertexMap), m.coarse.vertices)
  }

  function P1(m: NerveMorphism): (p: Matrix)
    requires IsMorphism(m)
    ensures p.rows == |m.fine.edges| && p.cols == |m.coarse.edges|
  {
    MorphismMapsInto(m);
    Pullback(m.edgeMap, |m.coarse.edges|)
  }

  function P2(m: NerveMorphism): (p: Matrix)
    requires IsMorphism(m)
    ensures p.rows == |m.fine.faces| && p.cols == |m.coarse.faces|
  {
    MorphismMapsInto(m);
    Pullback(m.faceMap, |m.coarse.faces|)
  }

  /** Pulling back and differencing commute, degenerate edges included. */
  lemma VertexSquare(m: NerveMorphism)
    requires IsMorphism(m)
    ensures MatMul(D0(m.fine), P0(m)) == MatMul(P1(m), D0(m.coarse))
  {
    MorphismMapsInto(m);
    forall x | |x| == m.coarse.vertices
      ensures MulVec(MatMul(D0(m.fine), P0(m)), x) == MulVec(MatMul(P1(m), D0(m.coarse)), x)
    {
      MulAssociates(D0(m.fine), P0(m), x);
      MulAssociates(P1(m), D0(m.coarse), x);
      forall i | 0 <= i < |m.fine.edges|
        ensures MulVec(D0(m.fine), MulVec(P0(m), x))[i] == MulVec(P1(m), MulVec(D0(m.coarse), x))[i]
      {
        VertexSquareAt(m, x, i);
      }
      assert MulVec(D0(m.fine), MulVec(P0(m), x)) == MulVec(P1(m), MulVec(D0(m.coarse), x));
    }
    MatrixExtensional(MatMul(D0(m.fine), P0(m)), MatMul(P1(m), D0(m.coarse)));
  }

  lemma VertexSquareAt(m: NerveMorphism, x: Vec, i: nat)
    requires IsMorphism(m) && |x| == m.coarse.vertices && i < |m.fine.edges|
    ensures MulVec(D0(m.fine), MulVec(P0(m), x))[i] == MulVec(P1(m), MulVec(D0(m.coarse), x))[i]
  {
    MorphismMapsInto(m);
    var e, px, dx := m.fine.edges[i], MulVec(P0(m), x), MulVec(D0(m.coarse), x);
    D0At(m.fine, px, i);
    PullbackAt(Total(m.vertexMap), m.coarse.vertices, x, e.0);
    PullbackAt(Total(m.vertexMap), m.coarse.vertices, x, e.1);
    PullbackAt(m.edgeMap, |m.coarse.edges|, dx, i);
    assert EdgeMaps(m, i);
    if m.edgeMap[i].Some? { D0At(m.coarse, x, m.edgeMap[i].value); }
  }

  lemma EdgeSquare(m: NerveMorphism)
    requires IsMorphism(m)
    ensures MatMul(D1(m.fine), P1(m)) == MatMul(P2(m), D1(m.coarse))
  {
    MorphismMapsInto(m);
    forall y | |y| == |m.coarse.edges|
      ensures MulVec(MatMul(D1(m.fine), P1(m)), y) == MulVec(MatMul(P2(m), D1(m.coarse)), y)
    {
      MulAssociates(D1(m.fine), P1(m), y);
      MulAssociates(P2(m), D1(m.coarse), y);
      forall i | 0 <= i < |m.fine.faces|
        ensures MulVec(D1(m.fine), MulVec(P1(m), y))[i] == MulVec(P2(m), MulVec(D1(m.coarse), y))[i]
      {
        EdgeSquareAt(m, y, i);
      }
      assert MulVec(D1(m.fine), MulVec(P1(m), y)) == MulVec(P2(m), MulVec(D1(m.coarse), y));
    }
    MatrixExtensional(MatMul(D1(m.fine), P1(m)), MatMul(P2(m), D1(m.coarse)));
  }

  lemma EdgeSquareAt(m: NerveMorphism, y: Vec, i: nat)
    requires IsMorphism(m) && |y| == |m.coarse.edges| && i < |m.fine.faces|
    ensures MulVec(D1(m.fine), MulVec(P1(m), y))[i] == MulVec(P2(m), MulVec(D1(m.coarse), y))[i]
  {
    MorphismMapsInto(m);
    var f, py, dy := m.fine.faces[i], MulVec(P1(m), y), MulVec(D1(m.coarse), y);
    D1At(m.fine, py, i);
    PullbackAt(m.edgeMap, |m.coarse.edges|, y, f.0);
    PullbackAt(m.edgeMap, |m.coarse.edges|, y, f.1);
    PullbackAt(m.edgeMap, |m.coarse.edges|, y, f.2);
    PullbackAt(m.faceMap, |m.coarse.faces|, dy, i);
    assert FaceMaps(m, i);
    if m.faceMap[i].Some? { D1At(m.coarse, y, m.faceMap[i].value); }
  }

  // ---------- Any coefficients ----------

  /** The map analyze_h1 builds: nerve incidence tensor the coefficient map. */
  function CoefficientMap(m: NerveMorphism, c: Matrix): ComplexMap
    requires IsMorphism(m)
  {
    ComplexMap(Kron(D0(m.coarse), Identity(c.cols)), Kron(D1(m.coarse), Identity(c.cols)),
               Kron(D0(m.fine), Identity(c.rows)), Kron(D1(m.fine), Identity(c.rows)),
               Kron(P0(m), c), Kron(P1(m), c), Kron(P2(m), c))
  }

  // ---------- The tensored matrices, entry by entry ----------

  /** The matrix a with every entry replaced by that multiple of the coefficient map. */
  ghost predicate IsTensor(t: Matrix, a: Matrix, c: Matrix) {
    && t.rows == a.rows * c.rows && t.cols == a.cols * c.cols
    && forall i: nat, r: nat, j: nat, l: nat :: i < a.rows && r < c.rows && j < a.cols && l < c.cols ==> IsTensorAt(t, a, c, i, r, j, l)
  }

  ghost predicate IsTensorAt(t: Matrix, a: Matrix, c: Matrix, i: nat, r: nat, j: nat, l: nat)
    requires i < a.rows && r < c.rows && j < a.cols && l < c.cols
  {
    var row, col := i * c.rows + r, j * c.cols + l;
    row < t.rows && col < t.cols && t.entries[row][col] == a.entries[i][j] * c.entries[r][l]
  }

  lemma KronIsTensor(a: Matrix, c: Matrix)
    ensures IsTensor(Kron(a, c), a, c)
  {
    hide IsTensorAt;
    forall i: nat, r: nat, j: nat, l: nat | i < a.rows && r < c.rows && j < a.cols && l < c.cols
      ensures IsTensorAt(Kron(a, c), a, c, i, r, j, l)
    {
      TensorAt(a, c, i, r, j, l);
    }
  }

  lemma TensorAt(a: Matrix, c: Matrix, i: nat, r: nat, j: nat, l: nat)
    requires i < a.rows && r < c.rows && j < a.cols && l < c.cols
    ensures IsTensorAt(Kron(a, c), a, c, i, r, j, l)
  {
    KronEntry(a, c, i, r, j, l);
    hide Kron;
  }

  /** The incidences carry the identity and the pullbacks the coefficient map, cell by cell. */
  lemma CoefficientMapIsTensor(m: NerveMorphism, c: Matrix)
    requires IsMorphism(m)
    ensures var t := CoefficientMap(m, c);
            && IsTensor(t.coarseD0, D0(m.coarse), Identity(c.cols)) && IsTensor(t.coarseD1, D1(m.coarse), Identity(c.cols))
            && IsTensor(t.fineD0, D0(m.fine), Identity(c.rows)) && IsTensor(t.fineD1, D1(m.fine), Identity(c.rows))
            && IsTensor(t.pullback0, P0(m), c) && IsTensor(t.pullback1, P1(m), c) && IsTensor(t.pullback2, P2(m), c)
  {
    hide IsTensor, Kron, Identity;
    KronIsTensor(D0(m.coarse), Identity(c.cols));
    KronIsTensor(D1(m.coarse), Identity(c.cols));
    KronIsTensor(D0(m.fine), Identity(c.rows));
    KronIsTensor(D1(m.fine), Identity(c.rows));
    KronIsTensor(P0(m), c);
    KronIsTensor(P1(m), c);
    KronIsTensor(P2(m), c);
  }

  lemma TensorSquare(a: Matrix, b: Matrix, c: Matrix, d: Matrix, f: Matrix)
    requires a.cols == b.rows && c.cols == d.rows && MatMul(a, b) == MatMul(c, d)
    ensures MatMul(Kron(a, Identity(f.rows)), Kron(b, f)) == MatMul(Kron(c, f), Kron(d, Identity(f.cols)))
  {
    MixedProduct(a, Identity(f.rows), b, f);
    MixedProduct(c, f, d, Identity(f.cols));
    IdentityNeutral(f);
  }

  lemma TensorComplex(n: Nerve, k: nat)
    requires IsIncidence(n)
    ensures IsComplex(Kron(D0(n), Identity(k)), Kron(D1(n), Identity(k)))
  {
    EndpointEqualitiesGiveComplex(n);
    MixedProduct(D1(n), Identity(k), D0(n), Identity(k));
    KronIsZero(MatMul(D1(n), D0(n)), MatMul(Identity(k), Identity(k)));
  }

  /** No guard of the analysis can raise, for any accepted morphism and coefficient map. */
  lemma MorphismIsCochainMap(m: NerveMorphism, c: Matrix)
    requires IsMorphism(m)
    ensures IsCochainMap(CoefficientMap(m, c))
  {
    TensorComplex(m.coarse, c.cols);
    TensorComplex(m.fine, c.rows);
    VertexSquare(m);
    EdgeSquare(m);
    TensorSquare(D0(m.fine), P0(m), P1(m), D0(m.coarse), c);
    TensorSquare(D1(m.fine), P1(m), P2(m), D1(m.coarse), c);
  }

  method AnalyzeH1(m: NerveMorphism, c: Matrix) returns (r: Option<H1Analysis>)
    requires IsMorphism(m)
    ensures IsCochainMap(CoefficientMap(m, c)) && r == Some(AnalysisOf(CoefficientMap(m, c)))
  {
    MorphismIsCochainMap(m, c);
    MorphismMapsInto(m);
    var p0 := FillPullback(Total(m.vertexMap), m.coarse.vertices);
    var p1 := FillPullback(m.edgeMap, |m.coarse.edges|);
    var p2 := FillPullback(m.faceMap, |m.coarse.faces|);
    var cd0, cd1 := FillTensors(m.coarse, Identity(c.cols));
    var fd0, fd1 := FillTensors(m.fine, Identity(c.rows));
    var k0 := KroneckerProduct(p0, c);
    var k1 := KroneckerProduct(p1, c);
    var k2 := KroneckerProduct(p2, c);
    r := AnalyzeComplexMap(ComplexMap(cd0, cd1, fd0, fd1, k0, k1, k2));
  }

  method FillTensors(n: Nerve, identity: Matrix) returns (d0: Matrix, d1: Matrix)
    requires IsIncidence(n)
    ensures d0 == Kron(D0(n), identity) && d1 == Kron(D1(n), identity)
  {
    var a := FillD0(n);
    var b := FillD1(n);
    d0 := KroneckerProduct(a, identity);
    d1 := KroneckerProduct(b, identity);
  }
}
