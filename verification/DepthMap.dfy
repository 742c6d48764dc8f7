/**
 The profile J of depth_map_toy.py: it ranks lists of vectors by their rows, and still
 computes the kernel and cokernel dimensions of the comparison.
 */
module DepthMap {
  import opened Options
  import opened Matrices
  import opened Spans
  import opened LinearSystems
  import opened Cohomology
  import opened H1Meaning
  import opened Nerves
  import opened NerveUnions

  // ---------- Row rank is column rank ----------

  function Transpose(m: Matrix): (t: Matrix)
    ensures t.rows == m.cols && t.cols == m.rows
  {
    MatrixData(m.cols, m.rows, seq(m.cols, j requires 0 <= j < m.cols => Column(m, j)))
  }

  lemma TransposeColumn(m: Matrix, i: nat)
    requires i < m.rows
    ensures Column(Transpose(m), i) == m.entries[i]
  {
  }

  lemma TransposeTwice(m: Matrix)
    ensures Transpose(Transpose(m)) == m
  {
    forall i | 0 <= i < m.rows ensures Transpose(Transpose(m)).entries[i] == m.entries[i] { TransposeColumn(m, i); }
    assert Transpose(Transpose(m)).entries == m.entries;
  }

  lemma ProductInSpan(a: Matrix, b: Matrix)
    requires a.cols == b.rows
    ensures SubSpan(MatMul(a, b), a)
  {
    forall x | |x| == b.cols ensures InSpan(a, MulVec(MatMul(a, b), x)) { MulAssociates(a, b, x); }
  }

  lemma TransposeProduct(a: Matrix, b: Matrix)
    requires a.cols == b.rows
    ensures Transpose(MatMul(a, b)) == MatMul(Transpose(b), Transpose(a))
  {
    var l, r := Transpose(MatMul(a, b)), MatMul(Transpose(b), Transpose(a));
    forall j, i | 0 <= j < b.cols && 0 <= i < a.rows ensures l.entries[j][i] == r.entries[j][i] {
      TransposeColumn(a, i);
      DotCommutes(a.entries[i], Column(b, j));
    }
    forall j | 0 <= j < b.cols ensures l.entries[j] == r.entries[j] {}
    assert l.entries == r.entries;
  }

  lemma TransposeRankAtMost(m: Matrix)
    ensures Rank(Transpose(m)) <= Rank(m)
  {
    var p := BasisOf(m);
    var x := Factor(m, p);
    TransposeProduct(p, x);
    ProductInSpan(Transpose(x), Transpose(p));
    RankMonotone(Transpose(m), Transpose(x));
  }

  /** Elimination by rows and by columns count the same pivots. */
  lemma RankOfTranspose(m: Matrix)
    ensures Rank(Transpose(m)) == Rank(m)
  {
    TransposeRankAtMost(m);
    TransposeRankAtMost(Transpose(m));
    TransposeTwice(m);
  }

  // ---------- The rank of a list of vectors ----------

  predicate AreVectors(vs: seq<Vec>, n: nat) { forall i :: 0 <= i < |vs| ==> |vs[i]| == n }

  predicate IsZeroVector(v: Vec) { forall i :: 0 <= i < |v| ==> v[i] == 0.0 }

  lemma SameVectorsSpan(vs: seq<Vec>, ws: seq<Vec>, n: nat)
    requires AreVectors(vs, n) && AreVectors(ws, n) && forall v :: v in vs && !IsZeroVector(v) ==> v in ws
    ensures SubSpan(FromColumns(vs, n), FromColumns(ws, n))
  {
    var b := FromColumns(ws, n);
    forall j | 0 <= j < |vs| ensures InSpan(b, Column(FromColumns(vs, n), j)) {
      assert Column(FromColumns(vs, n), j) == vs[j] && vs[j] in vs;
      if IsZeroVector(vs[j]) {
        SpanZeros(b);
        assert vs[j] == Zeros(n);
      } else {
        var i :| 0 <= i < |ws| && ws[i] == vs[j];
        SpanColumn(b, i);
        assert Column(b, i) == ws[i];
      }
    }
    SubSpanByColumns(FromColumns(vs, n), b);
  }

  lemma RowsAreTranspose(vs: seq<Vec>, n: nat)
    requires AreVectors(vs, n)
    ensures Transpose(FromColumns(vs, n)) == MatrixData(|vs|, n, vs)
  {
    forall j | 0 <= j < |vs| ensures Transpose(FromColumns(vs, n)).entries[j] == vs[j] {
      assert Column(FromColumns(vs, n), j) == vs[j];
    }
  }

  /** Zero vectors are dropped and the rest eliminated as rows: the dimension they span. */
  method RankOfVectors(vs: seq<Vec>, n: nat) returns (r: nat)
    requires AreVectors(vs, n)
    ensures r == Rank(FromColumns(vs, n))
  {
    var kept: seq<Vec> := [];
    for i := 0 to |vs|
      invariant AreVectors(kept, n)
      invariant forall v :: v in kept <==> v in vs[..i] && !IsZeroVector(v)
    {
      assert vs[..i + 1] == vs[..i] + [vs[i]];
      if !IsZeroVector(vs[i]) { kept := kept + [vs[i]]; }
    }
    assert vs[..|vs|] == vs;
    SameVectorsSpan(vs, kept, n);
    SameVectorsSpan(kept, vs, n);
    RankOfEqualSpans(FromColumns(vs, n), FromColumns(kept, n));
    if kept == [] { return 0; }
    RowsAreTranspose(kept, n);
    RankOfTranspose(FromColumns(kept, n));
    r := MatrixRank(MatrixData(|kept|, n, kept));
  }

  // ---------- The profile ----------

  function Columns(m: Matrix): (vs: seq<Vec>)
    ensures |vs| == m.cols && AreVectors(vs, m.rows) && forall j :: 0 <= j < m.cols ==> vs[j] == Column(m, j)
  {
    seq(m.cols, j requires 0 <= j < m.cols => Column(m, j))
  }

  /** Reading a coarse cochain on a fine edge: zero on degenerate and on unknown images. */
  function PulledAt(image: Option<int>, z: Vec): real {
    if image.Some? && 0 <= image.value < |z| then z[image.value] else 0.0
  }

  function Pulled(edgeMap: seq<Option<int>>, z: Vec): (v: Vec)
    ensures |v| == |edgeMap| && forall i :: 0 <= i < |v| ==> v[i] == PulledAt(edgeMap[i], z)
  {
    seq(|edgeMap|, i requires 0 <= i < |edgeMap| => PulledAt(edgeMap[i], z))
  }

  lemma PulledIsPullback(edgeMap: seq<Option<int>>, z: Vec)
    requires MapsInto(edgeMap, |z|)
    ensures Pulled(edgeMap, z) == MulVec(Pullback(edgeMap, |z|), z)
  {
    forall i | 0 <= i < |edgeMap| ensures Pulled(edgeMap, z)[i] == MulVec(Pullback(edgeMap, |z|), z)[i] {
      PullbackAt(edgeMap, |z|, z, i);
    }
  }

  /** Pulled cycles then boundaries span what the stacked matrices span. */
  lemma ListSpansStack(d0: Matrix, p: Matrix, k: Matrix, images: seq<Vec>)
    requires p.rows == d0.rows && p.cols == k.rows && |images| == k.cols
    requires forall j :: 0 <= j < k.cols ==> images[j] == MulVec(p, Column(k, j))
    ensures AreVectors(images + Columns(d0), d0.rows)
    ensures Rank(FromColumns(images + Columns(d0), d0.rows)) == Rank(Hstack(d0, MatMul(p, k)))
  {
    var vs := images + Columns(d0);
    var list, stack := FromColumns(vs, d0.rows), Hstack(d0, MatMul(p, k));
    HstackSpans(d0, MatMul(p, k));
    forall j | 0 <= j < |vs| ensures InSpan(stack, Column(list, j)) {
      assert Column(list, j) == vs[j];
      if j < |images| {
        ProductColumn(p, k, j);
        SpanColumn(MatMul(p, k), j);
        SpanTransfers(MatMul(p, k), stack, vs[j]);
      } else {
        SpanColumn(d0, j - |images|);
        SpanTransfers(d0, stack, vs[j]);
      }
    }
    SubSpanByColumns(list, stack);
    forall j | 0 <= j < d0.cols ensures InSpan(list, Column(d0, j)) {
      SpanColumn(list, |images| + j);
      assert Column(list, |images| + j) == vs[|images| + j];
    }
    SubSpanByColumns(d0, list);
    forall j | 0 <= j < k.cols ensures InSpan(list, Column(MatMul(p, k), j)) {
      ProductColumn(p, k, j);
      SpanColumn(list, j);
      assert Column(list, j) == vs[j];
    }
    SubSpanByColumns(MatMul(p, k), list);
    SubSpanHstack(d0, MatMul(p, k), list);
    RankOfEqualSpans(list, stack);
  }

  lemma ColumnsRank(m: Matrix)
    ensures FromColumns(Columns(m), m.rows) == m
  {
    forall j | 0 <= j < m.cols ensures Column(FromColumns(Columns(m), m.rows), j) == Column(m, j) {}
    EqualByColumns(FromColumns(Columns(m), m.rows), m);
  }

  /** What a complex contributes: its cycles and the dimension of its H1. */
  method ComplexOf(n: Nerve) returns (d0: Matrix, cycles: Matrix, h1: int)
    requires IsIncidence(n)
    ensures d0 == D0(n) && IsKernelBasis(cycles, D1(n)) && h1 == H1Dimension(D0(n), D1(n))
  {
    d0 := FillD0(n);
    var d1 := FillD1(n);
    cycles := KernelBasis(d1);
    var boundaries := RankOfVectors(Columns(d0), d0.rows);
    ColumnsRank(d0);
    h1 := cycles.cols as int - boundaries;
  }

  /** J: (phantom, hidden) with the two dimensions. For the edge map of an accepted morphism
      it is the defect of the comparison, hence the kernel and cokernel dimensions on H1. */
  method Profile(coarse: Nerve, fine: Nerve, edgeMap: seq<Option<int>>) returns (j: (int, int), coarseH1: int, fineH1: int)
    requires IsIncidence(coarse) && IsIncidence(fine) && |edgeMap| == |fine.edges|
    ensures forall m :: IsMorphism(m) && m.coarse == coarse && m.fine == fine && m.edgeMap == edgeMap ==>
      var a := AnalysisOf(PlainAnalysisMap(m)); j == Defect(a) && coarseH1 == a.coarseDimension && fineH1 == a.fineDimension
  {
    hide IsIncidence, D0, D1, IsMorphism, Rank, InSpan, IsCochainMap;
    var coarseD0, coarseCycles, c := ComplexOf(coarse);
    var fineD0, fineCycles, f := ComplexOf(fine);
    var images: seq<Vec> := [];
    for k := 0 to coarseCycles.cols
      invariant |images| == k && forall i :: 0 <= i < k ==> images[i] == Pulled(edgeMap, Column(coarseCycles, i))
    {
      images := images + [Pulled(edgeMap, Column(coarseCycles, k))];
    }
    var stacked := RankOfVectors(images + Columns(fineD0), fineD0.rows);
    var boundaries := RankOfVectors(Columns(fineD0), fineD0.rows);
    ColumnsRank(fineD0);
    var r := stacked as int - boundaries;
    j, coarseH1, fineH1 := (c - r, f - r), c, f;
    forall m | IsMorphism(m) && m.coarse == coarse && m.fine == fine && m.edgeMap == edgeMap
      ensures var a := AnalysisOf(PlainAnalysisMap(m)); j == Defect(a) && coarseH1 == a.coarseDimension && fineH1 == a.fineDimension
    {
      ProfileMeans(m, coarseCycles, images);
    }
  }

  function PlainAnalysisMap(m: NerveMorphism): (c: ComplexMap)
    requires IsMorphism(m)
    ensures IsCochainMap(c)
  {
    PlainCoefficients(m);
    PlainMap(m)
  }

  lemma ProfileMeans(m: NerveMorphism, cycles: Matrix, images: seq<Vec>)
    requires IsMorphism(m) && IsKernelBasis(cycles, D1(m.coarse)) && |images| == cycles.cols
    requires forall i :: 0 <= i < |images| ==> images[i] == Pulled(m.edgeMap, Column(cycles, i))
    ensures AreVectors(images + Columns(D0(m.fine)), |m.fine.edges|)
    ensures AnalysisOf(PlainAnalysisMap(m)) ==
      Analysis(H1Dimension(D0(m.coarse), D1(m.coarse)), H1Dimension(D0(m.fine), D1(m.fine)),
               Rank(FromColumns(images + Columns(D0(m.fine)), |m.fine.edges|)) - Rank(D0(m.fine)))
  {
    MorphismMapsInto(m);
    forall i | 0 <= i < |images| ensures images[i] == MulVec(P1(m), Column(cycles, i)) {
      PulledIsPullback(m.edgeMap, Column(cycles, i));
    }
    ListSpansStack(D0(m.fine), P1(m), cycles, images);
    AnyKernelBasis(PlainAnalysisMap(m), cycles);
  }
}
