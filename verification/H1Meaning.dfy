/**
 What the comparison's numbers and flags mean: the comparison rank is the rank of the
 induced matrix, and the flags are injectivity and surjectivity on H1.
 */
module H1Meaning {
  import opened Matrices
  import opened Spans
  import opened LinearSystems
  import opened Quotients
  import opened Cohomology

  // ---------- The comparison rank is the rank of the induced matrix ----------

  lemma CongruentToZero(a: Matrix, v: Vec, w: Vec)
    requires Congruent(a, v, w)
    ensures InSpan(a, v) <==> InSpan(a, w)
  {
    if InSpan(a, w) {
      SpanAdd(a, Sub(v, w), w);
      assert Add(Sub(v, w), w) == v;
    }
    if InSpan(a, v) {
      SpanScale(a, -1.0, Sub(v, w));
      SpanAdd(a, v, Scale(-1.0, Sub(v, w)));
      assert Add(v, Scale(-1.0, Sub(v, w))) == w;
    }
  }

  /** A combination of b is a boundary exactly when its coordinates vanish. */
  lemma RepresentedBoundary(a: Matrix, fr: Matrix, b: Matrix, m: Matrix, x: Vec)
    requires Represents(a, fr, b, m) && IndependentMod(a, fr) && |x| == b.cols
    ensures InSpan(a, MulVec(b, x)) <==> MulVec(m, x) == Zeros(m.rows)
  {
    CongruentToZero(a, MulVec(b, x), MulVec(fr, MulVec(m, x)));
    if MulVec(m, x) == Zeros(m.rows) {
      MulVecZeros(fr);
      SpanZeros(a);
    }
  }

  /** v is a combination of m's columns exactly when some z with last coordinate -1 is a
      relation of m and v. */
  lemma LastColumnSpanned(m: Matrix, x: Vec)
    requires m.cols > 0 && |x| == m.cols - 1
    ensures MulVec(m, x + [-1.0]) == Zeros(m.rows) <==> MulVec(Prefix(m, m.cols - 1), x) == Column(m, m.cols - 1)
  {
    var u, v := MulVec(Prefix(m, m.cols - 1), x), Column(m, m.cols - 1);
    KernelSplitsLast(m, x + [-1.0]);
    assert (x + [-1.0])[..m.cols - 1] == x;
    var sum := Add(u, Scale(-1.0, v));
    if sum == Zeros(m.rows) {
      forall i | 0 <= i < m.rows ensures u[i] == v[i] { assert sum[i] == 0.0; }
    }
    if u == v { assert sum == Zeros(m.rows); }
  }

  lemma LastColumnModulo(a: Matrix, b: Matrix, x: Vec)
    requires a.rows == b.rows && b.cols > 0 && |x| == b.cols - 1 && InSpan(a, MulVec(b, x + [-1.0]))
    ensures InSpan(Hstack(a, Prefix(b, b.cols - 1)), Column(b, b.cols - 1))
  {
    LastTermInSpan(a, b, x + [-1.0]);
  }

  lemma PrefixCongruent(a: Matrix, fr: Matrix, b: Matrix, m: Matrix, x: Vec)
    requires Represents(a, fr, b, m) && b.cols > 0 && |x| == b.cols - 1
    ensures Congruent(a, MulVec(Prefix(b, b.cols - 1), x), MulVec(fr, MulVec(Prefix(m, b.cols - 1), x)))
  {
    var z := x + [0.0];
    assert Congruent(a, MulVec(b, z), MulVec(fr, MulVec(m, z)));
    hide MulVec, Prefix, Represents, Congruent;
    AppendZeroCoordinate(b, x);
    AppendZeroCoordinate(m, x);
  }

  lemma PrefixRepresents(a: Matrix, fr: Matrix, b: Matrix, m: Matrix)
    requires Represents(a, fr, b, m) && b.cols > 0
    ensures Represents(a, fr, Prefix(b, b.cols - 1), Prefix(m, b.cols - 1))
  {
    hide MulVec, Prefix, Congruent;
    forall x | |x| == b.cols - 1
      ensures Congruent(a, MulVec(Prefix(b, b.cols - 1), x), MulVec(fr, MulVec(Prefix(m, b.cols - 1), x)))
    {
      PrefixCongruent(a, fr, b, m, x);
    }
  }

  lemma NewColumnsAgree(a: Matrix, fr: Matrix, b: Matrix, m: Matrix)
    requires Represents(a, fr, b, m) && IndependentMod(a, fr) && b.cols > 0
    ensures InSpan(Hstack(a, Prefix(b, b.cols - 1)), Column(b, b.cols - 1))
       <==> InSpan(Prefix(m, b.cols - 1), Column(m, b.cols - 1))
  {
    var last := b.cols - 1;
    if InSpan(Hstack(a, Prefix(b, last)), Column(b, last)) {
      var u, x := SpanOfHstack(a, Prefix(b, last), Column(b, last));
      LastColumnRelation(a, b, u, x);
      RepresentedBoundary(a, fr, b, m, x + [-1.0]);
      LastColumnSpanned(m, x);
    }
    if InSpan(Prefix(m, last), Column(m, last)) {
      var x :| |x| == last && MulVec(Prefix(m, last), x) == Column(m, last);
      LastColumnSpanned(m, x);
      RepresentedBoundary(a, fr, b, m, x + [-1.0]);
      LastColumnModulo(a, b, x);
    }
  }

  /** The rank b adds to a is the rank of its coordinate matrix. */
  lemma {:induction false} RepresentedRank(a: Matrix, fr: Matrix, b: Matrix, m: Matrix)
    requires Represents(a, fr, b, m) && IndependentMod(a, fr)
    ensures Rank(Hstack(a, b)) == Rank(a) + Rank(m)
    decreases b.cols
  {
    if b.cols == 0 {
      HstackEmpty(a, b);
    } else {
      PrefixRepresents(a, fr, b, m);
      RepresentedRank(a, fr, Prefix(b, b.cols - 1), Prefix(m, b.cols - 1));
      PrefixOfHstack(a, b, b.cols - 1);
      NewColumnsAgree(a, fr, b, m);
    }
  }

  /** Replacing cycles by representatives does not change the image modulo boundaries. */
  lemma CyclesOrRepresentatives(c: ComplexMap, k: Matrix, r: Matrix)
    requires IsCochainMap(c) && IsKernelBasis(k, c.coarseD1) && IsH1Basis(r, c.coarseD0, c.coarseD1)
    ensures Rank(ImageStack(c, k)) == Rank(Hstack(c.fineD0, MatMul(c.pullback1, r)))
  {
    var s, t := ImageStack(c, k), Hstack(c.fineD0, MatMul(c.pullback1, r));
    HstackSpans(c.fineD0, MatMul(c.pullback1, k));
    HstackSpans(c.fineD0, MatMul(c.pullback1, r));
    CycleImagesSpanned(c, k, r);
    HstackSpans(c.coarseD0, r);
    forall x | |x| == r.cols ensures InSpan(k, MulVec(r, x)) {
      SpanTransfers(r, Hstack(c.coarseD0, r), MulVec(r, x));
      assert InKernel(c.coarseD1, MulVec(r, x));
    }
    ProductSubSpan(c.pullback1, r, k);
    SubSpanTransitive(MatMul(c.pullback1, r), MatMul(c.pullback1, k), s);
    SubSpanHstack(c.fineD0, MatMul(c.pullback1, r), s);
    SubSpanHstack(c.fineD0, MatMul(c.pullback1, k), t);
    RankOfEqualSpans(s, t);
  }

  lemma CycleImagesSpanned(c: ComplexMap, k: Matrix, r: Matrix)
    requires IsCochainMap(c) && IsKernelBasis(k, c.coarseD1) && IsH1Basis(r, c.coarseD0, c.coarseD1)
    ensures SubSpan(MatMul(c.pullback1, k), Hstack(c.fineD0, MatMul(c.pullback1, r)))
  {
    var p, t := c.pullback1, Hstack(c.fineD0, MatMul(c.pullback1, r));
    forall x | |x| == k.cols ensures InSpan(t, MulVec(MatMul(p, k), x)) {
      var z := MulVec(k, x);
      MulAssociates(p, k, x);
      assert InKernel(c.coarseD1, z);
      var u, y := SpanOfHstack(c.coarseD0, r, z);
      MappedSum(c, r, u, y);
    }
  }

  /** The image of a boundary plus representatives. */
  lemma MappedSum(c: ComplexMap, r: Matrix, u: Vec, y: Vec)
    requires IsCochainMap(c) && r.rows == c.coarseD0.rows && |u| == c.coarseD0.cols && |y| == r.cols
    ensures MulVec(c.pullback1, Add(MulVec(c.coarseD0, u), MulVec(r, y)))
         == Add(MulVec(c.fineD0, MulVec(c.pullback0, u)), MulVec(MatMul(c.pullback1, r), y))
    ensures InSpan(Hstack(c.fineD0, MatMul(c.pullback1, r)), MulVec(c.pullback1, Add(MulVec(c.coarseD0, u), MulVec(r, y))))
  {
    MulVecAdd(c.pullback1, MulVec(c.coarseD0, u), MulVec(r, y));
    MappedBoundary(c, u);
    MulAssociates(c.pullback1, r, y);
    HstackSpansSum(c.fineD0, MatMul(c.pullback1, r), MulVec(c.pullback0, u), y);
  }

  /** The two routes of the program to the induced map agree: the comparison rank of the
      analysis is the rank of the induced matrix. */
  lemma ComparisonRankIsInducedRank(c: ComplexMap, r: H1MapMatrix)
    requires IsCochainMap(c) && IsInducedMap(c, r)
    ensures Rank(r.induced) == AnalysisOf(c).comparisonRank
  {
    CyclesOrRepresentatives(c, KernelOf(c.coarseD1), r.coarse);
    RepresentedRank(c.fineD0, r.fine, MatMul(c.pullback1, r.coarse), r.induced);
  }

  // ---------- Kernel and cokernel dimensions ----------

  /** (phantom, hidden): what the comparison loses on the coarse side and misses on the fine. */
  function Defect(a: H1Analysis): (int, int) {
    (a.coarseDimension - a.comparisonRank, a.fineDimension - a.comparisonRank)
  }

  /** The comparison rank lies between zero and both dimensions. */
  lemma RankIsBounded(c: ComplexMap)
    requires IsCochainMap(c)
    ensures var a := AnalysisOf(c); 0 <= a.comparisonRank <= a.coarseDimension && a.comparisonRank <= a.fineDimension
  {
    var k, l := KernelOf(c.coarseD1), KernelOf(c.fineD1);
    var r := H1BasisExists(c.coarseD0, c.coarseD1);
    CyclesOrRepresentatives(c, k, r);
    RankOfStack(c.fineD0, MatMul(c.pullback1, r));
    ImageOfCycles(c, k, l);
    RankOfIndependent(l);
    RankMonotone(ImageStack(c, k), l);
  }

  /** The pair is the dimensions of the kernel and the cokernel of the induced matrix, of
      any bases and any kernel basis. */
  lemma DefectIsKernelAndCokernel(c: ComplexMap, r: H1MapMatrix, k: Matrix)
    requires IsCochainMap(c) && IsInducedMap(c, r) && IsKernelBasis(k, r.induced)
    ensures Defect(AnalysisOf(c)) == (k.cols, r.induced.rows - Rank(r.induced))
    ensures Defect(AnalysisOf(c)).0 >= 0 && Defect(AnalysisOf(c)).1 >= 0
  {
    ComparisonRankIsInducedRank(c, r);
    KernelBasisColumns(k, r.induced);
    RankIsBounded(c);
  }

  function LowerRows(m: Matrix, from: nat): (l: Matrix)
    requires from <= m.rows
    ensures l.rows == m.rows - from && l.cols == m.cols
  {
    MatrixData(m.rows - from, m.cols, m.entries[from..])
  }

  /** Every cochain map has an induced matrix. */
  lemma InducedMapExists(c: ComplexMap) returns (r: H1MapMatrix)
    requires IsCochainMap(c)
    ensures IsInducedMap(c, r)
  {
    var coarse := H1BasisExists(c.coarseD0, c.coarseD1);
    var fine := H1BasisExists(c.fineD0, c.fineD1);
    var mapped, stack := MatMul(c.pullback1, coarse), Hstack(c.fineD0, fine);
    MappedBasisSpanned(c, coarse, fine);
    var x := Factor(mapped, stack);
    r := H1MapMatrix(coarse, fine, LowerRows(x, c.fineD0.cols));
    forall y | |y| == mapped.cols
      ensures Congruent(c.fineD0, MulVec(mapped, y), MulVec(fine, MulVec(r.induced, y)))
    {
      MulAssociates(stack, x, y);
      assert MulVec(x, y)[c.fineD0.cols..] == MulVec(r.induced, y);
      SolutionIsCongruent(c.fineD0, fine, MulVec(mapped, y), MulVec(x, y));
    }
  }

  lemma MappedBasisSpanned(c: ComplexMap, coarse: Matrix, fine: Matrix)
    requires IsCochainMap(c) && IsH1Basis(coarse, c.coarseD0, c.coarseD1) && IsH1Basis(fine, c.fineD0, c.fineD1)
    ensures SubSpan(MatMul(c.pullback1, coarse), Hstack(c.fineD0, fine))
  {
    HstackSpans(c.coarseD0, coarse);
    forall y | |y| == coarse.cols ensures InSpan(Hstack(c.fineD0, fine), MulVec(MatMul(c.pullback1, coarse), y)) {
      MulAssociates(c.pullback1, coarse, y);
      assert InSpan(coarse, MulVec(coarse, y));
      SpanTransfers(coarse, Hstack(c.coarseD0, coarse), MulVec(coarse, y));
      MappedCycle(c, MulVec(coarse, y));
    }
  }

  // ---------- What the flags mean ----------

  /** Only boundaries map to boundaries. */
  ghost predicate InjectiveOnH1(c: ComplexMap)
    requires IsCochainMap(c)
  {
    forall z {:trigger InKernel(c.coarseD1, z)} :: InKernel(c.coarseD1, z) && InSpan(c.fineD0, MulVec(c.pullback1, z)) ==> InSpan(c.coarseD0, z)
  }

  /** Every fine cycle is an image of a coarse cycle, up to a boundary. */
  ghost predicate SurjectiveOnH1(c: ComplexMap)
    requires IsCochainMap(c)
  {
    forall w {:trigger InKernel(c.fineD1, w)} :: InKernel(c.fineD1, w) ==>
      exists z {:trigger InKernel(c.coarseD1, z)} :: InKernel(c.coarseD1, z) && Congruent(c.fineD0, w, MulVec(c.pullback1, z))
  }

  lemma InjectiveFlag(c: ComplexMap)
    requires IsCochainMap(c)
    ensures AnalysisOf(c).injective <==> InjectiveOnH1(c)
  {
    var r := H1BasisExists(c.coarseD0, c.coarseD1);
    var image := MatMul(c.pullback1, r);
    CyclesOrRepresentatives(c, KernelOf(c.coarseD1), r);
    RankGap(c.fineD0, image);
    if IndependentMod(c.fineD0, image) { IndependentImagesInject(c, r); }
    if InjectiveOnH1(c) { InjectionKeepsIndependence(c, r); }
  }

  lemma IndependentImagesInject(c: ComplexMap, r: Matrix)
    requires IsCochainMap(c) && IsH1Basis(r, c.coarseD0, c.coarseD1)
    requires IndependentMod(c.fineD0, MatMul(c.pullback1, r))
    ensures InjectiveOnH1(c)
  {
    forall z | InKernel(c.coarseD1, z) && InSpan(c.fineD0, MulVec(c.pullback1, z)) ensures InSpan(c.coarseD0, z) {
      var u, y := SpanOfHstack(c.coarseD0, r, z);
      MappedSum(c, r, u, y);
      var image := MulVec(MatMul(c.pullback1, r), y);
      SummandInSpan(c.fineD0, MulVec(c.fineD0, MulVec(c.pullback0, u)), image);
      MulVecZeros(r);
      AddZeros(MulVec(c.coarseD0, u));
    }
  }

  lemma SummandInSpan(a: Matrix, v: Vec, w: Vec)
    requires |v| == |w| && InSpan(a, v) && InSpan(a, Add(v, w))
    ensures InSpan(a, w)
  {
    SpanScale(a, -1.0, v);
    SpanAdd(a, Add(v, w), Scale(-1.0, v));
    assert Add(Add(v, w), Scale(-1.0, v)) == w;
  }

  lemma InjectionKeepsIndependence(c: ComplexMap, r: Matrix)
    requires IsCochainMap(c) && IsH1Basis(r, c.coarseD0, c.coarseD1) && InjectiveOnH1(c)
    ensures IndependentMod(c.fineD0, MatMul(c.pullback1, r))
  {
    HstackSpans(c.coarseD0, r);
    forall y | |y| == r.cols && InSpan(c.fineD0, MulVec(MatMul(c.pullback1, r), y)) ensures y == Zeros(r.cols) {
      MulAssociates(c.pullback1, r, y);
      SpanTransfers(r, Hstack(c.coarseD0, r), MulVec(r, y));
      assert InKernel(c.coarseD1, MulVec(r, y));
    }
  }

  lemma SurjectiveFlag(c: ComplexMap)
    requires IsCochainMap(c)
    ensures AnalysisOf(c).surjective <==> SurjectiveOnH1(c)
  {
    var k, l := KernelOf(c.coarseD1), KernelOf(c.fineD1);
    var s := ImageStack(c, k);
    ImageOfCycles(c, k, l);
    RankOfIndependent(l);
    if Rank(s) == l.cols { EqualRankEqualSpan(s, l); SpannedCyclesAreImages(c, k, l); }
    if SurjectiveOnH1(c) { ImagesSpanCycles(c, k, l); RankOfEqualSpans(s, l); }
  }

  lemma ImageOfCycles(c: ComplexMap, k: Matrix, l: Matrix)
    requires IsCochainMap(c) && IsKernelBasis(k, c.coarseD1) && IsKernelBasis(l, c.fineD1)
    ensures SubSpan(ImageStack(c, k), l)
  {
    BoundariesAreCycles(c.fineD0, c.fineD1, l);
    forall x | |x| == k.cols ensures InSpan(l, MulVec(MatMul(c.pullback1, k), x)) {
      MulAssociates(c.pullback1, k, x);
      MappedCycle(c, MulVec(k, x));
    }
    SubSpanHstack(c.fineD0, MatMul(c.pullback1, k), l);
  }

  lemma SpannedCyclesAreImages(c: ComplexMap, k: Matrix, l: Matrix)
    requires IsCochainMap(c) && IsKernelBasis(k, c.coarseD1) && IsKernelBasis(l, c.fineD1)
    requires SubSpan(l, ImageStack(c, k))
    ensures SurjectiveOnH1(c)
  {
    forall w | InKernel(c.fineD1, w)
      ensures exists z :: InKernel(c.coarseD1, z) && Congruent(c.fineD0, w, MulVec(c.pullback1, z))
    {
      SpanTransfers(l, ImageStack(c, k), w);
      var u, x := SpanOfHstack(c.fineD0, MatMul(c.pullback1, k), w);
      MulAssociates(c.pullback1, k, x);
      var z := MulVec(k, x);
      assert Sub(w, MulVec(c.pullback1, z)) == MulVec(c.fineD0, u);
      assert InKernel(c.coarseD1, z);
    }
  }

  lemma ImagesSpanCycles(c: ComplexMap, k: Matrix, l: Matrix)
    requires IsCochainMap(c) && IsKernelBasis(k, c.coarseD1) && IsKernelBasis(l, c.fineD1) && SurjectiveOnH1(c)
    ensures SubSpan(l, ImageStack(c, k))
  {
    var s := ImageStack(c, k);
    HstackSpans(c.fineD0, MatMul(c.pullback1, k));
    forall x | |x| == l.cols ensures InSpan(s, MulVec(l, x)) {
      var w := MulVec(l, x);
      assert InKernel(c.fineD1, w);
      var z :| InKernel(c.coarseD1, z) && Congruent(c.fineD0, w, MulVec(c.pullback1, z));
      var y :| |y| == k.cols && MulVec(k, y) == z;
      MulAssociates(c.pullback1, k, y);
      CongruentInSpan(c.fineD0, s, w, MulVec(MatMul(c.pullback1, k), y));
    }
  }

  lemma CongruentInSpan(a: Matrix, s: Matrix, w: Vec, v: Vec)
    requires SubSpan(a, s) && Congruent(a, w, v) && InSpan(s, v)
    ensures InSpan(s, w)
  {
    SpanTransfers(a, s, Sub(w, v));
    SpanAdd(s, Sub(w, v), v);
    assert Add(Sub(w, v), v) == w;
  }
}
