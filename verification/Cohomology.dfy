/**
 The H1 comparison of necessity_map.py: the guarded analysis of a map of three-term
 complexes, the greedy choice of H1 representatives and the induced matrix.
 */
module Cohomology {
  import opened Options
  import opened Matrices
  import opened Spans
  import opened LinearSystems
  import opened Quotients
  import opened ReducedForms

  datatype ComplexMap = ComplexMap(
    coarseD0: Matrix, coarseD1: Matrix, fineD0: Matrix, fineD1: Matrix,
    pullback0: Matrix, pullback1: Matrix, pullback2: Matrix)

  predicate IsComplex(d0: Matrix, d1: Matrix) {
    d1.cols == d0.rows && IsZero(MatMul(d1, d0))
  }

  predicate SquareCommutes(a: Matrix, b: Matrix, c: Matrix, d: Matrix) {
    a.cols == b.rows && c.cols == d.rows && MatMul(a, b) == MatMul(c, d)
  }

  /** The four guards, with the shape checks of the products in them. */
  predicate IsCochainMap(c: ComplexMap) {
    && IsComplex(c.coarseD0, c.coarseD1)
    && IsComplex(c.fineD0, c.fineD1)
    && SquareCommutes(c.fineD0, c.pullback0, c.pullback1, c.coarseD0)
    && SquareCommutes(c.fineD1, c.pullback1, c.pullback2, c.coarseD1)
  }

  datatype H1Analysis = H1Analysis(
    coarseDimension: int, fineDimension: int, comparisonRank: int,
    injective: bool, surjective: bool, isomorphism: bool)

  function Analysis(coarse: int, fine: int, rank: int): H1Analysis {
    H1Analysis(coarse, fine, rank, rank == coarse, rank == fine, rank == coarse && rank == fine)
  }

  ghost function H1Dimension(d0: Matrix, d1: Matrix): int {
    d1.cols - Rank(d1) - Rank(d0)
  }

  /** Boundaries and images of cycles, side by side. */
  ghost function ImageStack(c: ComplexMap, cycles: Matrix): Matrix
    requires IsCochainMap(c) && cycles.rows == c.coarseD1.cols
  {
    Hstack(c.fineD0, MatMul(c.pullback1, cycles))
  }

  ghost function ComparisonRank(c: ComplexMap): int
    requires IsCochainMap(c)
  {
    Rank(ImageStack(c, KernelOf(c.coarseD1))) - Rank(c.fineD0)
  }

  ghost function AnalysisOf(c: ComplexMap): H1Analysis
    requires IsCochainMap(c)
  {
    Analysis(H1Dimension(c.coarseD0, c.coarseD1), H1Dimension(c.fineD0, c.fineD1), ComparisonRank(c))
  }

  lemma ProductSubSpan(p: Matrix, a: Matrix, b: Matrix)
    requires p.cols == a.rows && SubSpan(a, b)
    ensures SubSpan(MatMul(p, a), MatMul(p, b))
  {
    forall x | |x| == a.cols ensures InSpan(MatMul(p, b), MulVec(MatMul(p, a), x)) {
      MulAssociates(p, a, x);
      var y :| |y| == b.cols && MulVec(b, y) == MulVec(a, x);
      MulAssociates(p, b, y);
    }
  }

  /** The comparison rank does not depend on the kernel basis. */
  lemma AnyKernelBasis(c: ComplexMap, cycles: Matrix)
    requires IsCochainMap(c) && IsKernelBasis(cycles, c.coarseD1)
    ensures Rank(ImageStack(c, cycles)) == Rank(ImageStack(c, KernelOf(c.coarseD1)))
  {
    var k := KernelOf(c.coarseD1);
    KernelBasesSpanAlike(cycles, k, c.coarseD1);
    KernelBasesSpanAlike(k, cycles, c.coarseD1);
    ProductSubSpan(c.pullback1, cycles, k);
    ProductSubSpan(c.pullback1, k, cycles);
    SubSpanReflexive(c.fineD0);
    HstackMonotone(c.fineD0, c.fineD0, MatMul(c.pullback1, cycles), MatMul(c.pullback1, k));
    HstackMonotone(c.fineD0, c.fineD0, MatMul(c.pullback1, k), MatMul(c.pullback1, cycles));
    RankOfEqualSpans(ImageStack(c, cycles), ImageStack(c, k));
  }

  /** None where a guard raises; otherwise the dimensions and rank its fields name. */
  method AnalyzeComplexMap(c: ComplexMap) returns (r: Option<H1Analysis>)
    ensures r.Some? <==> IsCochainMap(c)
    ensures r.Some? ==> r.value == AnalysisOf(c)
  {
    if !IsCochainMap(c) { return None; }
    var coarseCycles := KernelBasis(c.coarseD1);
    var mappedCycles := MatMul(c.pullback1, coarseCycles);
    var coarseRank := MatrixRank(c.coarseD0);
    var fineCycles := KernelBasis(c.fineD1);
    var fineRank := MatrixRank(c.fineD0);
    var stackRank := MatrixRank(Hstack(c.fineD0, mappedCycles));
    AnyKernelBasis(c, coarseCycles);
    var coarse: int, fine: int := coarseCycles.cols as int - coarseRank, fineCycles.cols as int - fineRank;
    return Some(Analysis(coarse, fine, stackRank as int - fineRank));
  }

  // ---------- H1 representatives ----------

  /** Cycles that, with the boundaries, give every cycle, and are independent modulo them. */
  ghost predicate IsH1Basis(r: Matrix, d0: Matrix, d1: Matrix) {
    && r.rows == d0.rows
    && r.cols == H1Dimension(d0, d1)
    && (forall z {:trigger InKernel(d1, z)} {:trigger InSpan(Hstack(d0, r), z)} :: InKernel(d1, z) <==> InSpan(Hstack(d0, r), z))
    && IndependentMod(d0, r)
  }

  lemma BoundariesAreCycles(d0: Matrix, d1: Matrix, k: Matrix)
    requires d1.cols == d0.rows && IsKernelBasis(k, d1)
    ensures IsZero(MatMul(d1, d0)) <==> SubSpan(d0, k)
  {
    var product := MatMul(d1, d0);
    ZeroMatrixMeans(product);
    forall x | |x| == d0.cols ensures MulVec(product, x) == Zeros(product.rows) <==> InSpan(k, MulVec(d0, x)) {
      MulAssociates(d1, d0, x);
      assert InKernel(d1, MulVec(d0, x)) <==> MulVec(product, x) == Zeros(product.rows);
      if InSpan(k, MulVec(d0, x)) {
        var y :| |y| == k.cols && MulVec(k, y) == MulVec(d0, x);
      }
    }
    if SubSpan(d0, k) {
      forall x | |x| == d0.cols ensures MulVec(product, x) == Zeros(product.rows) {
        assert InSpan(k, MulVec(d0, x));
      }
    }
  }

  /** Stacking the boundaries on the cycles adds no rank exactly when they are cycles. */
  lemma StackRankIsKernel(d0: Matrix, d1: Matrix, k: Matrix)
    requires d1.cols == d0.rows && IsKernelBasis(k, d1)
    ensures Rank(Hstack(d0, k)) == k.cols <==> IsZero(MatMul(d1, d0))
  {
    var s := Hstack(d0, k);
    BoundariesAreCycles(d0, d1, k);
    RankOfIndependent(k);
    HstackSpans(d0, k);
    if SubSpan(d0, k) {
      SubSpanReflexive(k);
      SubSpanHstack(d0, k, k);
      RankOfEqualSpans(s, k);
    }
    if Rank(s) == k.cols {
      EqualRankEqualSpan(k, s);
      SubSpanTransitive(d0, s, k);
    }
  }

  /** All candidates considered, the kept ones are an H1 basis. */
  lemma KeptIsH1Basis(d0: Matrix, d1: Matrix, k: Matrix)
    requires IsComplex(d0, d1) && IsKernelBasis(k, d1) && k.cols + Rank(d1) == d1.cols
    ensures IsH1Basis(KeptMatrix(d0, k, k.cols), d0, d1)
  {
    var r := KeptMatrix(d0, k, k.cols);
    var s, t := Hstack(d0, r), Hstack(d0, k);
    KeptSpan(d0, k, k.cols);
    PrefixAll(k);
    StackRankIsKernel(d0, d1, k);
    RankOfEqualSpans(s, t);
    RankGap(d0, r);
    BoundariesAreCycles(d0, d1, k);
    SubSpanReflexive(k);
    SubSpanHstack(d0, k, k);
    HstackSpans(d0, k);
    SubSpanTransitive(s, t, k);
    SubSpanTransitive(k, t, s);
    SpanIsKernel(s, k, d1);
  }

  lemma SpanIsKernel(s: Matrix, k: Matrix, d1: Matrix)
    requires IsKernelBasis(k, d1) && SubSpan(s, k) && SubSpan(k, s)
    ensures forall z {:trigger InKernel(d1, z)} {:trigger InSpan(s, z)} :: InKernel(d1, z) <==> InSpan(s, z)
  {
    forall z ensures InKernel(d1, z) <==> InSpan(s, z) {
      if InKernel(d1, z) { SpanTransfers(k, s, z); }
      if InSpan(s, z) {
        SpanTransfers(s, k, z);
        var y :| |y| == k.cols && MulVec(k, y) == z;
      }
    }
  }

  /** The call returns: for composable matrices, on a complex; otherwise only when there is
      no cycle to stack and no boundary to subtract. */
  ghost predicate HasRepresentatives(d0: Matrix, d1: Matrix) {
    if d1.cols == d0.rows then IsZero(MatMul(d1, d0)) else Rank(d1) == d1.cols && Rank(d0) == 0
  }

  /** The representatives the program chooses. */
  ghost predicate AreRepresentatives(r: Matrix, d0: Matrix, d1: Matrix) {
    && r.rows == d0.rows
    && if d1.cols == d0.rows then exists k, free :: IsChosen(r, d0, d1, k, free) else r.cols == 0
  }

  ghost predicate IsChosen(r: Matrix, d0: Matrix, d1: Matrix, k: Matrix, free: seq<nat>)
    requires d1.cols == d0.rows
  {
    IsKernelBasis(k, d1) && PicksFree(k, d1, free) && r == KeptMatrix(d0, k, k.cols)
  }

  lemma RepresentativesAreDetermined(r: Matrix, s: Matrix, d0: Matrix, d1: Matrix)
    requires AreRepresentatives(r, d0, d1) && AreRepresentatives(s, d0, d1)
    ensures r == s
  {
    if d1.cols == d0.rows {
      var k, free :| IsChosen(r, d0, d1, k, free);
      var l, other :| IsChosen(s, d0, d1, l, other);
      KernelBasisIsDetermined(d1, k, l, free, other);
    } else {
      EqualByColumns(r, s);
    }
  }

  lemma RepresentativesAreBasis(r: Matrix, d0: Matrix, d1: Matrix)
    requires AreRepresentatives(r, d0, d1) && IsComplex(d0, d1)
    ensures IsH1Basis(r, d0, d1)
  {
    var k, free :| IsChosen(r, d0, d1, k, free);
    KernelBasisColumns(k, d1);
    KeptIsH1Basis(d0, d1, k);
  }

  lemma KernelBasisColumns(k: Matrix, m: Matrix)
    requires IsKernelBasis(k, m)
    ensures k.cols + Rank(m) == m.cols
  {
    var l := KernelOf(m);
    KernelBasesSpanAlike(k, l, m);
    KernelBasesSpanAlike(l, k, m);
    RankOfEqualSpans(k, l);
    RankOfIndependent(k);
    RankOfIndependent(l);
  }

  /** The greedy pass over a kernel basis. For composable matrices the counting assertion of
      the program, None here, fires exactly when d1 d0 is not zero. */
  method QuotientH1Representatives(d0: Matrix, d1: Matrix) returns (r: Option<Matrix>)
    ensures r.Some? <==> HasRepresentatives(d0, d1)
    ensures r.Some? ==> AreRepresentatives(r.value, d0, d1)
    ensures r.Some? && d1.cols == d0.rows ==> IsH1Basis(r.value, d0, d1)
  {
    var cycles := KernelBasis(d1);
    var span := d0;
    var baseRank := MatrixRank(d0);
    var rank := baseRank;
    if d1.cols != d0.rows {
      if cycles.cols > 0 || baseRank != 0 { return None; }
      return Some(MatrixData(d0.rows, 0, seq(d0.rows, _ => [])));
    }
    var representatives: seq<Vec> := [];
    NothingKept(d0, cycles);
    for column := 0 to cycles.cols
      invariant representatives == Kept(d0, cycles, column)
      invariant span == Hstack(d0, KeptMatrix(d0, cycles, column))
      invariant rank == Rank(span)
    {
      var candidate := Column(cycles, column);
      var candidateSpan := Hstack(span, ColumnMatrix(candidate));
      var candidateRank := MatrixRank(candidateSpan);
      RankAppend(span, candidate);
      KeepNext(d0, cycles, column + 1);
      if candidateRank > rank {
        representatives := representatives + [candidate];
        span, rank := candidateSpan, candidateRank;
      }
    }
    KeptCount(d0, d1, cycles);
    if |representatives| as int != cycles.cols as int - baseRank { return None; }
    KeptIsH1Basis(d0, d1, cycles);
    var result := StackColumns(representatives, d0.rows);
    ghost var free :| PicksFree(cycles, d1, free);
    assert IsChosen(result, d0, d1, cycles, free);
    assert result == KeptMatrix(d0, cycles, cycles.cols) by { KeptMatrixIs(d0, cycles, cycles.cols); }
    return Some(result);
  }

  lemma NothingKept(d0: Matrix, k: Matrix)
    requires d0.rows == k.rows
    ensures Kept(d0, k, 0) == [] && Hstack(d0, KeptMatrix(d0, k, 0)) == d0
  {
    HstackEmpty(d0, KeptMatrix(d0, k, 0));
  }

  lemma KeptMatrixIs(d0: Matrix, k: Matrix, c: nat)
    requires d0.rows == k.rows && c <= k.cols
    ensures KeptMatrix(d0, k, c) == FromColumns(Kept(d0, k, c), d0.rows)
  {
  }

  /** The count the program asserts is reached exactly on a complex. */
  lemma KeptCount(d0: Matrix, d1: Matrix, k: Matrix)
    requires d1.cols == d0.rows && IsKernelBasis(k, d1)
    ensures |Kept(d0, k, k.cols)| + Rank(d0) == k.cols <==> IsZero(MatMul(d1, d0))
  {
    KeptSpan(d0, k, k.cols);
    PrefixAll(k);
    RankOfEqualSpans(Hstack(d0, KeptMatrix(d0, k, k.cols)), Hstack(d0, k));
    StackRankIsKernel(d0, d1, k);
  }

  method StackColumns(columns: seq<Vec>, rows: nat) returns (m: Matrix)
    requires forall j :: 0 <= j < |columns| ==> |columns[j]| == rows
    ensures m == FromColumns(columns, rows)
  {
    if columns == [] { return FromColumns([], rows); }
    m := ColumnMatrix(columns[0]);
    EqualByColumns(m, FromColumns(columns[..1], rows));
    for j := 1 to |columns|
      invariant m == FromColumns(columns[..j], rows)
    {
      FromColumnsAppend(columns[..j], columns[j], rows);
      assert columns[..j + 1] == columns[..j] + [columns[j]];
      m := Hstack(m, ColumnMatrix(columns[j]));
    }
    assert columns[..|columns|] == columns;
  }

  lemma H1BasisExists(d0: Matrix, d1: Matrix) returns (r: Matrix)
    requires IsComplex(d0, d1)
    ensures IsH1Basis(r, d0, d1)
  {
    KeptIsH1Basis(d0, d1, KernelOf(d1));
    r := KeptMatrix(d0, KernelOf(d1), KernelOf(d1).cols);
  }

  // ---------- The induced matrix ----------

  datatype H1MapMatrix = H1MapMatrix(coarse: Matrix, fine: Matrix, induced: Matrix)

  /** Column by column, b is fr m modulo the span of a. */
  ghost predicate Represents(a: Matrix, fr: Matrix, b: Matrix, m: Matrix) {
    && a.rows == fr.rows == b.rows && m.rows == fr.cols && m.cols == b.cols
    && forall x {:trigger MulVec(b, x)} {:trigger MulVec(m, x)} :: |x| == b.cols ==> Congruent(a, MulVec(b, x), MulVec(fr, MulVec(m, x)))
  }

  lemma {:induction false} RepresentsByColumns(a: Matrix, fr: Matrix, b: Matrix, m: Matrix)
    requires a.rows == fr.rows == b.rows && m.rows == fr.cols && m.cols == b.cols
    requires forall j :: 0 <= j < b.cols ==> Congruent(a, Column(b, j), MulVec(fr, Column(m, j)))
    ensures Represents(a, fr, b, m)
  {
    var fm := MatMul(fr, m);
    var d: Matrix := MatrixData(a.rows, b.cols, seq(a.rows, i requires 0 <= i < a.rows => Sub(b.entries[i], fm.entries[i])));
    forall j | 0 <= j < b.cols ensures InSpan(a, Column(d, j)) {
      ProductColumn(fr, m, j);
      assert Column(d, j) == Sub(Column(b, j), MulVec(fr, Column(m, j)));
    }
    SubSpanByColumns(d, a);
    forall x | |x| == b.cols ensures Congruent(a, MulVec(b, x), MulVec(fr, MulVec(m, x))) {
      MulAssociates(fr, m, x);
      forall i | 0 <= i < a.rows ensures MulVec(d, x)[i] == MulVec(b, x)[i] - MulVec(fm, x)[i] {
        DotSub(b.entries[i], fm.entries[i], x);
      }
      assert MulVec(d, x) == Sub(MulVec(b, x), MulVec(fm, x));
    }
  }

  /** The induced matrix: each mapped coarse representative, modulo fine boundaries. */
  ghost predicate IsInducedMap(c: ComplexMap, r: H1MapMatrix)
    requires IsCochainMap(c)
  {
    && IsH1Basis(r.coarse, c.coarseD0, c.coarseD1)
    && IsH1Basis(r.fine, c.fineD0, c.fineD1)
    && Represents(c.fineD0, r.fine, MatMul(c.pullback1, r.coarse), r.induced)
  }

  /** Images of cycles are cycles. */
  lemma MappedCycle(c: ComplexMap, z: Vec)
    requires IsCochainMap(c) && InKernel(c.coarseD1, z)
    ensures InKernel(c.fineD1, MulVec(c.pullback1, z))
  {
    MulAssociates(c.fineD1, c.pullback1, z);
    MulAssociates(c.pullback2, c.coarseD1, z);
    MulVecZeros(c.pullback2);
  }

  /** Images of boundaries are boundaries. */
  lemma MappedBoundary(c: ComplexMap, x: Vec)
    requires IsCochainMap(c) && |x| == c.coarseD0.cols
    ensures MulVec(c.pullback1, MulVec(c.coarseD0, x)) == MulVec(c.fineD0, MulVec(c.pullback0, x))
  {
    MulAssociates(c.fineD0, c.pullback0, x);
    MulAssociates(c.pullback1, c.coarseD0, x);
  }

  lemma BasisColumnIsCycle(r: Matrix, d0: Matrix, d1: Matrix, j: nat)
    requires IsH1Basis(r, d0, d1) && j < r.cols
    ensures InKernel(d1, Column(r, j))
  {
    HstackSpans(d0, r);
    SpanColumn(r, j);
    SpanTransfers(r, Hstack(d0, r), Column(r, j));
  }

  lemma SolutionIsCongruent(a: Matrix, fr: Matrix, v: Vec, s: Vec)
    requires a.rows == fr.rows && |s| == a.cols + fr.cols && MulVec(Hstack(a, fr), s) == v
    ensures Congruent(a, v, MulVec(fr, s[a.cols..]))
  {
    HstackSplit(a, fr, s);
    assert Sub(v, MulVec(fr, s[a.cols..])) == MulVec(a, s[..a.cols]);
  }

  /** A fine vector the solver can express: a cycle. */
  ghost predicate IsExpressible(d0: Matrix, d1: Matrix, v: Vec) {
    |v| == d0.rows && if d1.cols == d0.rows then InKernel(d1, v) else v == Zeros(d0.rows)
  }

  lemma RankZeroSpan(a: Matrix, v: Vec)
    requires Rank(a) == 0 && InSpan(a, v)
    ensures v == Zeros(a.rows)
  {
    var e: Matrix := MatrixData(a.rows, 0, seq(a.rows, _ => []));
    assert MulVec(e, []) == Zeros(a.rows);
    SpanZeros(a);
    assert SubSpan(e, a) by { forall x | |x| == 0 ensures InSpan(a, MulVec(e, x)) { assert x == []; } }
    EqualRankEqualSpan(e, a);
    SpanTransfers(a, e, v);
    var x :| |x| == 0 && MulVec(e, x) == v;
    assert x == [];
  }

  lemma ExpressibleIsSpanned(d0: Matrix, d1: Matrix, r: Matrix, v: Vec)
    requires HasRepresentatives(d0, d1) && AreRepresentatives(r, d0, d1) && |v| == d0.rows
    ensures IsExpressible(d0, d1, v) <==> InSpan(Hstack(d0, r), v)
  {
    if d1.cols == d0.rows {
      RepresentativesAreBasis(r, d0, d1);
    } else {
      HstackEmpty(d0, r);
      SpanZeros(d0);
      if InSpan(d0, v) { RankZeroSpan(d0, v); }
    }
  }

  /** Both quotients have representatives, the pullback composes with them, and it sends each
      chosen coarse representative to a fine cycle. */
  ghost predicate CanInduce(coarseD0: Matrix, coarseD1: Matrix, fineD0: Matrix, fineD1: Matrix, pullback1: Matrix) {
    && HasRepresentatives(coarseD0, coarseD1) && HasRepresentatives(fineD0, fineD1)
    && pullback1.cols == coarseD0.rows
    && forall r {:trigger AreRepresentatives(r, coarseD0, coarseD1)} :: AreRepresentatives(r, coarseD0, coarseD1) ==>
         SendsToCycles(fineD0, fineD1, pullback1, r)
  }

  ghost predicate SendsToCycles(fineD0: Matrix, fineD1: Matrix, pullback1: Matrix, r: Matrix) {
    pullback1.cols == r.rows && forall j :: 0 <= j < r.cols ==> IsExpressible(fineD0, fineD1, MulVec(pullback1, Column(r, j)))
  }

  /** Each mapped coarse representative is the fine combination the matrix names, modulo
      fine boundaries. */
  ghost predicate IsInducedBy(coarseD0: Matrix, coarseD1: Matrix, fineD0: Matrix, fineD1: Matrix, pullback1: Matrix, r: H1MapMatrix) {
    && AreRepresentatives(r.coarse, coarseD0, coarseD1) && AreRepresentatives(r.fine, fineD0, fineD1)
    && pullback1.cols == coarseD0.rows && r.induced.rows == r.fine.cols && r.induced.cols == r.coarse.cols
    && forall j :: 0 <= j < r.coarse.cols ==>
         Congruent(fineD0, MulVec(pullback1, Column(r.coarse, j)), MulVec(r.fine, Column(r.induced, j)))
  }

  /** Any five matrices: returns exactly when CanInduce holds. */
  method InducedH1MapMatrix(coarseD0: Matrix, coarseD1: Matrix, fineD0: Matrix, fineD1: Matrix, pullback1: Matrix)
    returns (r: Option<H1MapMatrix>)
    ensures r.Some? <==> CanInduce(coarseD0, coarseD1, fineD0, fineD1, pullback1)
    ensures r.Some? ==> IsInducedBy(coarseD0, coarseD1, fineD0, fineD1, pullback1, r.value)
  {
    hide InSpan, Hstack, MulVec, Rank, IsZero, HasRepresentatives, IsExpressible, IsH1Basis;
    var coarse := QuotientH1Representatives(coarseD0, coarseD1);
    if coarse.None? { return None; }
    var fine := QuotientH1Representatives(fineD0, fineD1);
    if fine.None? || pullback1.cols != coarse.value.rows { return None; }
    var coarseReps, fineReps := coarse.value, fine.value;
    forall s | AreRepresentatives(s, coarseD0, coarseD1) ensures s == coarseReps {
      RepresentativesAreDetermined(s, coarseReps, coarseD0, coarseD1);
    }
    var mapped := MatMul(pullback1, coarseReps);
    var fineSpan := Hstack(fineD0, fineReps);
    hide AreRepresentatives;
    var columns: seq<Vec> := [];
    for column := 0 to mapped.cols
      invariant |columns| == column
      invariant forall j :: 0 <= j < column ==>
        && |columns[j]| == fineReps.cols && IsExpressible(fineD0, fineD1, MulVec(pullback1, Column(coarseReps, j)))
        && Congruent(fineD0, MulVec(pullback1, Column(coarseReps, j)), MulVec(fineReps, columns[j]))
    {
      var rhs := Column(mapped, column);
      ProductColumn(pullback1, coarseReps, column);
      var solution := SolveLinearSystem(fineSpan, rhs);
      Solvable(fineD0, fineD1, fineReps, rhs);
      if solution.Failed? { return None; }
      SolutionIsCongruent(fineD0, fineReps, rhs, solution.solution);
      columns := columns + [solution.solution[fineD0.cols..]];
    }
    var induced := FromColumns(columns, fineReps.cols);
    return Some(H1MapMatrix(coarseReps, fineReps, induced));
  }

  lemma Solvable(d0: Matrix, d1: Matrix, r: Matrix, v: Vec)
    requires HasRepresentatives(d0, d1) && AreRepresentatives(r, d0, d1)
    ensures IsExpressible(d0, d1, v) <==> |v| == d0.rows && InSpan(Hstack(d0, r), v)
  {
    if |v| == d0.rows { ExpressibleIsSpanned(d0, d1, r, v); }
  }

  /** On a cochain map no solve fails. */
  lemma CochainMapInduces(c: ComplexMap)
    requires IsCochainMap(c)
    ensures CanInduce(c.coarseD0, c.coarseD1, c.fineD0, c.fineD1, c.pullback1)
  {
    forall r | AreRepresentatives(r, c.coarseD0, c.coarseD1) ensures SendsToCycles(c.fineD0, c.fineD1, c.pullback1, r) {
      RepresentativesAreBasis(r, c.coarseD0, c.coarseD1);
      forall j | 0 <= j < r.cols ensures InKernel(c.fineD1, MulVec(c.pullback1, Column(r, j))) {
        BasisColumnIsCycle(r, c.coarseD0, c.coarseD1, j);
        MappedCycle(c, Column(r, j));
      }
    }
  }

  /** On a cochain map what is returned is the induced matrix on H1. */
  lemma InducedByIsInducedMap(c: ComplexMap, r: H1MapMatrix)
    requires IsCochainMap(c) && IsInducedBy(c.coarseD0, c.coarseD1, c.fineD0, c.fineD1, c.pullback1, r)
    ensures IsInducedMap(c, r)
  {
    RepresentativesAreBasis(r.coarse, c.coarseD0, c.coarseD1);
    RepresentativesAreBasis(r.fine, c.fineD0, c.fineD1);
    forall j | 0 <= j < r.coarse.cols
      ensures Congruent(c.fineD0, Column(MatMul(c.pullback1, r.coarse), j), MulVec(r.fine, Column(r.induced, j)))
    {
      ProductColumn(c.pullback1, r.coarse, j);
    }
    RepresentsByColumns(c.fineD0, r.fine, MatMul(c.pullback1, r.coarse), r.induced);
  }
}
