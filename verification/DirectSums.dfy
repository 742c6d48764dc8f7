/**
 Block-diagonal sums in necessity_map.py: the analysis of a direct sum of comparisons is
 the field-by-field sum of their analyses.
 */
module DirectSums {
  import opened Matrices
  import opened Spans
  import opened LinearSystems
  import opened Quotients
  import opened Cohomology

  // ---------- Two blocks ----------

  function DiagRow(a: Matrix, b: Matrix, i: nat): (row: Vec)
    requires i < a.rows + b.rows
    ensures |row| == a.cols + b.cols
  {
    if i < a.rows then a.entries[i] + Zeros(b.cols) else Zeros(a.cols) + b.entries[i - a.rows]
  }

  function Diag(a: Matrix, b: Matrix): (m: Matrix)
    ensures m.rows == a.rows + b.rows && m.cols == a.cols + b.cols
    ensures forall i :: 0 <= i < m.rows ==> m.entries[i] == DiagRow(a, b, i)
  {
    MatrixData(a.rows + b.rows, a.cols + b.cols,
      seq(a.rows + b.rows, i requires 0 <= i < a.rows + b.rows => DiagRow(a, b, i)))
  }

  lemma DiagMulVec(a: Matrix, b: Matrix, x: Vec, y: Vec)
    requires |x| == a.cols && |y| == b.cols
    ensures MulVec(Diag(a, b), x + y) == MulVec(a, x) + MulVec(b, y)
  {
    forall i | 0 <= i < a.rows + b.rows ensures MulVec(Diag(a, b), x + y)[i] == (MulVec(a, x) + MulVec(b, y))[i] {
      if i < a.rows {
        DotConcat(a.entries[i], Zeros(b.cols), x, y);
        DotVanishes(Zeros(b.cols), y);
      } else {
        DotConcat(Zeros(a.cols), b.entries[i - a.rows], x, y);
        DotVanishes(Zeros(a.cols), x);
      }
    }
  }

  lemma DiagSplit(a: Matrix, b: Matrix, z: Vec)
    requires |z| == a.cols + b.cols
    ensures MulVec(Diag(a, b), z) == MulVec(a, z[..a.cols]) + MulVec(b, z[a.cols..])
  {
    assert z == z[..a.cols] + z[a.cols..];
    DiagMulVec(a, b, z[..a.cols], z[a.cols..]);
  }

  lemma ConcatEqual(a: Vec, b: Vec, c: Vec, d: Vec)
    requires a + b == c + d && |a| == |c|
    ensures a == c && b == d
  {
    assert a == (a + b)[..|a|] && c == (c + d)[..|c|];
    assert b == (a + b)[|a|..] && d == (c + d)[|c|..];
  }

  lemma SpanOfDiag(a: Matrix, b: Matrix, v: Vec, w: Vec)
    requires |v| == a.rows && |w| == b.rows
    ensures InSpan(Diag(a, b), v + w) <==> InSpan(a, v) && InSpan(b, w)
  {
    if InSpan(Diag(a, b), v + w) {
      var z :| |z| == a.cols + b.cols && MulVec(Diag(a, b), z) == v + w;
      DiagSplit(a, b, z);
      ConcatEqual(MulVec(a, z[..a.cols]), MulVec(b, z[a.cols..]), v, w);
    }
    if InSpan(a, v) && InSpan(b, w) {
      var x :| |x| == a.cols && MulVec(a, x) == v;
      var y :| |y| == b.cols && MulVec(b, y) == w;
      DiagMulVec(a, b, x, y);
      assert |x + y| == Diag(a, b).cols;
    }
  }

  lemma ZerosConcat(m: nat, n: nat)
    ensures Zeros(m) + Zeros(n) == Zeros(m + n)
  {
  }

  lemma KernelOfDiag(a: Matrix, b: Matrix, x: Vec, y: Vec)
    requires |x| == a.cols && |y| == b.cols
    ensures InKernel(Diag(a, b), x + y) <==> InKernel(a, x) && InKernel(b, y)
  {
    DiagMulVec(a, b, x, y);
    ZerosConcat(a.rows, b.rows);
    if InKernel(Diag(a, b), x + y) {
      ConcatEqual(MulVec(a, x), MulVec(b, y), Zeros(a.rows), Zeros(b.rows));
    }
  }

  lemma EqualByRows(a: Matrix, b: Matrix)
    requires a.rows == b.rows && a.cols == b.cols
    requires forall i :: 0 <= i < a.rows ==> a.entries[i] == b.entries[i]
    ensures a == b
  {
    assert a.entries == b.entries;
  }

  lemma DiagRowPrefix(a: Matrix, b: Matrix, i: nat)
    requires b.cols > 0 && i < a.rows + b.rows
    ensures DiagRow(a, b, i)[..a.cols + b.cols - 1] == DiagRow(a, Prefix(b, b.cols - 1), i)
    ensures DiagRow(a, b, i)[a.cols + b.cols - 1] == (Zeros(a.rows) + Column(b, b.cols - 1))[i]
  {
    if i >= a.rows {
      var r := b.entries[i - a.rows];
      assert (Zeros(a.cols) + r)[..a.cols + b.cols - 1] == Zeros(a.cols) + r[..b.cols - 1];
    }
  }

  lemma DiagLastColumnRight(a: Matrix, b: Matrix)
    requires b.cols > 0
    ensures Prefix(Diag(a, b), a.cols + b.cols - 1) == Diag(a, Prefix(b, b.cols - 1))
    ensures Column(Diag(a, b), a.cols + b.cols - 1) == Zeros(a.rows) + Column(b, b.cols - 1)
  {
    var last := a.cols + b.cols - 1;
    forall i | 0 <= i < a.rows + b.rows
      ensures Prefix(Diag(a, b), last).entries[i] == DiagRow(a, Prefix(b, b.cols - 1), i)
      ensures Column(Diag(a, b), last)[i] == (Zeros(a.rows) + Column(b, b.cols - 1))[i]
    {
      DiagRowPrefix(a, b, i);
    }
    EqualByRows(Prefix(Diag(a, b), last), Diag(a, Prefix(b, b.cols - 1)));
  }

  lemma DiagLastColumnLeft(a: Matrix, b: Matrix)
    requires b.cols == 0 && a.cols > 0
    ensures Prefix(Diag(a, b), a.cols - 1) == Diag(Prefix(a, a.cols - 1), b)
    ensures Column(Diag(a, b), a.cols - 1) == Column(a, a.cols - 1) + Zeros(b.rows)
  {
    var last, init := a.cols - 1, Prefix(a, a.cols - 1);
    forall i | 0 <= i < a.rows + b.rows ensures DiagRow(a, b, i)[..last] == DiagRow(init, b, i) {}
    EqualByRows(Prefix(Diag(a, b), last), Diag(init, b));
  }

  lemma NewInRightBlock(a: Matrix, b: Matrix)
    requires b.cols > 0
    ensures InSpan(Diag(a, Prefix(b, b.cols - 1)), Zeros(a.rows) + Column(b, b.cols - 1))
       <==> InSpan(Prefix(b, b.cols - 1), Column(b, b.cols - 1))
  {
    SpanOfDiag(a, Prefix(b, b.cols - 1), Zeros(a.rows), Column(b, b.cols - 1));
    SpanZeros(a);
  }

  lemma NewInLeftBlock(a: Matrix, b: Matrix)
    requires a.cols > 0
    ensures InSpan(Diag(Prefix(a, a.cols - 1), b), Column(a, a.cols - 1) + Zeros(b.rows))
       <==> InSpan(Prefix(a, a.cols - 1), Column(a, a.cols - 1))
  {
    SpanOfDiag(Prefix(a, a.cols - 1), b, Column(a, a.cols - 1), Zeros(b.rows));
    SpanZeros(b);
  }

  lemma {:induction false} RankOfDiag(a: Matrix, b: Matrix)
    ensures Rank(Diag(a, b)) == Rank(a) + Rank(b)
    decreases a.cols + b.cols
  {
    hide Diag, Prefix, Column, InSpan;
    if b.cols > 0 {
      DiagLastColumnRight(a, b);
      RankOfDiag(a, Prefix(b, b.cols - 1));
      NewInRightBlock(a, b);
    } else if a.cols > 0 {
      DiagLastColumnLeft(a, b);
      RankOfDiag(Prefix(a, a.cols - 1), b);
      NewInLeftBlock(a, b);
    }
  }

  lemma DiagProduct(a: Matrix, b: Matrix, c: Matrix, d: Matrix)
    requires a.cols == c.rows && b.cols == d.rows
    ensures MatMul(Diag(a, b), Diag(c, d)) == Diag(MatMul(a, c), MatMul(b, d))
  {
    var l, r := MatMul(Diag(a, b), Diag(c, d)), Diag(MatMul(a, c), MatMul(b, d));
    forall z | |z| == l.cols ensures MulVec(l, z) == MulVec(r, z) {
      var x, y := z[..c.cols], z[c.cols..];
      MulAssociates(Diag(a, b), Diag(c, d), z);
      DiagSplit(c, d, z);
      DiagMulVec(a, b, MulVec(c, x), MulVec(d, y));
      MulAssociates(a, c, x);
      MulAssociates(b, d, y);
      DiagSplit(MatMul(a, c), MatMul(b, d), z);
    }
    MatrixExtensional(l, r);
  }

  lemma DiagIsZero(a: Matrix, b: Matrix)
    requires IsZero(a) && IsZero(b)
    ensures IsZero(Diag(a, b))
  {
    forall i, j | 0 <= i < a.rows + b.rows && 0 <= j < a.cols + b.cols ensures DiagRow(a, b, i)[j] == 0.0 {}
  }

  lemma DiagKernelSpans(k: Matrix, a: Matrix, l: Matrix, b: Matrix, z: Vec)
    requires IsKernelBasis(k, a) && IsKernelBasis(l, b) && InKernel(Diag(a, b), z)
    ensures InSpan(Diag(k, l), z)
  {
    var x, y := z[..a.cols], z[a.cols..];
    assert z == x + y;
    KernelOfDiag(a, b, x, y);
    SpanOfDiag(k, l, x, y);
  }

  lemma DiagIndependent(k: Matrix, l: Matrix)
    requires Independent(k) && Independent(l)
    ensures Independent(Diag(k, l))
  {
    forall z | InKernel(Diag(k, l), z) ensures z == Zeros(k.cols + l.cols) {
      var x, y := z[..k.cols], z[k.cols..];
      assert z == x + y;
      KernelOfDiag(k, l, x, y);
      ZerosConcat(k.cols, l.cols);
    }
  }

  lemma DiagKernelMember(k: Matrix, a: Matrix, l: Matrix, b: Matrix, z: Vec)
    requires IsKernelBasis(k, a) && IsKernelBasis(l, b) && |z| == k.cols + l.cols
    ensures InKernel(Diag(a, b), MulVec(Diag(k, l), z))
  {
    DiagSplit(k, l, z);
    KernelOfDiag(a, b, MulVec(k, z[..k.cols]), MulVec(l, z[k.cols..]));
  }

  lemma DiagKernelBasis(k: Matrix, a: Matrix, l: Matrix, b: Matrix)
    requires IsKernelBasis(k, a) && IsKernelBasis(l, b)
    ensures IsKernelBasis(Diag(k, l), Diag(a, b))
  {
    hide MulVec, InKernel, InSpan, Independent, Diag;
    forall z | |z| == Diag(k, l).cols ensures InKernel(Diag(a, b), MulVec(Diag(k, l), z)) { DiagKernelMember(k, a, l, b, z); }
    forall z | InKernel(Diag(a, b), z) ensures InSpan(Diag(k, l), z) { DiagKernelSpans(k, a, l, b, z); }
    DiagIndependent(k, l);
  }

  /** Stacking two block sums spans the block sum of the stacks. */
  lemma StackOfDiagsForward(f: Matrix, g: Matrix, h: Matrix, i: Matrix)
    requires f.rows == h.rows && g.rows == i.rows
    ensures SubSpan(Hstack(Diag(f, g), Diag(h, i)), Diag(Hstack(f, h), Hstack(g, i)))
  {
    var big := Diag(Hstack(f, h), Hstack(g, i));
    HstackSpans(f, h);
    HstackSpans(g, i);
    DiagMonotone(f, Hstack(f, h), g, Hstack(g, i));
    DiagMonotone(h, Hstack(f, h), i, Hstack(g, i));
    SubSpanHstack(Diag(f, g), Diag(h, i), big);
  }

  lemma DiagMonotone(a: Matrix, a': Matrix, b: Matrix, b': Matrix)
    requires SubSpan(a, a') && SubSpan(b, b')
    ensures SubSpan(Diag(a, b), Diag(a', b'))
  {
    forall z | |z| == a.cols + b.cols ensures InSpan(Diag(a', b'), MulVec(Diag(a, b), z)) {
      DiagSplit(a, b, z);
      SpanOfDiag(a', b', MulVec(a, z[..a.cols]), MulVec(b, z[a.cols..]));
    }
  }

  lemma StackOfDiagsBackward(f: Matrix, g: Matrix, h: Matrix, i: Matrix)
    requires f.rows == h.rows && g.rows == i.rows
    ensures SubSpan(Diag(Hstack(f, h), Hstack(g, i)), Hstack(Diag(f, g), Diag(h, i)))
  {
    var s := Hstack(Diag(f, g), Diag(h, i));
    forall z | |z| == f.cols + h.cols + (g.cols + i.cols)
      ensures InSpan(s, MulVec(Diag(Hstack(f, h), Hstack(g, i)), z))
    {
      DiagSplit(Hstack(f, h), Hstack(g, i), z);
      DiagOfStacksInSpan(f, g, h, i, z[..f.cols + h.cols], z[f.cols + h.cols..]);
    }
  }

  lemma DiagOfStacksInSpan(f: Matrix, g: Matrix, h: Matrix, i: Matrix, x: Vec, y: Vec)
    requires f.rows == h.rows && g.rows == i.rows && |x| == f.cols + h.cols && |y| == g.cols + i.cols
    ensures InSpan(Hstack(Diag(f, g), Diag(h, i)), MulVec(Hstack(f, h), x) + MulVec(Hstack(g, i), y))
  {
    hide MulVec, Diag, Hstack, InSpan, Add;
    var x0, x1, y0, y1 := x[..f.cols], x[f.cols..], y[..g.cols], y[g.cols..];
    HstackSplit(f, h, x);
    HstackSplit(g, i, y);
    DiagMulVec(f, g, x0, y0);
    DiagMulVec(h, i, x1, y1);
    HstackSpansSum(Diag(f, g), Diag(h, i), x0 + y0, x1 + y1);
    AddConcat(MulVec(f, x0), MulVec(g, y0), MulVec(h, x1), MulVec(i, y1));
  }

  lemma AddConcat(a: Vec, b: Vec, c: Vec, d: Vec)
    requires |a| == |c| && |b| == |d|
    ensures Add(a + b, c + d) == Add(a, c) + Add(b, d)
  {
  }

  function SumOfTwo(c: ComplexMap, d: ComplexMap): ComplexMap {
    ComplexMap(Diag(c.coarseD0, d.coarseD0), Diag(c.coarseD1, d.coarseD1),
               Diag(c.fineD0, d.fineD0), Diag(c.fineD1, d.fineD1),
               Diag(c.pullback0, d.pullback0), Diag(c.pullback1, d.pullback1), Diag(c.pullback2, d.pullback2))
  }

  lemma SumOfTwoIsCochainMap(c: ComplexMap, d: ComplexMap)
    requires IsCochainMap(c) && IsCochainMap(d)
    ensures IsCochainMap(SumOfTwo(c, d))
  {
    DiagProduct(c.coarseD1, d.coarseD1, c.coarseD0, d.coarseD0);
    DiagProduct(c.fineD1, d.fineD1, c.fineD0, d.fineD0);
    DiagProduct(c.fineD0, d.fineD0, c.pullback0, d.pullback0);
    DiagProduct(c.pullback1, d.pullback1, c.coarseD0, d.coarseD0);
    DiagProduct(c.fineD1, d.fineD1, c.pullback1, d.pullback1);
    DiagProduct(c.pullback2, d.pullback2, c.coarseD1, d.coarseD1);
    DiagIsZero(MatMul(c.coarseD1, c.coarseD0), MatMul(d.coarseD1, d.coarseD0));
    DiagIsZero(MatMul(c.fineD1, c.fineD0), MatMul(d.fineD1, d.fineD0));
  }

  lemma ImageStackOfSum(c: ComplexMap, d: ComplexMap, k: Matrix, l: Matrix)
    requires IsCochainMap(c) && IsCochainMap(d) && IsCochainMap(SumOfTwo(c, d))
    requires k.rows == c.coarseD1.cols && l.rows == d.coarseD1.cols
    ensures Rank(ImageStack(SumOfTwo(c, d), Diag(k, l))) == Rank(ImageStack(c, k)) + Rank(ImageStack(d, l))
  {
    var ck, dl := MatMul(c.pullback1, k), MatMul(d.pullback1, l);
    DiagProduct(c.pullback1, d.pullback1, k, l);
    StackOfDiagsForward(c.fineD0, d.fineD0, ck, dl);
    StackOfDiagsBackward(c.fineD0, d.fineD0, ck, dl);
    RankOfEqualSpans(ImageStack(SumOfTwo(c, d), Diag(k, l)), Diag(ImageStack(c, k), ImageStack(d, l)));
    RankOfDiag(ImageStack(c, k), ImageStack(d, l));
  }

  function Plus(a: H1Analysis, b: H1Analysis): H1Analysis {
    Analysis(a.coarseDimension + b.coarseDimension, a.fineDimension + b.fineDimension, a.comparisonRank + b.comparisonRank)
  }

  lemma ComparisonRankOfSum(c: ComplexMap, d: ComplexMap)
    requires IsCochainMap(c) && IsCochainMap(d) && IsCochainMap(SumOfTwo(c, d))
    ensures ComparisonRank(SumOfTwo(c, d)) == ComparisonRank(c) + ComparisonRank(d)
  {
    var k, l := KernelOf(c.coarseD1), KernelOf(d.coarseD1);
    assert k.rows == c.coarseD1.cols && l.rows == d.coarseD1.cols;
    hide Diag, Rank, IsKernelBasis, ImageStack, IsCochainMap;
    DiagKernelBasis(k, c.coarseD1, l, d.coarseD1);
    AnyKernelBasis(SumOfTwo(c, d), Diag(k, l));
    ImageStackOfSum(c, d, k, l);
    RankOfDiag(c.fineD0, d.fineD0);
  }

  lemma DimensionOfSum(a: Matrix, b: Matrix, c: Matrix, d: Matrix)
    ensures H1Dimension(Diag(a, b), Diag(c, d)) == H1Dimension(a, c) + H1Dimension(b, d)
  {
    RankOfDiag(a, b);
    RankOfDiag(c, d);
  }

  lemma AnalysisOfTwo(c: ComplexMap, d: ComplexMap)
    requires IsCochainMap(c) && IsCochainMap(d)
    ensures IsCochainMap(SumOfTwo(c, d)) && AnalysisOf(SumOfTwo(c, d)) == Plus(AnalysisOf(c), AnalysisOf(d))
  {
    hide Diag, H1Dimension, ComparisonRank, IsCochainMap;
    SumOfTwoIsCochainMap(c, d);
    ComparisonRankOfSum(c, d);
    DimensionOfSum(c.coarseD0, d.coarseD0, c.coarseD1, d.coarseD1);
    DimensionOfSum(c.fineD0, d.fineD0, c.fineD1, d.fineD1);
  }

  // ---------- Any number of blocks ----------

  function BlockDiag(ms: seq<Matrix>): Matrix {
    if ms == [] then MatrixData(0, 0, []) else Diag(BlockDiag(ms[..|ms| - 1]), ms[|ms| - 1])
  }

  function TotalRows(ms: seq<Matrix>): (n: nat)
    ensures n == BlockDiag(ms).rows
  {
    if ms == [] then 0 else TotalRows(ms[..|ms| - 1]) + ms[|ms| - 1].rows
  }

  function TotalCols(ms: seq<Matrix>): (n: nat)
    ensures n == BlockDiag(ms).cols
  {
    if ms == [] then 0 else TotalCols(ms[..|ms| - 1]) + ms[|ms| - 1].cols
  }

  lemma {:induction false} TotalsGrow(ms: seq<Matrix>, k: nat)
    requires k < |ms|
    ensures TotalRows(ms[..k]) + ms[k].rows == TotalRows(ms[..k + 1]) <= TotalRows(ms)
    ensures TotalCols(ms[..k]) + ms[k].cols == TotalCols(ms[..k + 1]) <= TotalCols(ms)
    decreases |ms|
  {
    hide BlockDiag, Diag;
    assert ms[..k + 1][..k] == ms[..k];
    if k + 1 < |ms| {
      var init := ms[..|ms| - 1];
      TotalsGrow(init, k);
      assert init[..k + 1] == ms[..k + 1];
    } else {
      assert ms[..k + 1] == ms;
    }
  }

  /** A row alone between zeros. */
  function Between(row: Vec, start: nat, cols: nat): (v: Vec)
    requires start + |row| <= cols
    ensures |v| == cols
  {
    Zeros(start) + row + Zeros(cols - start - |row|)
  }

  ghost function PadRow(m: Matrix, i: nat, cols: nat): (row: Vec)
    requires m.cols <= cols
    ensures |row| == cols
  {
    if i < m.rows then m.entries[i] + Zeros(cols - m.cols) else Zeros(cols)
  }

  /** Row i once the first k blocks are written. */
  ghost function WrittenRow(ms: seq<Matrix>, k: nat, i: nat, cols: nat): (row: Vec)
    requires k <= |ms| && TotalCols(ms[..k]) <= cols
    ensures |row| == cols
  {
    PadRow(BlockDiag(ms[..k]), i, cols)
  }

  method WriteRow(zeros: Vec, entries: Vec, offset: nat) returns (row: Vec)
    requires offset + |entries| <= |zeros| && zeros == Zeros(|zeros|)
    ensures row == Between(entries, offset, |zeros|)
  {
    row := zeros;
    for col := 0 to |entries|
      invariant row == Zeros(offset) + entries[..col] + Zeros(|zeros| - offset - col)
    {
      row := row[offset + col := entries[col]];
      assert row == Zeros(offset) + entries[..col + 1] + Zeros(|zeros| - offset - col - 1);
    }
    assert entries[..|entries|] == entries;
  }

  lemma PadDiag(a: Matrix, m: Matrix, i: nat, cols: nat)
    requires a.cols + m.cols <= cols
    ensures i < a.rows || i >= a.rows + m.rows ==> PadRow(Diag(a, m), i, cols) == PadRow(a, i, cols)
    ensures a.rows <= i < a.rows + m.rows ==>
      PadRow(Diag(a, m), i, cols) == Between(m.entries[i - a.rows], a.cols, cols)
  {
    hide Diag;
    if i < a.rows { PadTwice(a.entries[i], m.cols, cols - a.cols - m.cols); }
  }

  lemma NextWrittenRow(ms: seq<Matrix>, k: nat, i: nat, cols: nat)
    requires k < |ms| && TotalCols(ms[..k]) + ms[k].cols == TotalCols(ms[..k + 1]) <= cols
    ensures i < TotalRows(ms[..k]) || i >= TotalRows(ms[..k]) + ms[k].rows ==> WrittenRow(ms, k + 1, i, cols) == WrittenRow(ms, k, i, cols)
    ensures i < TotalRows(ms[..k]) + ms[k].rows && i >= TotalRows(ms[..k]) ==>
      WrittenRow(ms, k + 1, i, cols) == Between(ms[k].entries[i - TotalRows(ms[..k])], TotalCols(ms[..k]), cols)
  {
    hide *;
    NextBlock(ms, k);
    WrittenIsPadded(ms, k, i, cols);
    WrittenIsPadded(ms, k + 1, i, cols);
    PadDiag(BlockDiag(ms[..k]), ms[k], i, cols);
  }

  lemma WrittenIsPadded(ms: seq<Matrix>, k: nat, i: nat, cols: nat)
    requires k <= |ms| && TotalCols(ms[..k]) <= cols
    ensures WrittenRow(ms, k, i, cols) == PadRow(BlockDiag(ms[..k]), i, cols)
    ensures TotalRows(ms[..k]) == BlockDiag(ms[..k]).rows && TotalCols(ms[..k]) == BlockDiag(ms[..k]).cols
  {
  }

  lemma NextBlock(ms: seq<Matrix>, k: nat)
    requires k < |ms|
    ensures BlockDiag(ms[..k + 1]) == Diag(BlockDiag(ms[..k]), ms[k])
    ensures TotalRows(ms[..k + 1]) == TotalRows(ms[..k]) + ms[k].rows
  {
    assert ms[..k + 1][..k] == ms[..k];
  }

  lemma PadTwice(row: Vec, a: nat, b: nat)
    ensures (row + Zeros(a)) + Zeros(b) == row + Zeros(a + b)
  {
  }

  /** The two inner loops: block k goes to its rows. */
  method WriteBlock(ms: seq<Matrix>, k: nat, before: seq<Vec>, rowOffset: nat, colOffset: nat, cols: nat)
    returns (data: seq<Vec>)
    requires k < |ms| && rowOffset == TotalRows(ms[..k]) && colOffset == TotalCols(ms[..k])
    requires rowOffset + ms[k].rows <= |before| && colOffset + ms[k].cols == TotalCols(ms[..k + 1]) <= cols
    requires forall i :: 0 <= i < |before| ==> before[i] == WrittenRow(ms, k, i, cols)
    ensures |data| == |before| && forall i :: 0 <= i < |data| ==> data[i] == WrittenRow(ms, k + 1, i, cols)
  {
    hide BlockDiag, Diag, WrittenRow, TotalRows, TotalCols;
    data := before;
    for row := 0 to ms[k].rows
      invariant |data| == |before|
      invariant forall i :: 0 <= i < |data| ==>
        data[i] == if rowOffset <= i < rowOffset + row then WrittenRow(ms, k + 1, i, cols) else before[i]
    {
      NextWrittenRow(ms, k, rowOffset + row, cols);
      UnwrittenRow(ms, k, rowOffset + row, cols);
      var written := WriteRow(data[rowOffset + row], ms[k].entries[row], colOffset);
      data := data[rowOffset + row := written];
    }
    forall i | 0 <= i < |data| ensures data[i] == WrittenRow(ms, k + 1, i, cols) { NextWrittenRow(ms, k, i, cols); }
  }

  /** Entry by entry: a block holds its own matrix at its offsets, and there is nothing
      beside the blocks. */
  lemma {:induction false} BlockDiagEntry(ms: seq<Matrix>, k: nat, i: nat, col: nat)
    requires k < |ms| && i < ms[k].rows && col < TotalCols(ms)
    ensures TotalRows(ms[..k]) + i < TotalRows(ms)
    ensures BlockDiag(ms).entries[TotalRows(ms[..k]) + i][col] == BlockEntry(ms[k], TotalCols(ms[..k]), i, col)
  {
    hide *;
    BlockRow(ms, k, i);
    BlockRowEntry(ms[k], TotalCols(ms[..k]), i, TotalCols(ms), col);
  }

  /** What column `col` holds when the block starts at column `start`. */
  function BlockEntry(m: Matrix, start: nat, i: nat, col: nat): real
    requires i < m.rows
  {
    if start <= col < start + m.cols then m.entries[i][col - start] else 0.0
  }

  lemma BlockRowEntry(m: Matrix, start: nat, i: nat, cols: nat, col: nat)
    requires i < m.rows && start + m.cols <= cols && col < cols
    ensures Between(m.entries[i], start, cols)[col] == BlockEntry(m, start, i, col)
  {
  }

  /** Once written, the rows of a block stay. */
  lemma {:induction false} BlockRowStays(ms: seq<Matrix>, k: nat, i: nat, upTo: nat)
    requires k < upTo <= |ms| && i < ms[k].rows
    ensures TotalCols(ms[..k]) + ms[k].cols <= TotalCols(ms) && TotalCols(ms[..upTo]) <= TotalCols(ms)
    ensures TotalRows(ms[..k]) + ms[k].rows <= TotalRows(ms[..upTo])
    ensures WrittenRow(ms, upTo, TotalRows(ms[..k]) + i, TotalCols(ms))
         == Between(ms[k].entries[i], TotalCols(ms[..k]), TotalCols(ms))
  {
    hide *;
    TotalsGrow(ms, k);
    TotalsGrow(ms, upTo - 1);
    if k + 1 < upTo { BlockRowStays(ms, k, i, upTo - 1); }
    NextWrittenRow(ms, upTo - 1, TotalRows(ms[..k]) + i, TotalCols(ms));
  }

  lemma LastWrittenRow(ms: seq<Matrix>, row: nat)
    requires row < TotalRows(ms)
    ensures BlockDiag(ms).rows == TotalRows(ms) && BlockDiag(ms).cols == TotalCols(ms) == TotalCols(ms[..|ms|])
    ensures BlockDiag(ms).entries[row] == WrittenRow(ms, |ms|, row, TotalCols(ms))
  {
    hide TotalRows, TotalCols, PadRow, BlockDiag, Diag;
    assert ms[..|ms|] == ms;
    PadNothing(BlockDiag(ms), row);
  }

  lemma BlockRow(ms: seq<Matrix>, k: nat, i: nat)
    requires k < |ms| && i < ms[k].rows
    ensures TotalRows(ms[..k]) + i < TotalRows(ms) == BlockDiag(ms).rows
    ensures TotalCols(ms[..k]) + ms[k].cols <= TotalCols(ms) == BlockDiag(ms).cols
    ensures BlockDiag(ms).entries[TotalRows(ms[..k]) + i] == Between(ms[k].entries[i], TotalCols(ms[..k]), TotalCols(ms))
  {
    hide *;
    TotalsGrow(ms, k);
    BlockRowStays(ms, k, i, |ms|);
    LastWrittenRow(ms, TotalRows(ms[..k]) + i);
  }

  lemma PadNothing(m: Matrix, i: nat)
    requires i < m.rows
    ensures PadRow(m, i, m.cols) == m.entries[i]
  {
  }

  /** The loops of block_diagonal, with running row and column offsets. */
  method BlockDiagonal(ms: seq<Matrix>) returns (m: Matrix)
    ensures m == BlockDiag(ms)
  {
    hide BlockDiag, Diag, WrittenRow;
    var rows, cols := TotalRows(ms), TotalCols(ms);
    var data: seq<Vec> := seq(rows, _ => Zeros(cols));
    var rowOffset, colOffset := 0, 0;
    FirstRows(ms);
    hide TotalRows, TotalCols;
    for k := 0 to |ms|
      invariant rowOffset == TotalRows(ms[..k]) <= rows && colOffset == TotalCols(ms[..k]) <= cols && |data| == rows
      invariant forall i :: 0 <= i < rows ==> data[i] == WrittenRow(ms, k, i, cols)
    {
      TotalsGrow(ms, k);
      data := WriteBlock(ms, k, data, rowOffset, colOffset, cols);
      rowOffset, colOffset := rowOffset + ms[k].rows, colOffset + ms[k].cols;
    }
    assert ms[..|ms|] == ms;
    m := MatrixData(rows, cols, data);
    LastRows(ms, m);
  }

  lemma FirstRows(ms: seq<Matrix>)
    ensures forall i: nat :: WrittenRow(ms, 0, i, TotalCols(ms)) == Zeros(TotalCols(ms))
    ensures TotalRows(ms[..0]) == 0 && TotalCols(ms[..0]) == 0
  {
  }

  lemma UnwrittenRow(ms: seq<Matrix>, k: nat, i: nat, cols: nat)
    requires k <= |ms| && TotalCols(ms[..k]) <= cols && i >= TotalRows(ms[..k])
    ensures WrittenRow(ms, k, i, cols) == Zeros(cols)
  {
  }

  lemma LastRows(ms: seq<Matrix>, m: Matrix)
    requires m.rows == TotalRows(ms) && m.cols == TotalCols(ms) && ms[..|ms|] == ms
    requires forall i :: 0 <= i < m.rows ==> m.entries[i] == WrittenRow(ms, |ms|, i, m.cols)
    ensures m == BlockDiag(ms)
  {
    hide BlockDiag, TotalRows, TotalCols;
    forall i | 0 <= i < m.rows ensures m.entries[i] == BlockDiag(ms).entries[i] {
      assert BlockDiag(ms).entries[i] + Zeros(0) == BlockDiag(ms).entries[i];
    }
    EqualByRows(m, BlockDiag(ms));
  }

  function DirectSum(cs: seq<ComplexMap>): ComplexMap {
    if cs == [] then
      var o: Matrix := MatrixData(0, 0, []); ComplexMap(o, o, o, o, o, o, o)
    else SumOfTwo(DirectSum(cs[..|cs| - 1]), cs[|cs| - 1])
  }

  function Total(items: seq<H1Analysis>): H1Analysis {
    if items == [] then Analysis(0, 0, 0) else Plus(Total(items[..|items| - 1]), items[|items| - 1])
  }

  /** The sums of direct_sum_analysis, with the flags read off the totals. */
  method DirectSumAnalysis(items: seq<H1Analysis>) returns (r: H1Analysis)
    ensures r == Total(items)
  {
    var coarse, fine, rank := 0, 0, 0;
    for i := 0 to |items|
      invariant Analysis(coarse, fine, rank) == Total(items[..i])
    {
      assert items[..i + 1][..i] == items[..i];
      coarse, fine, rank := coarse + items[i].coarseDimension, fine + items[i].fineDimension, rank + items[i].comparisonRank;
    }
    assert items[..|items|] == items;
    return Analysis(coarse, fine, rank);
  }

  ghost function Analyses(cs: seq<ComplexMap>): (items: seq<H1Analysis>)
    requires forall i :: 0 <= i < |cs| ==> IsCochainMap(cs[i])
    ensures |items| == |cs| && forall i :: 0 <= i < |cs| ==> items[i] == AnalysisOf(cs[i])
  {
    seq(|cs|, i requires 0 <= i < |cs| => AnalysisOf(cs[i]))
  }

  /** Dimensions and comparison rank add over the blocks of a direct sum. */
  lemma {:induction false} AnalysisOfDirectSum(cs: seq<ComplexMap>)
    requires forall i :: 0 <= i < |cs| ==> IsCochainMap(cs[i])
    ensures IsCochainMap(DirectSum(cs)) && AnalysisOf(DirectSum(cs)) == Total(Analyses(cs))
  {
    hide AnalysisOf, IsCochainMap, SumOfTwo;
    if cs == [] {
      EmptySum();
    } else {
      var n := |cs| - 1;
      AnalysisOfDirectSum(cs[..n]);
      AnalysisOfTwo(DirectSum(cs[..n]), cs[n]);
      assert Analyses(cs)[..n] == Analyses(cs[..n]);
    }
  }

  lemma EmptySum()
    ensures IsCochainMap(DirectSum([])) && AnalysisOf(DirectSum([])) == Analysis(0, 0, 0)
  {
    var o: Matrix := MatrixData(0, 0, []);
    var c := DirectSum([]);
    assert c == ComplexMap(o, o, o, o, o, o, o);
    assert MatMul(o, o) == o && IsZero(o);
    assert KernelOf(o).rows == 0 && KernelOf(o).cols == 0 by { assert KernelOf(o).cols + Rank(o) == 0; }
    hide KernelOf, Rank, MatMul, Hstack;
    NoColumns(o);
    NoColumns(ImageStack(c, KernelOf(o)));
  }

  lemma NoColumns(m: Matrix)
    requires m.cols == 0
    ensures Rank(m) == 0
  {
  }
}
