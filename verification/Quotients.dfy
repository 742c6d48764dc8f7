/**
 Columns modulo a span: the linear algebra behind choosing H1 representatives in
 necessity_map.py.
 */
module Quotients {
  import opened Matrices
  import opened Spans
  import opened LinearSystems

  // ---------- A kernel basis always exists ----------

  function AppendZeroRow(k: Matrix): (m: Matrix)
    ensures m.rows == k.rows + 1 && m.cols == k.cols
  {
    MatrixData(k.rows + 1, k.cols, k.entries + [Zeros(k.cols)])
  }

  lemma AppendZeroRowMulVec(k: Matrix, y: Vec)
    requires |y| == k.cols
    ensures MulVec(AppendZeroRow(k), y) == MulVec(k, y) + [0.0]
  {
    DotVanishes(Zeros(k.cols), y);
  }

  /** What being a kernel vector means when the last column is split off. */
  lemma KernelSplitsLast(m: Matrix, z: Vec)
    requires m.cols > 0 && |z| == m.cols
    ensures MulVec(m, z) == Add(MulVec(Prefix(m, m.cols - 1), z[..m.cols - 1]), Scale(z[m.cols - 1], Column(m, m.cols - 1)))
  {
    var last := m.cols - 1;
    SplitLastColumn(m);
    HstackSplit(Prefix(m, last), ColumnMatrix(Column(m, last)), z);
    assert z[last..] == [z[last]];
    ColumnMatrixMulVec(Column(m, last), z[last]);
  }

  lemma KernelWithLastZero(m: Matrix, z: Vec)
    requires m.cols > 0 && |z| == m.cols && z[m.cols - 1] == 0.0
    ensures InKernel(m, z) <==> InKernel(Prefix(m, m.cols - 1), z[..m.cols - 1])
  {
    var last := m.cols - 1;
    KernelSplitsLast(m, z);
    var u := MulVec(Prefix(m, last), z[..last]);
    assert Scale(0.0, Column(m, last)) == Zeros(m.rows);
    AddZeros(u);
  }

  /** When the last column is new, kernel vectors do not use it. */
  lemma NewColumnUnused(m: Matrix, z: Vec)
    requires m.cols > 0 && InKernel(m, z)
    requires !InSpan(Prefix(m, m.cols - 1), Column(m, m.cols - 1))
    ensures z[m.cols - 1] == 0.0
  {
    var last := m.cols - 1;
    KernelSplitsLast(m, z);
    if z[last] != 0.0 {
      SolvedForColumn(Prefix(m, last), Column(m, last), z[..last], z[last]);
    }
  }

  /** A basis of the kernel vectors that do not use the last column. */
  ghost predicate IsShortBasis(k: Matrix, m: Matrix) {
    && m.cols > 0 && k.rows == m.cols
    && (forall y {:trigger MulVec(k, y)} :: |y| == k.cols ==> InKernel(m, MulVec(k, y)) && MulVec(k, y)[m.cols - 1] == 0.0)
    && (forall z {:trigger InKernel(m, z)} :: InKernel(m, z) && z[m.cols - 1] == 0.0 ==> InSpan(k, z))
    && Independent(k)
  }

  lemma ZeroExtensionInKernel(m: Matrix, k: Matrix, y: Vec)
    requires m.cols > 0 && IsKernelBasis(k, Prefix(m, m.cols - 1)) && |y| == k.cols
    ensures InKernel(m, MulVec(AppendZeroRow(k), y)) && MulVec(AppendZeroRow(k), y)[m.cols - 1] == 0.0
  {
    AppendZeroRowMulVec(k, y);
    assert (MulVec(k, y) + [0.0])[..m.cols - 1] == MulVec(k, y);
    KernelWithLastZero(m, MulVec(AppendZeroRow(k), y));
  }

  lemma ZeroExtensionSpans(m: Matrix, k: Matrix, z: Vec)
    requires m.cols > 0 && IsKernelBasis(k, Prefix(m, m.cols - 1)) && InKernel(m, z) && z[m.cols - 1] == 0.0
    ensures InSpan(AppendZeroRow(k), z)
  {
    KernelWithLastZero(m, z);
    var y :| |y| == k.cols && MulVec(k, y) == z[..m.cols - 1];
    AppendZeroRowMulVec(k, y);
    assert z == z[..m.cols - 1] + [0.0];
  }

  lemma ZeroExtensionIndependent(k: Matrix)
    requires Independent(k)
    ensures Independent(AppendZeroRow(k))
  {
    forall y | InKernel(AppendZeroRow(k), y) ensures y == Zeros(k.cols) {
      AppendZeroRowMulVec(k, y);
      assert MulVec(k, y) == (MulVec(k, y) + [0.0])[..k.rows];
      assert InKernel(k, y);
    }
  }

  lemma ExtendKernelByZero(m: Matrix, k: Matrix)
    requires m.cols > 0 && IsKernelBasis(k, Prefix(m, m.cols - 1))
    ensures k.rows == m.cols - 1 && IsShortBasis(AppendZeroRow(k), m)
  {
    hide InSpan, AppendZeroRow, MulVec;
    forall y | |y| == k.cols
      ensures InKernel(m, MulVec(AppendZeroRow(k), y)) && MulVec(AppendZeroRow(k), y)[m.cols - 1] == 0.0
    {
      ZeroExtensionInKernel(m, k, y);
    }
    forall z | InKernel(m, z) && z[m.cols - 1] == 0.0 ensures InSpan(AppendZeroRow(k), z) {
      ZeroExtensionSpans(m, k, z);
    }
    ZeroExtensionIndependent(k);
  }

  /** A kernel vector whose last coordinate is -1 completes a short basis. */
  lemma CompletedSpans(m: Matrix, k: Matrix, z0: Vec, z: Vec)
    requires IsShortBasis(k, m) && InKernel(m, z0) && z0[m.cols - 1] == -1.0 && InKernel(m, z)
    ensures InSpan(Hstack(k, ColumnMatrix(z0)), z)
  {
    var last, big := m.cols - 1, Hstack(k, ColumnMatrix(z0));
    var rest := Add(z, Scale(z[last], z0));
    KernelCombines(m, z, z[last], z0);
    assert InSpan(k, rest);
    hide IsShortBasis, InKernel, InSpan, SubSpan;
    HstackSpans(k, ColumnMatrix(z0));
    SpanTransfers(k, big, rest);
    LastColumnInSpan(k, z0);
    SpanScale(big, -z[last], z0);
    SpanAdd(big, rest, Scale(-z[last], z0));
    assert Add(rest, Scale(-z[last], z0)) == z;
  }

  lemma CompletedInKernel(m: Matrix, k: Matrix, z0: Vec, y: Vec)
    requires IsShortBasis(k, m) && InKernel(m, z0) && |y| == k.cols + 1
    ensures InKernel(m, MulVec(Hstack(k, ColumnMatrix(z0)), y))
  {
    AppendMulVec(k, z0, y);
    KernelCombines(m, MulVec(k, y[..k.cols]), y[k.cols], z0);
  }

  lemma CompletedIndependent(m: Matrix, k: Matrix, z0: Vec)
    requires IsShortBasis(k, m) && InKernel(m, z0) && z0[m.cols - 1] == -1.0
    ensures Independent(Hstack(k, ColumnMatrix(z0)))
  {
    forall y | |y| == k.cols ensures MulVec(k, y) != z0 {
      assert MulVec(k, y)[m.cols - 1] == 0.0;
    }
    assert !InSpan(k, z0);
    IndependentGrows(k, z0);
  }

  lemma ExtendKernelByVector(m: Matrix, k: Matrix, z0: Vec)
    requires IsShortBasis(k, m) && InKernel(m, z0) && z0[m.cols - 1] == -1.0
    ensures IsKernelBasis(Hstack(k, ColumnMatrix(z0)), m)
  {
    var big := Hstack(k, ColumnMatrix(z0));
    assert k.rows == m.cols;
    hide InKernel, InSpan, Independent, IsShortBasis, MulVec;
    forall y | |y| == big.cols ensures InKernel(m, MulVec(big, y)) { CompletedInKernel(m, k, z0, y); }
    forall z | InKernel(m, z) ensures InSpan(big, z) { CompletedSpans(m, k, z0, z); }
    CompletedIndependent(m, k, z0);
  }

  lemma AppendMulVec(k: Matrix, v: Vec, y: Vec)
    requires |v| == k.rows && |y| == k.cols + 1
    ensures MulVec(Hstack(k, ColumnMatrix(v)), y) == Add(MulVec(k, y[..k.cols]), Scale(y[k.cols], v))
  {
    HstackSplit(k, ColumnMatrix(v), y);
    assert y[k.cols..] == [y[k.cols]];
    ColumnMatrixMulVec(v, y[k.cols]);
  }

  lemma LastColumnInSpan(k: Matrix, v: Vec)
    requires |v| == k.rows
    ensures InSpan(Hstack(k, ColumnMatrix(v)), v)
  {
    LastOfAppend(k, v);
    SpanColumn(Hstack(k, ColumnMatrix(v)), k.cols);
  }

  lemma KernelCombines(m: Matrix, x: Vec, t: real, y: Vec)
    requires InKernel(m, x) && InKernel(m, y)
    ensures InKernel(m, Add(x, Scale(t, y)))
  {
    MulVecScale(m, t, y);
    MulVecAdd(m, x, Scale(t, y));
    assert Add(Zeros(m.rows), Scale(t, Zeros(m.rows))) == Zeros(m.rows);
  }

  /** The relation a spanned last column gives. */
  lemma SpannedColumnRelation(m: Matrix) returns (z0: Vec)
    requires m.cols > 0 && InSpan(Prefix(m, m.cols - 1), Column(m, m.cols - 1))
    ensures |z0| == m.cols && InKernel(m, z0) && z0[m.cols - 1] == -1.0
  {
    var init, v := Prefix(m, m.cols - 1), Column(m, m.cols - 1);
    var x :| |x| == init.cols && MulVec(init, x) == v;
    z0 := x + [-1.0];
    KernelSplitsLast(m, z0);
    assert z0[..init.cols] == x;
    assert Add(v, Scale(-1.0, v)) == Zeros(m.rows);
  }

  lemma EmptyKernelBasis(m: Matrix, k: Matrix)
    requires m.cols == 0 && k == MatrixData(0, 0, [])
    ensures IsKernelBasis(k, m)
  {
    forall y | |y| == 0 ensures InKernel(m, MulVec(k, y)) { MulVecZeros(m); }
    forall x | InKernel(m, x) ensures InSpan(k, x) { SpanZeros(k); }
  }

  lemma ShortBasisIsBasis(m: Matrix, k: Matrix)
    requires IsShortBasis(k, m) && !InSpan(Prefix(m, m.cols - 1), Column(m, m.cols - 1))
    ensures IsKernelBasis(k, m)
  {
    forall z | InKernel(m, z) ensures InSpan(k, z) { NewColumnUnused(m, z); }
  }

  lemma {:induction false} KernelBasisExists(m: Matrix) returns (k: Matrix)
    ensures IsKernelBasis(k, m) && k.cols + Rank(m) == m.cols
    decreases m.cols
  {
    hide IsKernelBasis, IsShortBasis, InSpan, InKernel, MulVec;
    if m.cols == 0 {
      k := MatrixData(0, 0, []);
      EmptyKernelBasis(m, k);
      return;
    }
    var init := Prefix(m, m.cols - 1);
    k := KernelBasisExists(init);
    ExtendKernelByZero(m, k);
    k := AppendZeroRow(k);
    if InSpan(init, Column(m, m.cols - 1)) {
      var z0 := SpannedColumnRelation(m);
      ExtendKernelByVector(m, k, z0);
      k := Hstack(k, ColumnMatrix(z0));
    } else {
      ShortBasisIsBasis(m, k);
    }
  }

  lemma SomeKernelBasis(m: Matrix)
    ensures exists k: Matrix :: IsKernelBasis(k, m) && k.cols + Rank(m) == m.cols
  {
    var k := KernelBasisExists(m);
  }

  ghost function KernelOf(m: Matrix): (k: Matrix)
    ensures IsKernelBasis(k, m) && k.cols + Rank(m) == m.cols
  {
    SomeKernelBasis(m);
    var k: Matrix :| IsKernelBasis(k, m) && k.cols + Rank(m) == m.cols; k
  }

  lemma KernelBasesSpanAlike(k: Matrix, l: Matrix, m: Matrix)
    requires IsKernelBasis(k, m) && IsKernelBasis(l, m)
    ensures SubSpan(k, l)
  {
  }

  // ---------- Modulo a span ----------

  /** v and w differ by a combination of the columns of a. */
  ghost predicate Congruent(a: Matrix, v: Vec, w: Vec) {
    |v| == a.rows && |w| == a.rows && InSpan(a, Sub(v, w))
  }

  /** No combination of the columns of b but the trivial one lies in the span of a. */
  ghost predicate IndependentMod(a: Matrix, b: Matrix) {
    forall y {:trigger MulVec(b, y)} :: |y| == b.cols && InSpan(a, MulVec(b, y)) ==> y == Zeros(b.cols)
  }

  lemma LastTermInSpan(a: Matrix, b: Matrix, y: Vec)
    requires a.rows == b.rows && b.cols > 0 && |y| == b.cols && InSpan(a, MulVec(b, y)) && y[b.cols - 1] != 0.0
    ensures InSpan(Hstack(a, Prefix(b, b.cols - 1)), Column(b, b.cols - 1))
  {
    var last := b.cols - 1;
    var init, v, t := Prefix(b, last), Column(b, last), y[last];
    var s, u := Hstack(a, init), MulVec(init, y[..last]);
    KernelSplitsLast(b, y);
    HstackSpans(a, init);
    SpanTransfers(a, s, MulVec(b, y));
    assert InSpan(s, u);
    hide MulVec, InSpan, SubSpan, Hstack, Prefix;
    SpanScale(s, -1.0, u);
    SpanAdd(s, MulVec(b, y), Scale(-1.0, u));
    assert Add(MulVec(b, y), Scale(-1.0, u)) == Scale(t, v);
    SpanScale(s, 1.0 / t, Scale(t, v));
    Unscale(t, v);
  }

  lemma Unscale(t: real, v: Vec)
    requires t != 0.0
    ensures Scale(1.0 / t, Scale(t, v)) == v
  {
    forall i | 0 <= i < |v| ensures Scale(1.0 / t, Scale(t, v))[i] == v[i] {
      assert 1.0 / t * (t * v[i]) == v[i];
    }
  }

  lemma PrefixIndependentMod(a: Matrix, b: Matrix)
    requires a.rows == b.rows && b.cols > 0 && IndependentMod(a, b)
    ensures IndependentMod(a, Prefix(b, b.cols - 1))
  {
    hide MulVec, InSpan, Prefix;
    var last := b.cols - 1;
    forall y | |y| == last && InSpan(a, MulVec(Prefix(b, last), y)) ensures y == Zeros(last) {
      AppendZeroCoordinate(b, y);
      assert y == (y + [0.0])[..last];
    }
  }

  lemma LastColumnNew(a: Matrix, b: Matrix)
    requires a.rows == b.rows && b.cols > 0 && IndependentMod(a, b)
    ensures !InSpan(Hstack(a, Prefix(b, b.cols - 1)), Column(b, b.cols - 1))
  {
    var last := b.cols - 1;
    if InSpan(Hstack(a, Prefix(b, last)), Column(b, last)) {
      var x, y := SpanOfHstack(a, Prefix(b, last), Column(b, last));
      NonzeroLast(y);
      LastColumnRelation(a, b, x, y);
    }
  }

  lemma NonzeroLast(y: Vec)
    ensures y + [-1.0] != Zeros(|y| + 1)
  {
    assert (y + [-1.0])[|y|] != Zeros(|y| + 1)[|y|];
  }

  lemma LastColumnRelation(a: Matrix, b: Matrix, x: Vec, y: Vec)
    requires a.rows == b.rows && b.cols > 0 && |x| == a.cols && |y| == b.cols - 1
    requires Column(b, b.cols - 1) == Add(MulVec(a, x), MulVec(Prefix(b, b.cols - 1), y))
    ensures InSpan(a, MulVec(b, y + [-1.0]))
  {
    var init, v := Prefix(b, b.cols - 1), Column(b, b.cols - 1);
    KernelSplitsLast(b, y + [-1.0]);
    assert (y + [-1.0])[..b.cols - 1] == y;
    MulVecScale(a, -1.0, x);
    hide MulVec;
    var left, right := MulVec(b, y + [-1.0]), MulVec(a, Scale(-1.0, x));
    forall i | 0 <= i < a.rows ensures left[i] == right[i] {
      assert v[i] == MulVec(a, x)[i] + MulVec(init, y)[i];
    }
    assert left == right;
  }

  lemma AppendZeroCoordinate(b: Matrix, y: Vec)
    requires b.cols > 0 && |y| == b.cols - 1
    ensures MulVec(b, y + [0.0]) == MulVec(Prefix(b, b.cols - 1), y)
  {
    KernelSplitsLast(b, y + [0.0]);
    assert (y + [0.0])[..b.cols - 1] == y;
    assert Scale(0.0, Column(b, b.cols - 1)) == Zeros(b.rows);
    AddZeros(MulVec(Prefix(b, b.cols - 1), y));
  }

  /** Stacking b on a raises the rank by at most its columns. */
  lemma {:induction false} RankOfStack(a: Matrix, b: Matrix)
    requires a.rows == b.rows
    ensures Rank(a) <= Rank(Hstack(a, b)) <= Rank(a) + b.cols
    decreases b.cols
  {
    if b.cols == 0 {
      HstackEmpty(a, b);
    } else {
      PrefixOfHstack(a, b, b.cols - 1);
      RankOfStack(a, Prefix(b, b.cols - 1));
    }
  }

  /** It raises it by all of them exactly when they are independent modulo a. */
  lemma {:induction false} RankGap(a: Matrix, b: Matrix)
    requires a.rows == b.rows
    ensures Rank(Hstack(a, b)) == Rank(a) + b.cols <==> IndependentMod(a, b)
    decreases b.cols
  {
    if b.cols == 0 {
      HstackEmpty(a, b);
      assert forall y: Vec :: |y| == 0 ==> y == Zeros(0);
    } else {
      var init := Prefix(b, b.cols - 1);
      PrefixOfHstack(a, b, b.cols - 1);
      RankGap(a, init);
      RankOfStack(a, init);
      if IndependentMod(a, b) {
        PrefixIndependentMod(a, b);
        LastColumnNew(a, b);
      }
      if Rank(Hstack(a, b)) == Rank(a) + b.cols { LastColumnIndependentMod(a, b); }
    }
  }

  lemma LastColumnIndependentMod(a: Matrix, b: Matrix)
    requires a.rows == b.rows && b.cols > 0 && IndependentMod(a, Prefix(b, b.cols - 1))
    requires !InSpan(Hstack(a, Prefix(b, b.cols - 1)), Column(b, b.cols - 1))
    ensures IndependentMod(a, b)
  {
    var last := b.cols - 1;
    forall y | |y| == b.cols && InSpan(a, MulVec(b, y)) ensures y == Zeros(b.cols) {
      if y[last] != 0.0 { LastTermInSpan(a, b, y); }
      assert y == y[..last] + [0.0];
      AppendZeroCoordinate(b, y[..last]);
      ZerosByParts(y, last);
    }
  }

  // ---------- Greedy extension ----------

  /** The candidates kept, in order: each not spanned by d0 and those kept before it. */
  ghost function Kept(d0: Matrix, candidates: Matrix, c: nat): (kept: seq<Vec>)
    requires d0.rows == candidates.rows && c <= candidates.cols
    ensures forall j :: 0 <= j < |kept| ==> |kept[j]| == d0.rows
  {
    if c == 0 then [] else
      var before := Kept(d0, candidates, c - 1);
      if InSpan(Hstack(d0, FromColumns(before, d0.rows)), Column(candidates, c - 1)) then before
      else before + [Column(candidates, c - 1)]
  }

  lemma FromColumnsAppend(columns: seq<Vec>, v: Vec, rows: nat)
    requires |v| == rows && forall j :: 0 <= j < |columns| ==> |columns[j]| == rows
    ensures FromColumns(columns + [v], rows) == Hstack(FromColumns(columns, rows), ColumnMatrix(v))
  {
    var a, b := FromColumns(columns + [v], rows), Hstack(FromColumns(columns, rows), ColumnMatrix(v));
    LastOfAppend(FromColumns(columns, rows), v);
    forall j | 0 <= j < a.cols ensures Column(a, j) == Column(b, j) {
      if j < |columns| { PrefixOfPrefix(b, |columns|, j); }
    }
    EqualByColumns(a, b);
  }

  lemma HstackAssociates(a: Matrix, b: Matrix, c: Matrix)
    requires a.rows == b.rows == c.rows
    ensures Hstack(Hstack(a, b), c) == Hstack(a, Hstack(b, c))
  {
    assert forall i :: 0 <= i < a.rows ==> (a.entries[i] + b.entries[i]) + c.entries[i] == a.entries[i] + (b.entries[i] + c.entries[i]);
    assert Hstack(Hstack(a, b), c).entries == Hstack(a, Hstack(b, c)).entries;
  }

  lemma HstackMonotone(a: Matrix, a': Matrix, b: Matrix, b': Matrix)
    requires SubSpan(a, a') && SubSpan(b, b') && a.rows == b.rows
    ensures SubSpan(Hstack(a, b), Hstack(a', b'))
  {
    HstackSpans(a', b');
    SubSpanTransitive(a, a', Hstack(a', b'));
    SubSpanTransitive(b, b', Hstack(a', b'));
    SubSpanHstack(a, b, Hstack(a', b'));
  }

  lemma NextCandidate(d0: Matrix, candidates: Matrix, c: nat)
    requires d0.rows == candidates.rows && 0 < c <= candidates.cols
    ensures Hstack(d0, Prefix(candidates, c)) == Hstack(Hstack(d0, Prefix(candidates, c - 1)), ColumnMatrix(Column(candidates, c - 1)))
  {
    SplitLastColumn(Prefix(candidates, c));
    PrefixOfPrefix(candidates, c, c - 1);
    HstackAssociates(d0, Prefix(candidates, c - 1), ColumnMatrix(Column(candidates, c - 1)));
  }

  ghost function KeptMatrix(d0: Matrix, candidates: Matrix, c: nat): (m: Matrix)
    requires d0.rows == candidates.rows && c <= candidates.cols
    ensures m.rows == d0.rows && m.cols == |Kept(d0, candidates, c)|
  {
    FromColumns(Kept(d0, candidates, c), d0.rows)
  }

  lemma KeepNext(d0: Matrix, candidates: Matrix, c: nat)
    requires d0.rows == candidates.rows && 0 < c <= candidates.cols
    ensures var v, s := Column(candidates, c - 1), Hstack(d0, KeptMatrix(d0, candidates, c - 1));
            Hstack(d0, KeptMatrix(d0, candidates, c)) == (if InSpan(s, v) then s else Hstack(s, ColumnMatrix(v)))
            && Kept(d0, candidates, c) == Kept(d0, candidates, c - 1) + if InSpan(s, v) then [] else [v]
  {
    var v, before := Column(candidates, c - 1), Kept(d0, candidates, c - 1);
    if !InSpan(Hstack(d0, FromColumns(before, d0.rows)), v) {
      FromColumnsAppend(before, v, d0.rows);
      HstackAssociates(d0, FromColumns(before, d0.rows), ColumnMatrix(v));
    }
  }

  lemma ExtendBoth(s: Matrix, t: Matrix, v: Vec)
    requires SubSpan(s, t) && SubSpan(t, s) && |v| == s.rows
    ensures var s' := if InSpan(s, v) then s else Hstack(s, ColumnMatrix(v));
            var t' := Hstack(t, ColumnMatrix(v));
            SubSpan(s', t') && SubSpan(t', s') && Rank(s') == Rank(s) + if InSpan(s, v) then 0 else 1
  {
    RankAppend(s, v);
    HstackSpans(t, ColumnMatrix(v));
    if InSpan(s, v) {
      SubSpanColumn(v, s);
      SubSpanHstack(t, ColumnMatrix(v), s);
      SubSpanTransitive(s, t, Hstack(t, ColumnMatrix(v)));
    } else {
      SubSpanReflexive(ColumnMatrix(v));
      HstackMonotone(s, t, ColumnMatrix(v), ColumnMatrix(v));
      HstackMonotone(t, s, ColumnMatrix(v), ColumnMatrix(v));
    }
  }

  /** The kept candidates span, with d0, all the candidates, and each raised the rank. */
  lemma {:induction false} KeptSpan(d0: Matrix, candidates: Matrix, c: nat)
    requires d0.rows == candidates.rows && c <= candidates.cols
    ensures SubSpan(Hstack(d0, KeptMatrix(d0, candidates, c)), Hstack(d0, Prefix(candidates, c)))
    ensures SubSpan(Hstack(d0, Prefix(candidates, c)), Hstack(d0, KeptMatrix(d0, candidates, c)))
    ensures Rank(Hstack(d0, KeptMatrix(d0, candidates, c))) == Rank(d0) + |Kept(d0, candidates, c)|
  {
    hide SubSpan, InSpan, Hstack, KeptMatrix, Rank;
    if c == 0 {
      HstackEmpty(d0, KeptMatrix(d0, candidates, 0));
      HstackEmpty(d0, Prefix(candidates, 0));
      SubSpanReflexive(d0);
    } else {
      var s, t := Hstack(d0, KeptMatrix(d0, candidates, c - 1)), Hstack(d0, Prefix(candidates, c - 1));
      KeptSpan(d0, candidates, c - 1);
      NextCandidate(d0, candidates, c);
      KeepNext(d0, candidates, c);
      ExtendBoth(s, t, Column(candidates, c - 1));
    }
  }

  /** A candidate is kept exactly when the start and the candidates before it do not span it. */
  lemma KeptIffNew(d0: Matrix, candidates: Matrix, c: nat)
    requires d0.rows == candidates.rows && c < candidates.cols
    ensures var isNew := !InSpan(Hstack(d0, Prefix(candidates, c)), Column(candidates, c));
            Kept(d0, candidates, c + 1) == Kept(d0, candidates, c) + if isNew then [Column(candidates, c)] else []
  {
    KeptSpan(d0, candidates, c);
    NextCandidate(d0, candidates, c + 1);
    hide Kept, KeptMatrix, Hstack;
  }
}
