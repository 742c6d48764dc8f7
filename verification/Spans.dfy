/**
 Spans, independence and rank: what the elimination routines of necessity_map.py compute,
 defined without reference to them.
 */
module Spans {
  import opened Matrices

  // ---------- Spans and kernels ----------

  ghost predicate InSpan(m: Matrix, v: Vec) {
    exists x {:trigger MulVec(m, x)} :: |x| == m.cols && MulVec(m, x) == v
  }

  ghost predicate SubSpan(a: Matrix, b: Matrix) {
    a.rows == b.rows && forall x {:trigger MulVec(a, x)} :: |x| == a.cols ==> InSpan(b, MulVec(a, x))
  }

  ghost predicate InKernel(m: Matrix, x: Vec) {
    |x| == m.cols && MulVec(m, x) == Zeros(m.rows)
  }

  ghost predicate Independent(m: Matrix) {
    forall x {:trigger InKernel(m, x)} :: InKernel(m, x) ==> x == Zeros(m.cols)
  }

  /** The dimension of the column span, counted column by column: a column adds one
      exactly when the columns before it do not span it. */
  ghost function Rank(m: Matrix): (r: nat)
    ensures r <= m.cols
    decreases m.cols
  {
    if m.cols == 0 then 0 else
      Rank(Prefix(m, m.cols - 1)) + if InSpan(Prefix(m, m.cols - 1), Column(m, m.cols - 1)) then 0 else 1
  }

  lemma SpanAdd(m: Matrix, v: Vec, w: Vec)
    requires InSpan(m, v) && InSpan(m, w)
    ensures |v| == |w| && InSpan(m, Add(v, w))
  {
    var x :| |x| == m.cols && MulVec(m, x) == v;
    var y :| |y| == m.cols && MulVec(m, y) == w;
    MulVecAdd(m, x, y);
    assert MulVec(m, Add(x, y)) == Add(v, w);
  }

  lemma SpanScale(m: Matrix, t: real, v: Vec)
    requires InSpan(m, v)
    ensures InSpan(m, Scale(t, v))
  {
    var x :| |x| == m.cols && MulVec(m, x) == v;
    MulVecScale(m, t, x);
    assert MulVec(m, Scale(t, x)) == Scale(t, v);
  }

  lemma SpanZeros(m: Matrix)
    ensures InSpan(m, Zeros(m.rows))
  {
    MulVecZeros(m);
  }

  lemma SpanColumn(m: Matrix, j: nat)
    requires j < m.cols
    ensures InSpan(m, Column(m, j))
  {
    MulVecUnit(m, j);
  }

  lemma SpanTransfers(a: Matrix, b: Matrix, v: Vec)
    requires SubSpan(a, b) && InSpan(a, v)
    ensures InSpan(b, v)
  {
    var x :| |x| == a.cols && MulVec(a, x) == v;
  }

  lemma SubSpanTransitive(a: Matrix, b: Matrix, c: Matrix)
    requires SubSpan(a, b) && SubSpan(b, c)
    ensures SubSpan(a, c)
  {
    forall x | |x| == a.cols ensures InSpan(c, MulVec(a, x)) {
      SpanTransfers(b, c, MulVec(a, x));
    }
  }

  lemma SpanOfStackVector(a: Matrix, b: Matrix, m: Matrix, z: Vec)
    requires a.rows == b.rows && |z| == a.cols + b.cols
    requires InSpan(m, MulVec(a, z[..a.cols])) && InSpan(m, MulVec(b, z[a.cols..]))
    ensures InSpan(m, MulVec(Hstack(a, b), z))
  {
    HstackSplit(a, b, z);
    SpanAdd(m, MulVec(a, z[..a.cols]), MulVec(b, z[a.cols..]));
  }

  /** A stack is spanned by m as soon as both halves are. */
  lemma SubSpanHstack(a: Matrix, b: Matrix, m: Matrix)
    requires SubSpan(a, m) && SubSpan(b, m)
    ensures SubSpan(Hstack(a, b), m)
  {
    forall z | |z| == a.cols + b.cols ensures InSpan(m, MulVec(Hstack(a, b), z)) {
      var x, y := z[..a.cols], z[a.cols..];
      assert InSpan(m, MulVec(a, x)) && InSpan(m, MulVec(b, y));
      SpanOfStackVector(a, b, m, z);
    }
  }

  lemma AddZeros(v: Vec)
    ensures Add(v, Zeros(|v|)) == v && Add(Zeros(|v|), v) == v
  {
    assert Add(v, Zeros(|v|)) == v;
    assert Add(Zeros(|v|), v) == v;
  }

  lemma HstackSpansSum(a: Matrix, b: Matrix, x: Vec, y: Vec)
    requires a.rows == b.rows && |x| == a.cols && |y| == b.cols
    ensures InSpan(Hstack(a, b), Add(MulVec(a, x), MulVec(b, y)))
  {
    HstackMulVec(a, b, x, y);
    assert |x + y| == Hstack(a, b).cols;
  }

  lemma HstackSpans(a: Matrix, b: Matrix)
    requires a.rows == b.rows
    ensures SubSpan(a, Hstack(a, b)) && SubSpan(b, Hstack(a, b))
  {
    MulVecZeros(a);
    MulVecZeros(b);
    forall x | |x| == a.cols ensures InSpan(Hstack(a, b), MulVec(a, x)) {
      HstackSpansSum(a, b, x, Zeros(b.cols));
      AddZeros(MulVec(a, x));
    }
    forall y | |y| == b.cols ensures InSpan(Hstack(a, b), MulVec(b, y)) {
      HstackSpansSum(a, b, Zeros(a.cols), y);
      AddZeros(MulVec(b, y));
    }
  }

  lemma SpanOfHstack(a: Matrix, b: Matrix, v: Vec) returns (x: Vec, y: Vec)
    requires a.rows == b.rows && InSpan(Hstack(a, b), v)
    ensures |x| == a.cols && |y| == b.cols && v == Add(MulVec(a, x), MulVec(b, y))
  {
    var z :| |z| == a.cols + b.cols && MulVec(Hstack(a, b), z) == v;
    HstackSplit(a, b, z);
    x, y := z[..a.cols], z[a.cols..];
  }

  lemma SubSpanColumn(v: Vec, m: Matrix)
    requires InSpan(m, v)
    ensures SubSpan(ColumnMatrix(v), m)
  {
    forall x | |x| == 1 ensures InSpan(m, MulVec(ColumnMatrix(v), x)) {
      assert x == [x[0]];
      ColumnMatrixMulVec(v, x[0]);
      SpanScale(m, x[0], v);
    }
  }

  lemma {:induction false} SubSpanByColumns(a: Matrix, m: Matrix)
    requires a.rows == m.rows
    requires forall j :: 0 <= j < a.cols ==> InSpan(m, Column(a, j))
    ensures SubSpan(a, m)
    decreases a.cols
  {
    if a.cols == 0 {
      forall x | |x| == 0 ensures InSpan(m, MulVec(a, x)) {
        assert x == Zeros(0);
        MulVecZeros(a);
        SpanZeros(m);
      }
    } else {
      var last := a.cols - 1;
      forall j | 0 <= j < last ensures InSpan(m, Column(Prefix(a, last), j)) {
        assert Column(Prefix(a, last), j) == Column(a, j);
      }
      SubSpanByColumns(Prefix(a, last), m);
      SubSpanColumn(Column(a, last), m);
      SubSpanHstack(Prefix(a, last), ColumnMatrix(Column(a, last)), m);
      SplitLastColumn(a);
    }
  }

  lemma SubSpanReflexive(m: Matrix)
    ensures SubSpan(m, m)
  {
  }

  // ---------- More unknowns than equations ----------

  function DropAt(a: Vec, p: nat): (b: Vec)
    requires p < |a|
    ensures |b| == |a| - 1
  {
    a[..p] + a[p + 1..]
  }

  function InsertAt(a: Vec, p: nat, t: real): (b: Vec)
    requires p <= |a|
    ensures |b| == |a| + 1
  {
    a[..p] + [t] + a[p..]
  }

  lemma {:induction false} DotInsert(a: Vec, z: Vec, p: nat, t: real)
    requires p < |a| && |z| == |a| - 1
    ensures Dot(a, InsertAt(z, p, t)) == Dot(DropAt(a, p), z) + a[p] * t
  {
    if p == 0 {
      assert InsertAt(z, 0, t)[1..] == z && DropAt(a, 0) == a[1..];
    } else {
      assert InsertAt(z, p, t)[1..] == InsertAt(z[1..], p - 1, t);
      assert DropAt(a, p)[1..] == DropAt(a[1..], p - 1);
      DotInsert(a[1..], z[1..], p - 1, t);
    }
  }

  /** A homogeneous system with fewer equations than unknowns has a nonzero solution. */
  lemma {:induction false} Underdetermined(rows: seq<Vec>, n: nat) returns (z: Vec)
    requires |rows| < n && forall i :: 0 <= i < |rows| ==> |rows[i]| == n
    ensures |z| == n && z != Zeros(n) && forall i :: 0 <= i < |rows| ==> Dot(rows[i], z) == 0.0
    decreases |rows|
  {
    if |rows| == 0 {
      z := Unit(n, 0);
      assert z[0] != Zeros(n)[0];
      return;
    }
    var last := rows[|rows| - 1];
    var init := rows[..|rows| - 1];
    if forall j :: 0 <= j < n ==> last[j] == 0.0 {
      z := Underdetermined(init, n);
      DotVanishes(last, z);
      return;
    }
    var p :| 0 <= p < n && last[p] != 0.0;
    var reduced := seq(|init|, i requires 0 <= i < |init| => EliminateAt(init[i], last, p));
    var w := Underdetermined(reduced, n - 1);
    var t := -Dot(DropAt(last, p), w);
    z := InsertAt(Scale(last[p], w), p, t);
    InsertNonzero(w, last[p], p, t);
    forall i | 0 <= i < |init| ensures Dot(EliminateAt(init[i], last, p), w) == 0.0 {
      assert reduced[i] == EliminateAt(init[i], last, p);
    }
    hide Dot, EliminateAt, InsertAt, Scale, DropAt;
    forall i | 0 <= i < |rows| ensures Dot(rows[i], z) == 0.0 {
      EliminatedDot(rows[i], last, p, w);
      if i == |init| { EliminateSelf(last, p, w); }
    }
  }

  /** Row a with unknown p eliminated against the pivot row, cross-multiplied. */
  function EliminateAt(a: Vec, pivot: Vec, p: nat): (b: Vec)
    requires |a| == |pivot| && p < |a|
    ensures |b| == |a| - 1
  {
    Sub(Scale(pivot[p], DropAt(a, p)), Scale(a[p], DropAt(pivot, p)))
  }

  ghost function Cross(f: real, x: real, g: real, y: real): real { f * x - g * y }

  lemma EliminatedDot(a: Vec, pivot: Vec, p: nat, w: Vec)
    requires |a| == |pivot| == |w| + 1 && p < |a|
    ensures Dot(a, InsertAt(Scale(pivot[p], w), p, -Dot(DropAt(pivot, p), w))) == Dot(EliminateAt(a, pivot, p), w)
  {
    hide *;
    InsertedDot(a, pivot[p], p, w, Dot(DropAt(pivot, p), w));
    EliminateAtDot(a, pivot, p, w);
  }

  /** A product the solver need not look into. */
  ghost function Times(x: real, y: real): real { x * y }

  lemma InsertTimes(a: Vec, z: Vec, p: nat, t: real)
    requires p < |a| && |z| == |a| - 1
    ensures Dot(a, InsertAt(z, p, t)) == Dot(DropAt(a, p), z) + Times(a[p], t)
  {
    DotInsert(a, z, p, t);
  }

  lemma ScaleTimes(f: real, a: Vec, w: Vec)
    requires |a| == |w|
    ensures Dot(a, Scale(f, w)) == Times(f, Dot(a, w))
  {
    DotScaleRight(f, a, w);
  }

  lemma CrossOfTimes(f: real, x: real, g: real, d: real)
    ensures Times(f, x) + Times(g, -d) == Cross(f, x, g, d)
  {
  }

  lemma InsertedDot(a: Vec, f: real, p: nat, w: Vec, d: real)
    requires |a| == |w| + 1 && p < |a|
    ensures Dot(a, InsertAt(Scale(f, w), p, -d)) == Cross(f, Dot(DropAt(a, p), w), a[p], d)
  {
    hide *;
    InsertTimes(a, Scale(f, w), p, -d);
    ScaleTimes(f, DropAt(a, p), w);
    CrossOfTimes(f, Dot(DropAt(a, p), w), a[p], d);
  }

  lemma EliminateAtDot(a: Vec, pivot: Vec, p: nat, w: Vec)
    requires |a| == |pivot| == |w| + 1 && p < |a|
    ensures Dot(EliminateAt(a, pivot, p), w) == Cross(pivot[p], Dot(DropAt(a, p), w), a[p], Dot(DropAt(pivot, p), w))
  {
    hide Dot, Sub, Scale, DropAt;
    DotSub(Scale(pivot[p], DropAt(a, p)), Scale(a[p], DropAt(pivot, p)), w);
    DotScale(pivot[p], DropAt(a, p), w);
    DotScale(a[p], DropAt(pivot, p), w);
  }

  lemma EliminateSelf(a: Vec, p: nat, w: Vec)
    requires |a| == |w| + 1 && p < |a|
    ensures Dot(EliminateAt(a, a, p), w) == 0.0
  {
    DotSub(Scale(a[p], DropAt(a, p)), Scale(a[p], DropAt(a, p)), w);
  }

  lemma InsertNonzero(w: Vec, f: real, p: nat, t: real)
    requires p <= |w| && f != 0.0 && w != Zeros(|w|)
    ensures InsertAt(Scale(f, w), p, t) != Zeros(|w| + 1)
  {
    var k :| 0 <= k < |w| && w[k] != 0.0;
    assert Scale(f, w)[k] != 0.0;
    assert InsertAt(Scale(f, w), p, t)[if k < p then k else k + 1] == Scale(f, w)[k];
  }

  // ---------- The exchange bound ----------

  /** Coordinates of every column of p in terms of the columns of q. */
  lemma {:induction false} Coordinates(p: Matrix, q: Matrix, c: nat) returns (columns: seq<Vec>)
    requires SubSpan(p, q) && c <= p.cols
    ensures |columns| == c
    ensures forall j :: 0 <= j < c ==> |columns[j]| == q.cols && MulVec(q, columns[j]) == Column(p, j)
  {
    if c == 0 { return []; }
    columns := Coordinates(p, q, c - 1);
    SpanColumn(p, c - 1);
    SpanTransfers(p, q, Column(p, c - 1));
    var x :| |x| == q.cols && MulVec(q, x) == Column(p, c - 1);
    columns := columns + [x];
  }

  function FromColumns(columns: seq<Vec>, rows: nat): (m: Matrix)
    requires forall j :: 0 <= j < |columns| ==> |columns[j]| == rows
    ensures m.rows == rows && m.cols == |columns|
    ensures forall j :: 0 <= j < |columns| ==> Column(m, j) == columns[j]
  {
    var m: Matrix := MatrixData(rows, |columns|,
      seq(rows, i requires 0 <= i < rows => seq(|columns|, j requires 0 <= j < |columns| => columns[j][i])));
    assert forall j :: 0 <= j < |columns| ==> Column(m, j) == columns[j];
    m
  }

  lemma EqualByColumns(a: Matrix, b: Matrix)
    requires a.rows == b.rows && a.cols == b.cols
    requires forall j :: 0 <= j < a.cols ==> Column(a, j) == Column(b, j)
    ensures a == b
  {
    forall i, j | 0 <= i < a.rows && 0 <= j < a.cols ensures a.entries[i][j] == b.entries[i][j] {
      assert Column(a, j)[i] == Column(b, j)[i];
    }
    assert forall i :: 0 <= i < a.rows ==> a.entries[i] == b.entries[i];
    assert a.entries == b.entries;
  }

  lemma Factor(p: Matrix, q: Matrix) returns (x: Matrix)
    requires SubSpan(p, q)
    ensures x.rows == q.cols && x.cols == p.cols && p == MatMul(q, x)
  {
    var columns := Coordinates(p, q, p.cols);
    x := FromColumns(columns, q.cols);
    forall j | 0 <= j < p.cols ensures Column(p, j) == Column(MatMul(q, x), j) {
      ProductColumn(q, x, j);
    }
    EqualByColumns(p, MatMul(q, x));
  }

  /** Independent columns inside a span are no more than the columns spanning it. */
  lemma ExchangeBound(p: Matrix, q: Matrix)
    requires Independent(p) && SubSpan(p, q)
    ensures p.cols <= q.cols
  {
    if p.cols > q.cols {
      var x := Factor(p, q);
      var z := Underdetermined(x.entries, p.cols);
      MulAssociates(q, x, z);
      assert MulVec(x, z) == Zeros(q.cols);
      MulVecZeros(q);
      assert InKernel(p, z);
    }
  }

  lemma IndependentGrows(p: Matrix, v: Vec)
    requires Independent(p) && |v| == p.rows && !InSpan(p, v)
    ensures Independent(Hstack(p, ColumnMatrix(v)))
  {
    var m := Hstack(p, ColumnMatrix(v));
    forall z | InKernel(m, z) ensures z == Zeros(m.cols) {
      KernelOfAppend(p, v, z);
      if z[p.cols] != 0.0 {
        SolvedForColumn(p, v, z[..p.cols], z[p.cols]);
      }
      ZerosByParts(z, p.cols);
    }
  }

  lemma ZerosByParts(z: Vec, n: nat)
    requires |z| == n + 1 && z[..n] == Zeros(n) && z[n] == 0.0
    ensures z == Zeros(n + 1)
  {
    forall i | 0 <= i < n ensures z[i] == 0.0 { assert z[i] == z[..n][i]; }
  }

  lemma KernelOfAppend(p: Matrix, v: Vec, z: Vec)
    requires |v| == p.rows && InKernel(Hstack(p, ColumnMatrix(v)), z)
    ensures Add(MulVec(p, z[..p.cols]), Scale(z[p.cols], v)) == Zeros(p.rows)
    ensures z[p.cols] == 0.0 ==> InKernel(p, z[..p.cols])
  {
    HstackSplit(p, ColumnMatrix(v), z);
    assert z[p.cols..] == [z[p.cols]];
    ColumnMatrixMulVec(v, z[p.cols]);
    var sum := Add(MulVec(p, z[..p.cols]), Scale(z[p.cols], v));
    if z[p.cols] == 0.0 {
      forall i | 0 <= i < p.rows ensures MulVec(p, z[..p.cols])[i] == 0.0 { assert sum[i] == 0.0; }
    }
  }

  lemma SolvedForColumn(p: Matrix, v: Vec, x: Vec, t: real)
    requires |x| == p.cols && |v| == p.rows && t != 0.0
    requires Add(MulVec(p, x), Scale(t, v)) == Zeros(p.rows)
    ensures InSpan(p, v)
  {
    var u := MulVec(p, x);
    MulVecScale(p, -1.0 / t, x);
    forall i | 0 <= i < |u| ensures Scale(-1.0 / t, u)[i] == v[i] {
      assert Add(u, Scale(t, v))[i] == 0.0;
      assert u[i] == -(t * v[i]);
      assert -1.0 / t * (-(t * v[i])) == v[i];
    }
    assert MulVec(p, Scale(-1.0 / t, x)) == v;
  }

  /** A basis of the column span, with as many columns as the rank. */
  lemma {:induction false} BasisOf(m: Matrix) returns (p: Matrix)
    ensures Independent(p) && SubSpan(p, m) && SubSpan(m, p) && p.cols == Rank(m)
    decreases m.cols
  {
    if m.cols == 0 { return m; }
    var init, v := Prefix(m, m.cols - 1), Column(m, m.cols - 1);
    p := BasisOf(init);
    SplitLastColumn(m);
    HstackSpans(init, ColumnMatrix(v));
    SubSpanTransitive(p, init, m);
    if InSpan(init, v) {
      SpanTransfers(init, p, v);
      SubSpanColumn(v, p);
      SubSpanHstack(init, ColumnMatrix(v), p);
    } else {
      if InSpan(p, v) { SpanTransfers(p, init, v); }
      IndependentGrows(p, v);
      var q := Hstack(p, ColumnMatrix(v));
      HstackSpans(p, ColumnMatrix(v));
      SpanColumn(m, m.cols - 1);
      SubSpanColumn(v, m);
      SubSpanHstack(p, ColumnMatrix(v), m);
      SubSpanTransitive(init, p, q);
      SubSpanHstack(init, ColumnMatrix(v), q);
      p := q;
    }
  }

  // ---------- Rank depends only on the span ----------

  lemma RankMonotone(a: Matrix, b: Matrix)
    requires SubSpan(a, b)
    ensures Rank(a) <= Rank(b)
  {
    var p := BasisOf(a);
    var q := BasisOf(b);
    SubSpanTransitive(p, a, b);
    SubSpanTransitive(p, b, q);
    ExchangeBound(p, q);
  }

  lemma RankOfEqualSpans(a: Matrix, b: Matrix)
    requires SubSpan(a, b) && SubSpan(b, a)
    ensures Rank(a) == Rank(b)
  {
    RankMonotone(a, b);
    RankMonotone(b, a);
  }

  lemma LastOfAppend(m: Matrix, v: Vec)
    requires |v| == m.rows
    ensures Prefix(Hstack(m, ColumnMatrix(v)), m.cols) == m
    ensures Column(Hstack(m, ColumnMatrix(v)), m.cols) == v
  {
    PrefixOfHstack(m, ColumnMatrix(v), 0);
    HstackEmpty(m, Prefix(ColumnMatrix(v), 0));
    assert Column(ColumnMatrix(v), 0) == v;
  }

  lemma RankAppend(m: Matrix, v: Vec)
    requires |v| == m.rows
    ensures Rank(Hstack(m, ColumnMatrix(v))) == Rank(m) + if InSpan(m, v) then 0 else 1
  {
    LastOfAppend(m, v);
  }

  /** A span inside another of no larger rank is all of it. */
  lemma EqualRankEqualSpan(a: Matrix, b: Matrix)
    requires SubSpan(a, b) && Rank(b) <= Rank(a)
    ensures SubSpan(b, a)
  {
    forall j | 0 <= j < b.cols ensures InSpan(a, Column(b, j)) {
      SpanColumn(b, j);
      RankAppend(a, Column(b, j));
      SubSpanColumn(Column(b, j), b);
      SubSpanHstack(a, ColumnMatrix(Column(b, j)), b);
      RankMonotone(Hstack(a, ColumnMatrix(Column(b, j))), b);
    }
    SubSpanByColumns(b, a);
  }

  lemma {:induction false} RankOfIndependent(m: Matrix)
    requires Independent(m)
    ensures Rank(m) == m.cols
    decreases m.cols
  {
    var p := BasisOf(m);
    ExchangeBound(m, p);
  }

  /** Full rank is independence. */
  lemma {:induction false} FullRankIsIndependent(m: Matrix)
    requires Rank(m) == m.cols
    ensures Independent(m)
    decreases m.cols
  {
    if m.cols != 0 {
      var init, v := Prefix(m, m.cols - 1), Column(m, m.cols - 1);
      assert Rank(init) == init.cols && !InSpan(init, v);
      FullRankIsIndependent(init);
      IndependentGrows(init, v);
      SplitLastColumn(m);
    }
  }
}
