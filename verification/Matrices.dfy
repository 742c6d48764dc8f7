/**
 Exact matrices of research/experiments/g104-necessity-map/necessity_map.py, over `real`
 in place of Fraction: products, stacking, and the algebra the proofs use.
 */
module Matrices {
  type Vec = seq<real>

  /** A matrix keeps its dimensions when they are empty. */
  datatype MatrixData = MatrixData(rows: nat, cols: nat, entries: seq<Vec>)

  /** The constructor's shape checks. */
  predicate IsMatrix(m: MatrixData) {
    |m.entries| == m.rows && forall i :: 0 <= i < m.rows ==> |m.entries[i]| == m.cols
  }

  type Matrix = m: MatrixData | IsMatrix(m) witness MatrixData(0, 0, [])

  // ---------- Vectors ----------

  function Zeros(n: nat): (z: Vec)
    ensures |z| == n && forall i :: 0 <= i < n ==> z[i] == 0.0
  {
    seq(n, _ => 0.0)
  }

  function Unit(n: nat, k: nat): (u: Vec)
    requires k < n
    ensures |u| == n && forall i :: 0 <= i < n ==> u[i] == if i == k then 1.0 else 0.0
  {
    seq(n, i => if i == k then 1.0 else 0.0)
  }

  function Add(a: Vec, b: Vec): (c: Vec)
    requires |a| == |b|
    ensures |c| == |a| && forall i :: 0 <= i < |a| ==> c[i] == a[i] + b[i]
  {
    seq(|a|, i requires 0 <= i < |a| => a[i] + b[i])
  }

  function Scale(t: real, a: Vec): (c: Vec)
    ensures |c| == |a| && forall i :: 0 <= i < |a| ==> c[i] == t * a[i]
  {
    seq(|a|, i requires 0 <= i < |a| => t * a[i])
  }

  function Sub(a: Vec, b: Vec): (c: Vec)
    requires |a| == |b|
    ensures |c| == |a| && forall i :: 0 <= i < |a| ==> c[i] == a[i] - b[i]
  {
    seq(|a|, i requires 0 <= i < |a| => a[i] - b[i])
  }

  function Dot(a: Vec, x: Vec): real
    requires |a| == |x|
  {
    if |a| == 0 then 0.0 else a[0] * x[0] + Dot(a[1..], x[1..])
  }

  lemma {:induction false} DotAdd(a: Vec, b: Vec, x: Vec)
    requires |a| == |b| == |x|
    ensures Dot(Add(a, b), x) == Dot(a, x) + Dot(b, x)
  {
    if |a| > 0 {
      assert Add(a, b)[1..] == Add(a[1..], b[1..]);
      DotAdd(a[1..], b[1..], x[1..]);
      assert (a[0] + b[0]) * x[0] == a[0] * x[0] + b[0] * x[0];
    }
  }

  lemma {:induction false} DotScale(t: real, a: Vec, x: Vec)
    requires |a| == |x|
    ensures Dot(Scale(t, a), x) == t * Dot(a, x)
  {
    if |a| > 0 {
      forall i | 0 <= i < |a| - 1 ensures Scale(t, a)[1..][i] == Scale(t, a[1..])[i] {
        assert a[1..][i] == a[i + 1];
      }
      assert Scale(t, a)[1..] == Scale(t, a[1..]);
      DotScale(t, a[1..], x[1..]);
      assert t * a[0] * x[0] == t * (a[0] * x[0]);
      assert t * (a[0] * x[0] + Dot(a[1..], x[1..])) == t * (a[0] * x[0]) + t * Dot(a[1..], x[1..]);
    }
  }

  lemma {:induction false} DotSub(a: Vec, b: Vec, x: Vec)
    requires |a| == |b| == |x|
    ensures Dot(Sub(a, b), x) == Dot(a, x) - Dot(b, x)
  {
    if |a| > 0 {
      assert Sub(a, b)[1..] == Sub(a[1..], b[1..]);
      DotSub(a[1..], b[1..], x[1..]);
      assert (a[0] - b[0]) * x[0] == a[0] * x[0] - b[0] * x[0];
    }
  }

  lemma {:induction false} DotCommutes(a: Vec, x: Vec)
    requires |a| == |x|
    ensures Dot(a, x) == Dot(x, a)
  {
    if |a| > 0 { DotCommutes(a[1..], x[1..]); }
  }

  lemma DotScaleRight(t: real, a: Vec, x: Vec)
    requires |a| == |x|
    ensures Dot(a, Scale(t, x)) == t * Dot(a, x)
  {
    hide *;
    DotCommutes(a, Scale(t, x));
    DotScale(t, x, a);
    DotCommutes(a, x);
  }

  lemma {:induction false} DotVanishes(a: Vec, x: Vec)
    requires |a| == |x|
    requires forall i :: 0 <= i < |a| ==> a[i] == 0.0 || x[i] == 0.0
    ensures Dot(a, x) == 0.0
  {
    if |a| > 0 { DotVanishes(a[1..], x[1..]); }
  }

  /** When the products vanish off position p, the inner product is the product at p. */
  lemma {:induction false} DotAt(a: Vec, x: Vec, p: nat)
    requires |a| == |x| && p < |a|
    requires forall i :: 0 <= i < |a| && i != p ==> a[i] == 0.0 || x[i] == 0.0
    ensures Dot(a, x) == a[p] * x[p]
  {
    if p == 0 { DotVanishes(a[1..], x[1..]); } else { DotAt(a[1..], x[1..], p - 1); }
  }

  /** Likewise with two positions. */
  lemma {:induction false} DotAtTwo(a: Vec, x: Vec, p: nat, q: nat)
    requires |a| == |x| && p < q < |a|
    requires forall i :: 0 <= i < |a| && i != p && i != q ==> a[i] == 0.0 || x[i] == 0.0
    ensures Dot(a, x) == a[p] * x[p] + a[q] * x[q]
  {
    if p == 0 { DotAt(a[1..], x[1..], q - 1); } else { DotAtTwo(a[1..], x[1..], p - 1, q - 1); }
  }

  lemma {:induction false} DotConcat(a: Vec, b: Vec, x: Vec, y: Vec)
    requires |a| == |x| && |b| == |y|
    ensures Dot(a + b, x + y) == Dot(a, x) + Dot(b, y)
  {
    if |a| == 0 {
      assert a + b == b && x + y == y;
    } else {
      assert (a + b)[1..] == a[1..] + b && (x + y)[1..] == x[1..] + y;
      DotConcat(a[1..], b, x[1..], y);
    }
  }

  // ---------- Matrices applied to vectors ----------

  function MulVec(m: Matrix, x: Vec): (v: Vec)
    requires |x| == m.cols
    ensures |v| == m.rows
    ensures forall i {:trigger v[i]} :: 0 <= i < m.rows ==> v[i] == Dot(m.entries[i], x)
  {
    seq(m.rows, i requires 0 <= i < m.rows => Dot(m.entries[i], x))
  }

  lemma MulVecAdd(m: Matrix, x: Vec, y: Vec)
    requires |x| == |y| == m.cols
    ensures MulVec(m, Add(x, y)) == Add(MulVec(m, x), MulVec(m, y))
  {
    forall i | 0 <= i < m.rows ensures Dot(m.entries[i], Add(x, y)) == Dot(m.entries[i], x) + Dot(m.entries[i], y) {
      DotCommutes(m.entries[i], Add(x, y));
      DotAdd(x, y, m.entries[i]);
      DotCommutes(m.entries[i], x);
      DotCommutes(m.entries[i], y);
    }
  }

  lemma MulVecScale(m: Matrix, t: real, x: Vec)
    requires |x| == m.cols
    ensures MulVec(m, Scale(t, x)) == Scale(t, MulVec(m, x))
  {
    forall i | 0 <= i < m.rows ensures MulVec(m, Scale(t, x))[i] == Scale(t, MulVec(m, x))[i] {
      DotCommutes(m.entries[i], Scale(t, x));
      DotScale(t, x, m.entries[i]);
      DotCommutes(m.entries[i], x);
    }
  }

  lemma MulVecSub(m: Matrix, x: Vec, y: Vec)
    requires |x| == |y| == m.cols
    ensures MulVec(m, Sub(x, y)) == Sub(MulVec(m, x), MulVec(m, y))
  {
    forall i | 0 <= i < m.rows ensures Dot(m.entries[i], Sub(x, y)) == Dot(m.entries[i], x) - Dot(m.entries[i], y) {
      DotCommutes(m.entries[i], Sub(x, y));
      DotSub(x, y, m.entries[i]);
      DotCommutes(m.entries[i], x);
      DotCommutes(m.entries[i], y);
    }
  }

  lemma MulVecZeros(m: Matrix)
    ensures MulVec(m, Zeros(m.cols)) == Zeros(m.rows)
  {
    forall i | 0 <= i < m.rows ensures Dot(m.entries[i], Zeros(m.cols)) == 0.0 {
      DotVanishes(m.entries[i], Zeros(m.cols));
    }
  }

  function Column(m: Matrix, j: nat): (v: Vec)
    requires j < m.cols
    ensures |v| == m.rows && forall i :: 0 <= i < m.rows ==> v[i] == m.entries[i][j]
  {
    seq(m.rows, i requires 0 <= i < m.rows => m.entries[i][j])
  }

  lemma MulVecUnit(m: Matrix, j: nat)
    requires j < m.cols
    ensures MulVec(m, Unit(m.cols, j)) == Column(m, j)
  {
    forall i | 0 <= i < m.rows ensures Dot(m.entries[i], Unit(m.cols, j)) == m.entries[i][j] {
      DotAt(m.entries[i], Unit(m.cols, j), j);
    }
  }

  // ---------- Products ----------

  function MatMul(a: Matrix, b: Matrix): (c: Matrix)
    requires a.cols == b.rows
    ensures c.rows == a.rows && c.cols == b.cols
  {
    MatrixData(a.rows, b.cols,
               seq(a.rows, i requires 0 <= i < a.rows =>
                 seq(b.cols, j requires 0 <= j < b.cols => Dot(a.entries[i], Column(b, j)))))
  }

  predicate IsZero(m: Matrix) {
    forall i, j :: 0 <= i < m.rows && 0 <= j < m.cols ==> m.entries[i][j] == 0.0
  }

  function Identity(n: nat): Matrix {
    MatrixData(n, n, seq(n, i requires 0 <= i < n => Unit(n, i)))
  }

  /** The combination of rows with coefficients a. */
  function RowComb(a: Vec, rows: seq<Vec>, n: nat): (v: Vec)
    requires |a| == |rows| && forall i :: 0 <= i < |rows| ==> |rows[i]| == n
    ensures |v| == n
  {
    if |a| == 0 then Zeros(n) else Add(Scale(a[0], rows[0]), RowComb(a[1..], rows[1..], n))
  }

  lemma {:induction false} RowCombAt(a: Vec, rows: seq<Vec>, n: nat, j: nat, column: Vec)
    requires |a| == |rows| == |column| && j < n
    requires forall i :: 0 <= i < |rows| ==> |rows[i]| == n && rows[i][j] == column[i]
    ensures RowComb(a, rows, n)[j] == Dot(a, column)
  {
    if |a| > 0 { RowCombAt(a[1..], rows[1..], n, j, column[1..]); }
  }

  /** Row i of a product is the combination of the second factor's rows. */
  lemma ProductRow(a: Matrix, b: Matrix, i: nat)
    requires a.cols == b.rows && i < a.rows
    ensures MatMul(a, b).entries[i] == RowComb(a.entries[i], b.entries, b.cols)
  {
    forall j | 0 <= j < b.cols
      ensures MatMul(a, b).entries[i][j] == RowComb(a.entries[i], b.entries, b.cols)[j]
    {
      RowCombAt(a.entries[i], b.entries, b.cols, j, Column(b, j));
    }
  }

  lemma DotSumOfRows(t: real, row: Vec, rest: Vec, x: Vec)
    requires |row| == |rest| == |x|
    ensures Dot(Add(Scale(t, row), rest), x) == t * Dot(row, x) + Dot(rest, x)
  {
    hide Dot, Add, Scale;
    DotAdd(Scale(t, row), rest, x);
    DotScale(t, row, x);
  }

  lemma {:induction false} DotRowComb(a: Vec, rows: seq<Vec>, n: nat, x: Vec, image: Vec)
    requires |a| == |rows| == |image| && |x| == n
    requires forall i :: 0 <= i < |rows| ==> |rows[i]| == n && image[i] == Dot(rows[i], x)
    ensures Dot(RowComb(a, rows, n), x) == Dot(a, image)
  {
    if |a| == 0 {
      DotVanishes(Zeros(n), x);
    } else {
      DotRowComb(a[1..], rows[1..], n, x, image[1..]);
      DotSumOfRows(a[0], rows[0], RowComb(a[1..], rows[1..], n), x);
    }
  }

  lemma MulAssociates(a: Matrix, b: Matrix, x: Vec)
    requires a.cols == b.rows && |x| == b.cols
    ensures MulVec(MatMul(a, b), x) == MulVec(a, MulVec(b, x))
  {
    forall i | 0 <= i < a.rows ensures Dot(MatMul(a, b).entries[i], x) == Dot(a.entries[i], MulVec(b, x)) {
      ProductRow(a, b, i);
      DotRowComb(a.entries[i], b.entries, b.cols, x, MulVec(b, x));
    }
  }

  lemma ProductColumn(a: Matrix, b: Matrix, j: nat)
    requires a.cols == b.rows && j < b.cols
    ensures Column(MatMul(a, b), j) == MulVec(a, Column(b, j))
  {
  }

  /** Matrices of one shape agreeing on every vector are equal. */
  lemma MatrixExtensional(a: Matrix, b: Matrix)
    requires a.rows == b.rows && a.cols == b.cols
    requires forall x {:trigger MulVec(a, x)} :: |x| == a.cols ==> MulVec(a, x) == MulVec(b, x)
    ensures a == b
  {
    forall i, j | 0 <= i < a.rows && 0 <= j < a.cols ensures a.entries[i][j] == b.entries[i][j] {
      MulVecUnit(a, j);
      MulVecUnit(b, j);
      assert Column(a, j)[i] == Column(b, j)[i];
    }
    assert forall i :: 0 <= i < a.rows ==> a.entries[i] == b.entries[i];
    assert a.entries == b.entries;
  }

  lemma ZeroMatrixMeans(m: Matrix)
    ensures IsZero(m) <==> forall x {:trigger MulVec(m, x)} :: |x| == m.cols ==> MulVec(m, x) == Zeros(m.rows)
  {
    if IsZero(m) {
      forall x | |x| == m.cols ensures MulVec(m, x) == Zeros(m.rows) {
        forall i | 0 <= i < m.rows ensures Dot(m.entries[i], x) == 0.0 { DotVanishes(m.entries[i], x); }
      }
    }
    if forall x {:trigger MulVec(m, x)} :: |x| == m.cols ==> MulVec(m, x) == Zeros(m.rows) {
      forall i, j | 0 <= i < m.rows && 0 <= j < m.cols ensures m.entries[i][j] == 0.0 {
        MulVecUnit(m, j);
        assert Column(m, j)[i] == 0.0;
      }
    }
  }

  // ---------- Stacking ----------

  function Hstack(a: Matrix, b: Matrix): (c: Matrix)
    requires a.rows == b.rows
    ensures c.rows == a.rows && c.cols == a.cols + b.cols
  {
    MatrixData(a.rows, a.cols + b.cols, seq(a.rows, i requires 0 <= i < a.rows => a.entries[i] + b.entries[i]))
  }

  function ColumnMatrix(v: Vec): Matrix {
    MatrixData(|v|, 1, seq(|v|, i requires 0 <= i < |v| => [v[i]]))
  }

  /** The first c columns. */
  function Prefix(m: Matrix, c: nat): (p: Matrix)
    requires c <= m.cols
    ensures p.rows == m.rows && p.cols == c
  {
    MatrixData(m.rows, c, seq(m.rows, i requires 0 <= i < m.rows => m.entries[i][..c]))
  }

  lemma HstackMulVec(a: Matrix, b: Matrix, x: Vec, y: Vec)
    requires a.rows == b.rows && |x| == a.cols && |y| == b.cols
    ensures MulVec(Hstack(a, b), x + y) == Add(MulVec(a, x), MulVec(b, y))
  {
    forall i | 0 <= i < a.rows
      ensures Dot(Hstack(a, b).entries[i], x + y) == Dot(a.entries[i], x) + Dot(b.entries[i], y)
    {
      DotConcat(a.entries[i], b.entries[i], x, y);
    }
  }

  lemma HstackSplit(a: Matrix, b: Matrix, z: Vec)
    requires a.rows == b.rows && |z| == a.cols + b.cols
    ensures MulVec(Hstack(a, b), z) == Add(MulVec(a, z[..a.cols]), MulVec(b, z[a.cols..]))
  {
    assert z == z[..a.cols] + z[a.cols..];
    HstackMulVec(a, b, z[..a.cols], z[a.cols..]);
  }

  lemma ColumnMatrixMulVec(v: Vec, t: real)
    ensures MulVec(ColumnMatrix(v), [t]) == Scale(t, v)
  {
    forall i | 0 <= i < |v| ensures Dot(ColumnMatrix(v).entries[i], [t]) == t * v[i] {
      DotAt([v[i]], [t], 0);
    }
  }

  lemma PrefixOfHstack(a: Matrix, b: Matrix, c: nat)
    requires a.rows == b.rows && c <= b.cols
    ensures Prefix(Hstack(a, b), a.cols + c) == Hstack(a, Prefix(b, c))
    ensures c < b.cols ==> Column(Hstack(a, b), a.cols + c) == Column(b, c)
  {
    forall i | 0 <= i < a.rows
      ensures (a.entries[i] + b.entries[i])[..a.cols + c] == a.entries[i] + b.entries[i][..c]
    {
    }
  }

  lemma HstackEmpty(a: Matrix, b: Matrix)
    requires a.rows == b.rows && b.cols == 0
    ensures Hstack(a, b) == a
  {
    assert forall i :: 0 <= i < a.rows ==> a.entries[i] + b.entries[i] == a.entries[i];
    assert Hstack(a, b).entries == a.entries;
  }

  lemma PrefixAll(m: Matrix)
    ensures Prefix(m, m.cols) == m
  {
    assert forall i :: 0 <= i < m.rows ==> m.entries[i][..m.cols] == m.entries[i];
    assert Prefix(m, m.cols).entries == m.entries;
  }

  lemma PrefixOfPrefix(m: Matrix, c: nat, d: nat)
    requires d <= c <= m.cols
    ensures Prefix(Prefix(m, c), d) == Prefix(m, d)
    ensures d < c ==> Column(Prefix(m, c), d) == Column(m, d)
  {
    assert forall i :: 0 <= i < m.rows ==> m.entries[i][..c][..d] == m.entries[i][..d];
    assert Prefix(Prefix(m, c), d).entries == Prefix(m, d).entries;
  }

  lemma SplitLastColumn(m: Matrix)
    requires m.cols > 0
    ensures m == Hstack(Prefix(m, m.cols - 1), ColumnMatrix(Column(m, m.cols - 1)))
  {
    var last := m.cols - 1;
    assert forall i :: 0 <= i < m.rows ==> m.entries[i] == m.entries[i][..last] + [m.entries[i][last]];
    assert m.entries == Hstack(Prefix(m, last), ColumnMatrix(Column(m, last))).entries;
  }
}
