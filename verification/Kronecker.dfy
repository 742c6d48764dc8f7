/**
 The Kronecker product of necessity_map.py and its mixed-product law.
 */
module Kronecker {
  import opened Matrices

  // ---------- Combinations of rows ----------

  lemma {:induction false} RowCombConcat(a: Vec, b: Vec, r: seq<Vec>, s: seq<Vec>, n: nat)
    requires |a| == |r| && |b| == |s|
    requires forall i :: 0 <= i < |r| ==> |r[i]| == n
    requires forall i :: 0 <= i < |s| ==> |s[i]| == n
    ensures RowComb(a + b, r + s, n) == Add(RowComb(a, r, n), RowComb(b, s, n))
  {
    if |a| == 0 {
      assert a + b == b && r + s == s;
    } else {
      assert (a + b)[1..] == a[1..] + b && (r + s)[1..] == r[1..] + s;
      RowCombConcat(a[1..], b, r[1..], s, n);
    }
  }

  lemma {:induction false} RowCombScale(t: real, a: Vec, r: seq<Vec>, n: nat)
    requires |a| == |r| && forall i :: 0 <= i < |r| ==> |r[i]| == n
    ensures RowComb(Scale(t, a), r, n) == Scale(t, RowComb(a, r, n))
  {
    if |a| == 0 {
      ScaleZeros(t, n);
    } else {
      var w, f := Scale(t, a), t * a[0];
      ScaleTail(t, a);
      RowCombScale(t, a[1..], r[1..], n);
      ScaleOfSum(t, a[0], f, r[0], RowComb(a[1..], r[1..], n));
      assert RowComb(w, r, n) == Add(Scale(w[0], r[0]), RowComb(w[1..], r[1..], n));
      assert w[0] == f;
    }
  }

  lemma ScaleOfSum(t: real, f: real, g: real, v: Vec, w: Vec)
    requires |v| == |w| && g == t * f
    ensures Scale(t, Add(Scale(f, v), w)) == Add(Scale(g, v), Scale(t, w))
  {
    forall i | 0 <= i < |v| ensures Scale(t, Add(Scale(f, v), w))[i] == Add(Scale(g, v), Scale(t, w))[i] {
      assert t * (f * v[i] + w[i]) == t * f * v[i] + t * w[i];
    }
  }

  lemma RowCombOne(t: real, v: Vec)
    ensures RowComb([t], [v], |v|) == Scale(t, v)
  {
    assert [t][1..] == [] && [v][1..] == [] && RowComb([], [], |v|) == Zeros(|v|);
    assert RowComb([t], [v], |v|) == Add(Scale(t, v), Zeros(|v|));
    forall i | 0 <= i < |v| ensures Add(Scale(t, v), Zeros(|v|))[i] == Scale(t, v)[i] {}
    assert Add(Scale(t, v), Zeros(|v|)) == Scale(t, v);
  }

  // ---------- The product ----------

  lemma Peel(m: nat, n: nat)
    requires m > 0
    ensures (m - 1) * n + n == m * n
  {
  }

  /** The row a tensor b. */
  function KronVec(a: Vec, b: Vec): (v: Vec)
    ensures |v| == |a| * |b|
  {
    if |a| == 0 then [] else
      assert (|a| - 1) * |b| + |b| == |a| * |b| by { Peel(|a|, |b|); }
      KronVec(a[..|a| - 1], b) + Scale(a[|a| - 1], b)
  }

  function KronBlock(row: Vec, right: seq<Vec>): (rows: seq<Vec>)
    ensures |rows| == |right| && forall r :: 0 <= r < |right| ==> rows[r] == KronVec(row, right[r])
  {
    seq(|right|, r requires 0 <= r < |right| => KronVec(row, right[r]))
  }

  function KronRows(left: seq<Vec>, right: seq<Vec>): (rows: seq<Vec>)
    ensures |rows| == |left| * |right|
  {
    if |left| == 0 then [] else
      assert (|left| - 1) * |right| + |right| == |left| * |right| by { Peel(|left|, |right|); }
      KronRows(left[..|left| - 1], right) + KronBlock(left[|left| - 1], right)
  }

  predicate Wide(rows: seq<Vec>, n: nat) { forall i :: 0 <= i < |rows| ==> |rows[i]| == n }

  lemma {:induction false} KronRowsWide(left: seq<Vec>, right: seq<Vec>, m: nat, n: nat)
    requires Wide(left, m) && Wide(right, n)
    ensures Wide(KronRows(left, right), m * n)
  {
    if |left| > 0 {
      KronRowsWide(left[..|left| - 1], right, m, n);
    }
  }

  function Kron(left: Matrix, right: Matrix): (m: Matrix)
    ensures m.rows == left.rows * right.rows && m.cols == left.cols * right.cols
  {
    KronRowsWide(left.entries, right.entries, left.cols, right.cols);
    MatrixData(left.rows * right.rows, left.cols * right.cols, KronRows(left.entries, right.entries))
  }

  // ---------- Bilinearity ----------

  lemma {:induction false} KronVecAddRight(c: Vec, v: Vec, w: Vec)
    requires |v| == |w|
    ensures KronVec(c, Add(v, w)) == Add(KronVec(c, v), KronVec(c, w))
  {
    if |c| > 0 {
      var n := |c| - 1;
      KronVecAddRight(c[..n], v, w);
      assert Scale(c[n], Add(v, w)) == Add(Scale(c[n], v), Scale(c[n], w)) by { ScaleAdd(c[n], v, w); }
      AddOfConcats(KronVec(c[..n], v), Scale(c[n], v), KronVec(c[..n], w), Scale(c[n], w));
    }
  }

  lemma ScaleAdd(t: real, v: Vec, w: Vec)
    requires |v| == |w|
    ensures Scale(t, Add(v, w)) == Add(Scale(t, v), Scale(t, w))
  {
    forall i | 0 <= i < |v| ensures Scale(t, Add(v, w))[i] == Add(Scale(t, v), Scale(t, w))[i] {
      assert t * (v[i] + w[i]) == t * v[i] + t * w[i];
    }
  }

  lemma AddOfConcats(a: Vec, b: Vec, c: Vec, d: Vec)
    requires |a| == |c| && |b| == |d|
    ensures Add(a, c) + Add(b, d) == Add(a + b, c + d)
  {
  }

  lemma {:induction false} KronVecScaleRight(t: real, c: Vec, v: Vec)
    ensures KronVec(c, Scale(t, v)) == Scale(t, KronVec(c, v))
  {
    if |c| > 0 {
      var n := |c| - 1;
      KronVecScaleRight(t, c[..n], v);
      ScaleSwap(t, c[n], v);
      ScaleConcat(t, KronVec(c[..n], v), Scale(c[n], v));
    }
  }

  lemma ScaleSwap(t: real, f: real, v: Vec)
    ensures Scale(f, Scale(t, v)) == Scale(t, Scale(f, v))
  {
    forall i | 0 <= i < |v| ensures Scale(f, Scale(t, v))[i] == Scale(t, Scale(f, v))[i] {
      assert f * (t * v[i]) == t * (f * v[i]);
    }
  }

  lemma ScaleConcat(t: real, a: Vec, b: Vec)
    ensures Scale(t, a + b) == Scale(t, a) + Scale(t, b)
  {
    forall i | 0 <= i < |a| + |b| ensures Scale(t, a + b)[i] == (Scale(t, a) + Scale(t, b))[i] {
      assert (a + b)[i] == if i < |a| then a[i] else b[i - |a|];
    }
  }

  lemma ScaleTake(t: real, a: Vec, n: nat)
    requires n <= |a|
    ensures Scale(t, a)[..n] == Scale(t, a[..n])
  {
    forall i | 0 <= i < n ensures Scale(t, a)[..n][i] == Scale(t, a[..n])[i] {
      assert a[..n][i] == a[i];
    }
  }

  lemma ScaleTail(t: real, a: Vec)
    requires |a| > 0
    ensures Scale(t, a)[0] == t * a[0] && Scale(t, a)[1..] == Scale(t, a[1..])
  {
    forall i | 0 <= i < |a| - 1 ensures Scale(t, a)[1..][i] == Scale(t, a[1..])[i] {
      assert a[1..][i] == a[i + 1];
    }
  }

  lemma ScaleZeros(t: real, n: nat)
    ensures Scale(t, Zeros(n)) == Zeros(n)
  {
    forall i | 0 <= i < n ensures Scale(t, Zeros(n))[i] == 0.0 {}
  }

  lemma {:induction false} KronVecAddLeft(v: Vec, w: Vec, b: Vec)
    requires |v| == |w|
    ensures KronVec(Add(v, w), b) == Add(KronVec(v, b), KronVec(w, b))
  {
    if |v| > 0 {
      var n := |v| - 1;
      assert Add(v, w)[..n] == Add(v[..n], w[..n]);
      KronVecAddLeft(v[..n], w[..n], b);
      assert Scale(v[n] + w[n], b) == Add(Scale(v[n], b), Scale(w[n], b)) by { ScaleBySum(v[n], w[n], b); }
      AddOfConcats(KronVec(v[..n], b), Scale(v[n], b), KronVec(w[..n], b), Scale(w[n], b));
    }
  }

  lemma ScaleBySum(t: real, f: real, b: Vec)
    ensures Scale(t + f, b) == Add(Scale(t, b), Scale(f, b))
  {
    forall i | 0 <= i < |b| ensures Scale(t + f, b)[i] == Add(Scale(t, b), Scale(f, b))[i] {
      assert (t + f) * b[i] == t * b[i] + f * b[i];
    }
  }

  lemma {:induction false} KronVecScaleLeft(t: real, v: Vec, b: Vec)
    ensures KronVec(Scale(t, v), b) == Scale(t, KronVec(v, b))
  {
    if |v| == 0 {
      assert KronVec(v, b) == [] && Scale(t, []) == [];
    } else {
      var n := |v| - 1;
      ScaleTake(t, v, n);
      KronVecScaleLeft(t, v[..n], b);
      KronVecScaleLast(t, v, b);
    }
  }

  lemma KronVecLast(v: Vec, b: Vec)
    requires |v| > 0
    ensures KronVec(v, b) == KronVec(v[..|v| - 1], b) + Scale(v[|v| - 1], b)
  {
  }

  lemma KronVecScaleLast(t: real, v: Vec, b: Vec)
    requires |v| > 0 && Scale(t, v)[..|v| - 1] == Scale(t, v[..|v| - 1])
    requires KronVec(Scale(t, v[..|v| - 1]), b) == Scale(t, KronVec(v[..|v| - 1], b))
    ensures KronVec(Scale(t, v), b) == Scale(t, KronVec(v, b))
  {
    var n := |v| - 1;
    var w := Scale(t, v);
    assert |w| == n + 1 && w[n] == t * v[n];
    hide KronVec, Scale;
    KronVecLast(w, b);
    KronVecLast(v, b);
    assert w[..|w| - 1] == w[..n];
    ScaleTwice(t, v[n], w[n], b);
    ScaleConcat(t, KronVec(v[..n], b), Scale(v[n], b));
  }

  lemma ScaleTwice(t: real, f: real, g: real, b: Vec)
    requires g == t * f
    ensures Scale(g, b) == Scale(t, Scale(f, b))
  {
    forall i | 0 <= i < |b| ensures Scale(g, b)[i] == Scale(t, Scale(f, b))[i] {
      assert t * f * b[i] == t * (f * b[i]);
    }
  }

  lemma {:induction false} KronVecZeros(n: nat, b: Vec)
    ensures KronVec(Zeros(n), b) == Zeros(n * |b|)
  {
    if n > 0 {
      assert Zeros(n)[..n - 1] == Zeros(n - 1);
      KronVecZeros(n - 1, b);
      assert (n - 1) * |b| + |b| == n * |b|;
    }
  }

  lemma {:induction false} KronVecRightZeros(c: Vec, n: nat)
    ensures KronVec(c, Zeros(n)) == Zeros(|c| * n)
  {
    if |c| > 0 {
      KronVecRightZeros(c[..|c| - 1], n);
      assert (|c| - 1) * n + n == |c| * n;
    }
  }

  // ---------- The mixed-product law ----------

  lemma {:induction false} CombOfBlock(b: Vec, c: Vec, rows: seq<Vec>, n: nat)
    requires |b| == |rows| && Wide(rows, n)
    ensures Wide(KronBlock(c, rows), |c| * n)
    ensures RowComb(b, KronBlock(c, rows), |c| * n) == KronVec(c, RowComb(b, rows, n))
  {
    if |b| == 0 {
      KronVecRightZeros(c, n);
    } else {
      assert KronBlock(c, rows)[1..] == KronBlock(c, rows[1..]);
      CombOfBlock(b[1..], c, rows[1..], n);
      KronVecAddRight(c, Scale(b[0], rows[0]), RowComb(b[1..], rows[1..], n));
      KronVecScaleRight(b[0], c, rows[0]);
    }
  }

  lemma RowCombLast(a: Vec, rows: seq<Vec>, n: nat)
    requires |a| == |rows| > 0 && Wide(rows, n)
    ensures RowComb(a, rows, n) == Add(RowComb(a[..|a| - 1], rows[..|a| - 1], n), Scale(a[|a| - 1], rows[|a| - 1]))
  {
    var m := |a| - 1;
    assert a == a[..m] + [a[m]] && rows == rows[..m] + [rows[m]];
    RowCombConcat(a[..m], [a[m]], rows[..m], [rows[m]], n);
    RowCombOne(a[m], rows[m]);
  }

  lemma {:induction false} CombOfKron(a: Vec, b: Vec, c: seq<Vec>, d: seq<Vec>, m: nat, n: nat)
    requires |a| == |c| && |b| == |d| && Wide(c, m) && Wide(d, n)
    ensures Wide(KronRows(c, d), m * n)
    ensures RowComb(KronVec(a, b), KronRows(c, d), m * n) == KronVec(RowComb(a, c, m), RowComb(b, d, n))
  {
    KronRowsWide(c, d, m, n);
    if |a| == 0 {
      KronVecZeros(m, RowComb(b, d, n));
    } else {
      var k := |a| - 1;
      var t, image := a[k], RowComb(b, d, n);
      KronRowsWide(c[..k], d, m, n);
      CombOfKron(a[..k], b, c[..k], d, m, n);
      CombOfBlock(Scale(t, b), c[k], d, n);
      RowCombConcat(KronVec(a[..k], b), Scale(t, b), KronRows(c[..k], d), KronBlock(c[k], d), m * n);
      RowCombScale(t, b, d, n);
      RowCombLast(a, c, m);
      KronVecAddLeft(RowComb(a[..k], c[..k], m), Scale(t, c[k]), image);
      KronVecScaleLeft(t, c[k], image);
      KronVecScaleRight(t, c[k], image);
    }
  }

  lemma {:induction false} KronRowAt(left: seq<Vec>, right: seq<Vec>, i: nat, r: nat)
    requires i < |left| && r < |right|
    ensures i * |right| + r < |left| * |right|
    ensures KronRows(left, right)[i * |right| + r] == KronVec(left[i], right[r])
  {
    var n := |left| - 1;
    hide KronVec;
    assert n * |right| + |right| == |left| * |right|;
    if i < n {
      KronRowAt(left[..n], right, i, r);
    }
  }

  lemma {:induction false} KronVecAt(a: Vec, b: Vec, j: nat, l: nat, start: nat)
    requires j < |a| && l < |b| && start == j * |b|
    ensures start + l < |KronVec(a, b)| && KronVec(a, b)[start + l] == a[j] * b[l]
  {
    hide KronVec, Scale;
    var n := |a| - 1;
    var head, last := KronVec(a[..n], b), Scale(a[n], b);
    KronVecLast(a, b);
    ScaleAt(a[n], b, l);
    if j < n {
      KronVecAt(a[..n], b, j, l, start);
    } else {
      assert start == |head| && (head + last)[start + l] == last[l];
    }
  }

  lemma ScaleAt(t: real, b: Vec, l: nat)
    requires l < |b|
    ensures Scale(t, b)[l] == t * b[l]
  {
  }

  /** Entry by entry: the blocks of a tensor b are the multiples of b by the entries of a. */
  lemma KronEntry(a: Matrix, b: Matrix, i: nat, r: nat, j: nat, l: nat)
    requires i < a.rows && r < b.rows && j < a.cols && l < b.cols
    ensures var row, col := i * b.rows + r, j * b.cols + l;
            && row < a.rows * b.rows && col < a.cols * b.cols
            && Kron(a, b).entries[row][col] == a.entries[i][j] * b.entries[r][l]
  {
    hide KronVec, KronRows;
    KronRowAt(a.entries, b.entries, i, r);
    KronVecAt(a.entries[i], b.entries[r], j, l, j * b.cols);
    assert |KronVec(a.entries[i], b.entries[r])| == a.cols * b.cols;
  }

  lemma {:induction false} DivMod(k: nat, rows: nat, m: nat) returns (i: nat, r: nat)
    requires k < rows * m
    ensures i < rows && r < m && k == i * m + r
  {
    if rows == 0 {
      assert false;
    } else if (rows - 1) * m <= k {
      i, r := rows - 1, k - (rows - 1) * m;
      assert (rows - 1) * m + m == rows * m;
    } else {
      i, r := DivMod(k, rows - 1, m);
    }
  }

  lemma MixedProduct(a: Matrix, b: Matrix, c: Matrix, d: Matrix)
    requires a.cols == c.rows && b.cols == d.rows
    ensures MatMul(Kron(a, b), Kron(c, d)) == Kron(MatMul(a, c), MatMul(b, d))
  {
    var l, r := MatMul(Kron(a, b), Kron(c, d)), Kron(MatMul(a, c), MatMul(b, d));
    forall k | 0 <= k < l.rows ensures l.entries[k] == r.entries[k] {
      MixedProductRow(a, b, c, d, k);
    }
    assert l.entries == r.entries;
  }

  lemma MixedProductRow(a: Matrix, b: Matrix, c: Matrix, d: Matrix, k: nat)
    requires a.cols == c.rows && b.cols == d.rows && k < a.rows * b.rows
    ensures MatMul(Kron(a, b), Kron(c, d)).entries[k] == Kron(MatMul(a, c), MatMul(b, d)).entries[k]
  {
    hide KronVec, KronRows, RowComb, MatMul;
    var i, s := DivMod(k, a.rows, b.rows);
    KronRowAt(a.entries, b.entries, i, s);
    KronRowAt(MatMul(a, c).entries, MatMul(b, d).entries, i, s);
    ProductRow(Kron(a, b), Kron(c, d), k);
    CombOfKron(a.entries[i], b.entries[s], c.entries, d.entries, c.cols, d.cols);
    ProductRow(a, c, i);
    ProductRow(b, d, s);
  }

  lemma IdentityNeutral(m: Matrix)
    ensures MatMul(Identity(m.rows), m) == m && MatMul(m, Identity(m.cols)) == m
  {
    forall x | |x| == m.cols ensures MulVec(MatMul(Identity(m.rows), m), x) == MulVec(m, x) {
      MulAssociates(Identity(m.rows), m, x);
      IdentityMulVec(MulVec(m, x));
    }
    MatrixExtensional(MatMul(Identity(m.rows), m), m);
    forall x | |x| == m.cols ensures MulVec(MatMul(m, Identity(m.cols)), x) == MulVec(m, x) {
      MulAssociates(m, Identity(m.cols), x);
      IdentityMulVec(x);
    }
    MatrixExtensional(MatMul(m, Identity(m.cols)), m);
  }

  lemma IdentityMulVec(x: Vec)
    ensures MulVec(Identity(|x|), x) == x
  {
    forall i | 0 <= i < |x| ensures Dot(Identity(|x|).entries[i], x) == x[i] {
      DotAt(Unit(|x|, i), x, i);
    }
  }

  lemma KronIsZero(a: Matrix, b: Matrix)
    requires IsZero(a)
    ensures IsZero(Kron(a, b))
  {
    forall k | 0 <= k < a.rows * b.rows ensures Kron(a, b).entries[k] == Zeros(a.cols * b.cols) {
      var i, r := DivMod(k, a.rows, b.rows);
      KronRowAt(a.entries, b.entries, i, r);
      assert a.entries[i] == Zeros(a.cols);
      KronVecZeros(a.cols, b.entries[r]);
    }
  }

  // ---------- The four nested loops ----------

  /** A row of the product with its first c blocks written. */
  function PartialRow(left: Vec, c: nat, right: Vec): (row: Vec)
    requires c <= |left|
    ensures |row| == |left| * |right|
  {
    BlocksFit(|left|, c, |right|);
    KronVec(left[..c], right) + Unwritten(|left| - c, |right|)
  }

  function Unwritten(blocks: nat, n: nat): (z: Vec)
    ensures |z| == blocks * n && forall i :: 0 <= i < |z| ==> z[i] == 0.0
  {
    Zeros(blocks * n)
  }

  lemma BlocksFit(m: nat, c: nat, n: nat)
    requires c <= m
    ensures c * n + (m - c) * n == m * n
    ensures c < m ==> (c + 1) * n == c * n + n && (m - c) * n == n + (m - c - 1) * n
  {
  }

  lemma BlockAhead(left: Vec, c: nat, right: Vec)
    requires c < |left|
    ensures PartialRow(left, c, right)
         == KronVec(left[..c], right) + ([] + Zeros(|right|) + Unwritten(|left| - c - 1, |right|))
    ensures |KronVec(left[..c], right)| == c * |right|
  {
    BlocksFit(|left|, c, |right|);
  }

  lemma BlockBehind(left: Vec, c: nat, right: Vec)
    requires c < |left|
    ensures PartialRow(left, c + 1, right)
         == KronVec(left[..c], right) + (Scale(left[c], right) + Zeros(0) + Unwritten(|left| - c - 1, |right|))
  {
    hide KronVec, Scale, Unwritten;
    assert left[..c + 1][..c] == left[..c];
    KronVecLast(left[..c + 1], right);
    RegroupBlock(KronVec(left[..c], right), Scale(left[c], right), Unwritten(|left| - c - 1, |right|));
  }

  lemma RegroupBlock(head: Vec, block: Vec, tail: Vec)
    ensures (head + block) + tail == head + (block + Zeros(0) + tail)
  {
  }

  /** The innermost loop: one block of one row. */
  method WriteBlock(row: Vec, left: Vec, c: nat, right: Vec) returns (r: Vec)
    requires c < |left| && row == PartialRow(left, c, right)
    ensures r == PartialRow(left, c + 1, right)
  {
    hide KronVec, PartialRow, Scale, Unwritten;
    var scalar, n := left[c], |right|;
    ghost var head, tail := KronVec(left[..c], right), Unwritten(|left| - c - 1, n);
    BlockAhead(left, c, right);
    BlockBehind(left, c, right);
    r := row;
    assert Scale(scalar, right[..0]) == [];
    for col := 0 to n
      invariant r == head + (Scale(scalar, right[..col]) + Zeros(n - col) + tail)
    {
      ghost var done, value := Scale(scalar, right[..col]), scalar * right[col];
      WriteEntry(head, done, n - col, tail, value);
      ScaleNext(scalar, right, col, value);
      r := r[c * n + col := scalar * right[col]];
    }
    assert right[..n] == right;
  }

  lemma WriteEntry(head: Vec, done: Vec, left: nat, tail: Vec, value: real)
    requires left > 0
    ensures var row := head + (done + Zeros(left) + tail);
            row[|head| + |done| := value] == head + (done + [value] + Zeros(left - 1) + tail)
  {
  }

  lemma ScaleNext(t: real, v: Vec, col: nat, value: real)
    requires col < |v| && value == t * v[col]
    ensures Scale(t, v[..col + 1]) == Scale(t, v[..col]) + [value]
  {
    assert v[..col + 1] == v[..col] + [v[col]];
    ScaleConcat(t, v[..col], [v[col]]);
    assert Scale(t, [v[col]])[0] == t * v[col];
  }

  /** The rows of one left row, block by block. */
  method WriteRows(left: Vec, right: Matrix) returns (rows: seq<Vec>)
    ensures rows == KronBlock(left, right.entries)
  {
    rows := seq(right.rows, _ => Zeros(|left| * right.cols));
    NothingWritten(left, right);
    for c := 0 to |left|
      invariant |rows| == right.rows
      invariant forall r :: 0 <= r < right.rows ==> rows[r] == PartialRow(left, c, right.entries[r])
    {
      for r := 0 to right.rows
        invariant |rows| == right.rows
        invariant forall k :: 0 <= k < right.rows ==> rows[k] == PartialRow(left, if k < r then c + 1 else c, right.entries[k])
      {
        var row := WriteBlock(rows[r], left, c, right.entries[r]);
        rows := rows[r := row];
      }
    }
    AllWritten(left, right);
  }

  lemma NothingWritten(left: Vec, right: Matrix)
    ensures forall r :: 0 <= r < right.rows ==> PartialRow(left, 0, right.entries[r]) == Zeros(|left| * right.cols)
  {
  }

  lemma AllWritten(left: Vec, right: Matrix)
    ensures forall r :: 0 <= r < right.rows ==> PartialRow(left, |left|, right.entries[r]) == KronVec(left, right.entries[r])
  {
    assert left[..|left|] == left;
  }

  method KroneckerProduct(left: Matrix, right: Matrix) returns (m: Matrix)
    ensures m == Kron(left, right)
  {
    var data: seq<Vec> := [];
    for i := 0 to left.rows
      invariant data == KronRows(left.entries[..i], right.entries)
    {
      var rows := WriteRows(left.entries[i], right);
      assert left.entries[..i + 1][..i] == left.entries[..i];
      data := data + rows;
    }
    assert left.entries[..left.rows] == left.entries;
    KronRowsWide(left.entries, right.entries, left.cols, right.cols);
    m := MatrixData(left.rows * right.rows, left.cols * right.cols, data);
  }
}
