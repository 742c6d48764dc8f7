/**
 Gauss-Jordan elimination over the rationals and the routines built on it in
 research/experiments/g104-necessity-map/necessity_map.py: rank, kernel basis and the
 linear solver. The program repeats the loop in all three; here it is one method.
 */
module Elimination {
  import opened Options
  import opened Matrices
  import opened Spans

  // ---------- Row operations keep the kernel ----------

  predicate AreRows(rows: seq<Vec>, n: nat) {
    forall i :: 0 <= i < |rows| ==> |rows[i]| == n
  }

  ghost predicate AllVanish(rows: seq<Vec>, x: Vec)
    requires AreRows(rows, |x|)
  {
    forall i :: 0 <= i < |rows| ==> Dot(rows[i], x) == 0.0
  }

  ghost predicate SameKernel(rows: seq<Vec>, rows': seq<Vec>, n: nat)
    requires AreRows(rows, n) && AreRows(rows', n)
  {
    forall x: Vec {:trigger AllVanish(rows, x)} {:trigger AllVanish(rows', x)} ::
      |x| == n ==> (AllVanish(rows, x) <==> AllVanish(rows', x))
  }

  function Divide(a: Vec, t: real): (c: Vec)
    requires t != 0.0
    ensures |c| == |a| && forall i :: 0 <= i < |a| ==> c[i] == a[i] / t
  {
    seq(|a|, i requires 0 <= i < |a| => a[i] / t)
  }

  lemma {:induction false} DivideDot(a: Vec, t: real, x: Vec)
    requires t != 0.0 && |a| == |x|
    ensures Dot(Divide(a, t), x) == 0.0 <==> Dot(a, x) == 0.0
  {
    assert Scale(t, Divide(a, t)) == a by { DivideScales(a, t); }
    hide Dot, Divide;
    DotScale(t, Divide(a, t), x);
  }

  lemma DivideScales(a: Vec, t: real)
    requires t != 0.0
    ensures Scale(t, Divide(a, t)) == a
  {
    forall i | 0 <= i < |a| ensures Scale(t, Divide(a, t))[i] == a[i] {}
  }

  lemma DivideKeepsKernel(rows: seq<Vec>, p: nat, t: real, n: nat)
    requires AreRows(rows, n) && p < |rows| && t != 0.0
    ensures SameKernel(rows, rows[p := Divide(rows[p], t)], n)
  {
    var rows' := rows[p := Divide(rows[p], t)];
    forall x: Vec | |x| == n ensures AllVanish(rows, x) <==> AllVanish(rows', x) {
      DivideDot(rows[p], t, x);
      OneRowDiffers(rows, rows', p, x);
    }
  }

  lemma OneRowDiffers(rows: seq<Vec>, rows': seq<Vec>, p: nat, x: Vec)
    requires |rows| == |rows'| && p < |rows| && AreRows(rows, |x|) && AreRows(rows', |x|)
    requires forall i :: 0 <= i < |rows| && i != p ==> rows[i] == rows'[i]
    requires Dot(rows[p], x) == 0.0 <==> Dot(rows'[p], x) == 0.0
    ensures AllVanish(rows, x) <==> AllVanish(rows', x)
  {
  }

  lemma SubtractKeepsKernel(rows: seq<Vec>, row: nat, p: nat, f: real, n: nat)
    requires AreRows(rows, n) && row < |rows| && p < |rows| && row != p
    ensures SameKernel(rows, rows[row := Sub(rows[row], Scale(f, rows[p]))], n)
  {
    var rows' := rows[row := Sub(rows[row], Scale(f, rows[p]))];
    forall x: Vec | |x| == n ensures AllVanish(rows, x) <==> AllVanish(rows', x) {
      if Dot(rows[p], x) == 0.0 {
        DotSub(rows[row], Scale(f, rows[p]), x);
        DotScale(f, rows[p], x);
        OneRowDiffers(rows, rows', row, x);
      } else {
        assert rows'[p] == rows[p];
      }
    }
  }

  lemma SwapKeepsKernel(rows: seq<Vec>, a: nat, b: nat, n: nat)
    requires AreRows(rows, n) && a < |rows| && b < |rows|
    ensures SameKernel(rows, rows[a := rows[b]][b := rows[a]], n)
  {
    var rows' := rows[a := rows[b]][b := rows[a]];
    forall x: Vec | |x| == n ensures AllVanish(rows, x) <==> AllVanish(rows', x) {
      if AllVanish(rows', x) {
        forall i | 0 <= i < |rows| ensures Dot(rows[i], x) == 0.0 {
          assert Dot(rows'[if i == a then b else if i == b then a else i], x) == 0.0;
        }
      }
    }
  }

  // ---------- Reduced rows ----------

  /** Row k has a one in column pivots[k], alone in that column, and the rows without a
      pivot are zero left of `col`. */
  ghost predicate Reduced(work: seq<Vec>, pivots: seq<nat>, col: nat, width: nat) {
    && AreRows(work, width) && |pivots| <= |work| && col <= width
    && (forall k :: 0 <= k < |pivots| ==> pivots[k] < col)
    && (forall k, l :: 0 <= k < l < |pivots| ==> pivots[k] < pivots[l])
    && (forall k, i :: 0 <= k < |pivots| && 0 <= i < |work| ==> work[i][pivots[k]] == if i == k then 1.0 else 0.0)
    && (forall i, j :: |pivots| <= i < |work| && 0 <= j < col ==> work[i][j] == 0.0)
  }

  /** The first x columns combine to column |x|. */
  function Relation(x: Vec, width: nat): (z: Vec)
    requires |x| < width
    ensures |z| == width
  {
    x + ([-1.0] + Zeros(width - |x| - 1))
  }

  lemma {:induction false} RelationDot(row: Vec, x: Vec)
    requires |x| < |row|
    ensures Dot(row, Relation(x, |row|)) == Dot(row[..|x|], x) - row[|x|]
    decreases |x|
  {
    var z := Relation(x, |row|);
    if x == [] {
      assert row[..0] == [];
      DotAt(row, z, 0);
    } else {
      assert z[1..] == Relation(x[1..], |row| - 1);
      assert row[..|x|][1..] == row[1..][..|x| - 1];
      RelationDot(row[1..], x[1..]);
    }
  }

  lemma RelationMeans(w: Matrix, x: Vec)
    requires |x| < w.cols
    ensures AllVanish(w.entries, Relation(x, w.cols)) <==> MulVec(Prefix(w, |x|), x) == Column(w, |x|)
  {
    var z := Relation(x, w.cols);
    forall i | 0 <= i < w.rows
      ensures Dot(w.entries[i], z) == MulVec(Prefix(w, |x|), x)[i] - Column(w, |x|)[i]
    {
      RelationDot(w.entries[i], x);
    }
    if AllVanish(w.entries, z) {
      forall i | 0 <= i < w.rows ensures MulVec(Prefix(w, |x|), x)[i] == Column(w, |x|)[i] {}
    }
  }

  /** A nonzero entry below the pivots: no combination of the earlier columns. */
  lemma NewPivotColumn(w: Matrix, work: seq<Vec>, pivots: seq<nat>, col: nat, r: nat)
    requires col < w.cols && Reduced(work, pivots, col, w.cols) && SameKernel(w.entries, work, w.cols)
    requires |pivots| <= r < |work| && work[r][col] != 0.0
    ensures Rank(Prefix(w, col + 1)) == Rank(Prefix(w, col)) + 1
  {
    PrefixOfPrefix(w, col + 1, col);
    forall x | |x| == col ensures MulVec(Prefix(w, col), x) != Column(w, col) {
      PivotRowRefutes(work[r], x);
      NoRelation(w, work, r, x);
    }
  }

  lemma NoRelation(w: Matrix, work: seq<Vec>, r: nat, x: Vec)
    requires |x| < w.cols && AreRows(work, w.cols) && SameKernel(w.entries, work, w.cols)
    requires r < |work| && Dot(work[r], Relation(x, w.cols)) != 0.0
    ensures MulVec(Prefix(w, |x|), x) != Column(w, |x|)
  {
    hide Dot, Relation, MulVec, Prefix, Column;
    RelationMeans(w, x);
    assert !AllVanish(work, Relation(x, w.cols));
  }

  lemma PivotRowRefutes(row: Vec, x: Vec)
    requires |x| < |row| && row[|x|] != 0.0 && forall j :: 0 <= j < |x| ==> row[j] == 0.0
    ensures Dot(row, Relation(x, |row|)) != 0.0
  {
    RelationDot(row, x);
    DotVanishes(row[..|x|], x);
  }

  /** Reading column col off the pivots. */
  ghost predicate ReadsColumn(work: seq<Vec>, pivots: seq<nat>, col: nat, x: Vec)
    requires forall i :: 0 <= i < |work| ==> col < |work[i]|
    requires |pivots| <= |work| && forall k :: 0 <= k < |pivots| ==> pivots[k] < |x|
  {
    && (forall k :: 0 <= k < |pivots| ==> x[pivots[k]] == work[k][col])
    && (forall j :: 0 <= j < |x| && j !in pivots ==> x[j] == 0.0)
  }

  lemma ReadingVanishes(work: seq<Vec>, pivots: seq<nat>, col: nat, width: nat, x: Vec)
    requires col < width && Reduced(work, pivots, col, width) && |x| == col && ReadsColumn(work, pivots, col, x)
    requires forall r :: |pivots| <= r < |work| ==> work[r][col] == 0.0
    ensures AllVanish(work, Relation(x, width))
  {
    forall i | 0 <= i < |work| ensures Dot(work[i], Relation(x, width)) == 0.0 {
      RelationDot(work[i], x);
      if i < |pivots| {
        DotAt(work[i][..col], x, pivots[i]);
      } else {
        DotVanishes(work[i][..col], x);
      }
    }
  }

  ghost function Reading(work: seq<Vec>, pivots: seq<nat>, col: nat, width: nat): (x: Vec)
    requires col < width && Reduced(work, pivots, col, width)
    ensures |x| == col && ReadsColumn(work, pivots, col, x)
  {
    seq(col, j requires 0 <= j < col =>
      if j in pivots then (var k :| 0 <= k < |pivots| && pivots[k] == j; work[k][col]) else 0.0)
  }

  /** No entry below the pivots: a combination of the earlier columns. */
  lemma OldColumn(w: Matrix, work: seq<Vec>, pivots: seq<nat>, col: nat)
    requires col < w.cols && Reduced(work, pivots, col, w.cols) && SameKernel(w.entries, work, w.cols)
    requires forall r :: |pivots| <= r < |work| ==> work[r][col] == 0.0
    ensures Rank(Prefix(w, col + 1)) == Rank(Prefix(w, col))
  {
    PrefixOfPrefix(w, col + 1, col);
    var x := Reading(work, pivots, col, w.cols);
    ReadingVanishes(work, pivots, col, w.cols, x);
    RelationMeans(w, x);
  }

  // ---------- Pivot columns ----------

  /** The column is no combination of the earlier ones. */
  ghost predicate IsPivot(w: Matrix, j: nat)
    requires j < w.cols
  {
    Rank(Prefix(w, j + 1)) == Rank(Prefix(w, j)) + 1
  }

  lemma PivotMeans(w: Matrix, j: nat)
    requires j < w.cols
    ensures IsPivot(w, j) <==> !InSpan(Prefix(w, j), Column(w, j))
  {
    PrefixOfPrefix(w, j + 1, j);
  }

  lemma PivotOfPrefix(w: Matrix, c: nat, j: nat)
    requires j < c <= w.cols
    ensures IsPivot(Prefix(w, c), j) <==> IsPivot(w, j)
  {
    PrefixOfPrefix(w, c, j);
    PrefixOfPrefix(w, c, j + 1);
  }

  ghost predicate ArePivots(w: Matrix, pivots: seq<nat>, col: nat)
    requires col <= w.cols
  {
    forall j: nat :: j < col ==> (j in pivots <==> IsPivot(w, j))
  }

  lemma NextIsPivot(w: Matrix, pivots: seq<nat>, col: nat)
    requires col < w.cols && ArePivots(w, pivots, col) && Rank(Prefix(w, col + 1)) == Rank(Prefix(w, col)) + 1
    ensures ArePivots(w, pivots + [col], col + 1)
  {
  }

  lemma NextIsFree(w: Matrix, pivots: seq<nat>, col: nat)
    requires col < w.cols && ArePivots(w, pivots, col) && Rank(Prefix(w, col + 1)) == Rank(Prefix(w, col))
    requires forall k :: 0 <= k < |pivots| ==> pivots[k] < col
    ensures ArePivots(w, pivots, col + 1)
  {
  }

  // ---------- The elimination ----------

  method FindPivot(work: seq<Vec>, from: nat, col: nat) returns (pivot: Option<nat>)
    requires from <= |work| && forall i :: 0 <= i < |work| ==> col < |work[i]|
    ensures pivot.Some? ==> from <= pivot.value < |work| && work[pivot.value][col] != 0.0
    ensures pivot.Some? ==> forall i :: from <= i < pivot.value ==> work[i][col] == 0.0
    ensures pivot.None? ==> forall i :: from <= i < |work| ==> work[i][col] == 0.0
  {
    for row := from to |work|
      invariant forall i :: from <= i < row ==> work[i][col] == 0.0
    {
      if work[row][col] != 0.0 { return Some(row); }
    }
    return None;
  }

  lemma SubtractKeepsReduced(work: seq<Vec>, pivots: seq<nat>, col: nat, width: nat, row: nat, p: nat, f: real)
    requires Reduced(work, pivots, col, width) && |pivots| <= p < |work| && row < |work|
    ensures Reduced(work[row := Sub(work[row], Scale(f, work[p]))], pivots, col, width)
  {
  }

  /** Divides the pivot row by its pivot and clears the column in every other row. */
  method ClearColumn(rows: seq<Vec>, ghost pivots: seq<nat>, pivotRow: nat, col: nat, width: nat)
    returns (work: seq<Vec>)
    requires col < width && |pivots| == pivotRow < |rows|
    requires Reduced(rows, pivots, col, width) && rows[pivotRow][col] != 0.0
    ensures |work| == |rows| && Reduced(work, pivots + [col], col + 1, width)
    ensures SameKernel(rows, work, width)
  {
    var pivotValue := rows[pivotRow][col];
    DivideKeepsKernel(rows, pivotRow, pivotValue, width);
    work := rows[pivotRow := Divide(rows[pivotRow], pivotValue)];
    for row := 0 to |rows|
      invariant |work| == |rows| && Reduced(work, pivots, col, width)
      invariant work[pivotRow][col] == 1.0
      invariant forall i :: 0 <= i < row && i != pivotRow ==> work[i][col] == 0.0
      invariant SameKernel(rows, work, width)
    {
      if row != pivotRow && work[row][col] != 0.0 {
        var factor := work[row][col];
        SubtractKeepsKernel(work, row, pivotRow, factor, width);
        SubtractKeepsReduced(work, pivots, col, width, row, pivotRow, factor);
        work := work[row := Sub(work[row], Scale(factor, work[pivotRow]))];
      }
    }
  }

  /** Reduces the first `cols` columns of rows that are `width` wide. The pivots are the
      columns that are no combination of earlier ones; their number is the rank. */
  method Eliminate(w: Matrix, cols: nat) returns (work: seq<Vec>, pivots: seq<nat>)
    requires cols <= w.cols
    ensures |work| == w.rows && Reduced(work, pivots, cols, w.cols)
    ensures SameKernel(w.entries, work, w.cols)
    ensures |pivots| == Rank(Prefix(w, cols)) && ArePivots(w, pivots, cols)
  {
    hide Rank, Prefix, SameKernel, AllVanish, ArePivots;
    work, pivots := w.entries, [];
    var col := 0;
    NoColumnsNoRank(w);
    while col < cols
      invariant col <= cols && |work| == w.rows && Reduced(work, pivots, col, w.cols)
      invariant SameKernel(w.entries, work, w.cols)
      invariant |pivots| == Rank(Prefix(w, col)) && ArePivots(w, pivots, col)
    {
      var pivotRow := |pivots|;
      var pivot := FindPivot(work, pivotRow, col);
      if pivot.None? {
        OldColumn(w, work, pivots, col);
        NextIsFree(w, pivots, col);
        col := col + 1;
        continue;
      }
      NewPivotColumn(w, work, pivots, col, pivot.value);
      NextIsPivot(w, pivots, col);
      SwapKeepsKernel(work, pivotRow, pivot.value, w.cols);
      var swapped := work[pivotRow := work[pivot.value]][pivot.value := work[pivotRow]];
      SameKernelTransitive(w.entries, work, swapped, w.cols);
      work := ClearColumn(swapped, pivots, pivotRow, col, w.cols);
      SameKernelTransitive(w.entries, swapped, work, w.cols);
      pivots := pivots + [col];
      col := col + 1;
      if pivotRow + 1 == w.rows { break; }
    }
    RowsExhausted(w, work, pivots, col, cols);
  }

  lemma NoColumnsNoRank(w: Matrix)
    ensures Rank(Prefix(w, 0)) == 0 && ArePivots(w, [], 0) && SameKernel(w.entries, w.entries, w.cols)
  {
  }

  lemma SameKernelTransitive(a: seq<Vec>, b: seq<Vec>, c: seq<Vec>, n: nat)
    requires AreRows(a, n) && AreRows(b, n) && AreRows(c, n) && SameKernel(a, b, n) && SameKernel(b, c, n)
    ensures SameKernel(a, c, n)
  {
  }

  /** With a pivot in every row, the columns after an early stop are combinations. */
  lemma {:induction false} RowsExhausted(w: Matrix, work: seq<Vec>, pivots: seq<nat>, col: nat, cols: nat)
    requires col <= cols <= w.cols && |work| == w.rows && Reduced(work, pivots, col, w.cols)
    requires SameKernel(w.entries, work, w.cols) && |pivots| == Rank(Prefix(w, col)) && ArePivots(w, pivots, col)
    requires col == cols || |pivots| == w.rows
    ensures Reduced(work, pivots, cols, w.cols) && |pivots| == Rank(Prefix(w, cols)) && ArePivots(w, pivots, cols)
    decreases cols - col
  {
    hide ArePivots;
    if col < cols {
      OldColumn(w, work, pivots, col);
      NextIsFree(w, pivots, col);
      RowsExhausted(w, work, pivots, col + 1, cols);
    }
  }
}
