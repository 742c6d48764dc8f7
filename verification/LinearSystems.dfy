/**
 Rank, kernel basis and linear solver of necessity_map.py, each proved against what its
 name promises.
 */
module LinearSystems {
  import opened Matrices
  import opened Spans
  import opened Elimination

  method MatrixRank(m: Matrix) returns (r: nat)
    ensures r == Rank(m)
  {
    var work, pivots := Eliminate(m, m.cols);
    PrefixAll(m);
    return |pivots|;
  }

  // ---------- Kernel basis ----------

  /** Every kernel vector is a combination of the columns of k in exactly one way. */
  ghost predicate IsKernelBasis(k: Matrix, m: Matrix) {
    && k.rows == m.cols
    && (forall y {:trigger MulVec(k, y)} :: |y| == k.cols ==> InKernel(m, MulVec(k, y)))
    && (forall x {:trigger InKernel(m, x)} :: InKernel(m, x) ==> InSpan(k, x))
    && Independent(k)
  }

  /** The columns without a pivot, ascending. */
  ghost predicate IsFreeOrder(m: Matrix, free: seq<nat>) {
    && (forall i, j :: 0 <= i < j < |free| ==> free[i] < free[j])
    && (forall j :: j in free ==> j < m.cols)
    && forall j: nat :: j < m.cols ==> (j in free <==> !IsPivot(m, j))
  }

  /** Basis vector j is one at free column j and zero at the other free columns. */
  ghost predicate PicksFree(k: Matrix, m: Matrix, free: seq<nat>) {
    && IsFreeOrder(m, free) && |free| == k.cols && k.rows == m.cols
    && forall i, j :: 0 <= i < |free| && 0 <= j < k.cols ==> free[i] in free && k.entries[free[i]][j] == if i == j then 1.0 else 0.0
  }

  /** One at the free column, minus the reduced column at the pivots, zero elsewhere. */
  ghost predicate IsFreeVector(work: seq<Vec>, pivots: seq<nat>, free: nat, v: Vec)
    requires AreRows(work, |v|) && |pivots| <= |work| && free < |v|
    requires forall k :: 0 <= k < |pivots| ==> pivots[k] < |v|
  {
    && v[free] == 1.0
    && (forall k :: 0 <= k < |pivots| ==> v[pivots[k]] == -work[k][free])
    && (forall j :: 0 <= j < |v| && j != free && j !in pivots ==> v[j] == 0.0)
  }

  method FreeVector(work: seq<Vec>, pivots: seq<nat>, free: nat, cols: nat) returns (v: Vec)
    requires Reduced(work, pivots, cols, cols) && free < cols && free !in pivots
    ensures |v| == cols && IsFreeVector(work, pivots, free, v)
  {
    v := Zeros(cols)[free := 1.0];
    for row := 0 to |pivots|
      invariant |v| == cols && v[free] == 1.0
      invariant forall k :: 0 <= k < row ==> v[pivots[k]] == -work[k][free]
      invariant forall j :: 0 <= j < cols && j != free && j !in pivots ==> v[j] == 0.0
    {
      v := v[pivots[row] := -work[row][free]];
    }
  }

  lemma FreeVectorVanishes(work: seq<Vec>, pivots: seq<nat>, free: nat, v: Vec)
    requires Reduced(work, pivots, |v|, |v|) && free < |v| && free !in pivots && IsFreeVector(work, pivots, free, v)
    ensures AllVanish(work, v)
  {
    forall i | 0 <= i < |work| ensures Dot(work[i], v) == 0.0 {
      if i < |pivots| {
        var p := pivots[i];
        if p < free { DotAtTwo(work[i], v, p, free); } else { DotAtTwo(work[i], v, free, p); }
      } else {
        DotVanishes(work[i], v);
      }
    }
  }

  /** The columns without a pivot, in order. */
  method FreeColumns(pivots: seq<nat>, cols: nat) returns (free: seq<nat>)
    requires forall k :: 0 <= k < |pivots| ==> pivots[k] < cols
    requires forall k, l :: 0 <= k < l < |pivots| ==> pivots[k] < pivots[l]
    ensures forall j :: j in free <==> 0 <= j < cols && j !in pivots
    ensures forall i, j :: 0 <= i < j < |free| ==> free[i] < free[j]
    ensures |free| + |pivots| == cols
  {
    free := [];
    ghost var passed := 0;
    assert forall k :: 0 <= k < |pivots| ==> 0 <= pivots[k];
    for col := 0 to cols
      invariant forall j :: j in free <==> 0 <= j < col && j !in pivots
      invariant forall i :: 0 <= i < |free| ==> free[i] < col
      invariant forall i, j :: 0 <= i < j < |free| ==> free[i] < free[j]
      invariant passed <= |pivots| && |free| + passed == col
      invariant forall k :: 0 <= k < |pivots| ==> (pivots[k] < col <==> k < passed)
    {
      if col !in pivots {
        free := free + [col];
      } else {
        assert pivots[passed] == col;
        passed := passed + 1;
      }
    }
  }

  lemma AllVanishIsKernel(m: Matrix, x: Vec)
    requires |x| == m.cols
    ensures AllVanish(m.entries, x) <==> InKernel(m, x)
  {
    if AllVanish(m.entries, x) {
      forall i | 0 <= i < m.rows ensures MulVec(m, x)[i] == 0.0 {}
    } else {
      var i :| 0 <= i < m.rows && Dot(m.entries[i], x) != 0.0;
      assert MulVec(m, x)[i] != Zeros(m.rows)[i];
    }
  }

  /** The free vectors, as columns. */
  ghost predicate AreFreeVectors(k: Matrix, work: seq<Vec>, pivots: seq<nat>, free: seq<nat>) {
    && Reduced(work, pivots, k.rows, k.rows) && |free| == k.cols
    && (forall j :: j in free <==> 0 <= j < k.rows && j !in pivots)
    && (forall i, j :: 0 <= i < j < |free| ==> free[i] != free[j])
    && (forall j :: 0 <= j < |free| ==> free[j] < k.rows && IsFreeVector(work, pivots, free[j], Column(k, j)))
  }

  lemma FreeVectorsInKernel(k: Matrix, m: Matrix, work: seq<Vec>, pivots: seq<nat>, free: seq<nat>, y: Vec)
    requires k.rows == m.cols && AreFreeVectors(k, work, pivots, free) && SameKernel(m.entries, work, m.cols)
    requires |y| == k.cols
    ensures InKernel(m, MulVec(k, y))
  {
    var product := MatMul(m, k);
    forall i, j | 0 <= i < product.rows && 0 <= j < product.cols ensures product.entries[i][j] == 0.0 {
      assert free[j] in free;
      FreeVectorVanishes(work, pivots, free[j], Column(k, j));
      assert AllVanish(m.entries, Column(k, j));
    }
    MulAssociates(m, k, y);
    ZeroMatrixMeans(product);
  }

  /** Row free[i] of the basis picks coordinate i. */
  lemma FreeRowPicks(k: Matrix, work: seq<Vec>, pivots: seq<nat>, free: seq<nat>, i: nat, y: Vec)
    requires AreFreeVectors(k, work, pivots, free) && i < |free| && |y| == k.cols
    ensures free[i] < k.rows && MulVec(k, y)[free[i]] == y[i]
  {
    assert free[i] in free;
    forall j | 0 <= j < |free| ensures k.entries[free[i]][j] == if j == i then 1.0 else 0.0 {
      assert Column(k, j)[free[i]] == k.entries[free[i]][j];
      assert free[j] in free;
    }
    DotAt(k.entries[free[i]], y, i);
  }

  /** A kernel vector vanishing off the pivots is zero. */
  lemma PivotsForced(work: seq<Vec>, pivots: seq<nat>, x: Vec)
    requires Reduced(work, pivots, |x|, |x|) && AllVanish(work, x)
    requires forall j :: 0 <= j < |x| && j !in pivots ==> x[j] == 0.0
    ensures x == Zeros(|x|)
  {
    forall j | 0 <= j < |x| ensures x[j] == 0.0 {
      if j in pivots {
        var k :| 0 <= k < |pivots| && pivots[k] == j;
        DotAt(work[k], x, j);
        assert Dot(work[k], x) == 0.0;
      }
    }
  }

  lemma FreeVectorsSpan(k: Matrix, m: Matrix, work: seq<Vec>, pivots: seq<nat>, free: seq<nat>, x: Vec)
    requires k.rows == m.cols && AreFreeVectors(k, work, pivots, free) && SameKernel(m.entries, work, m.cols)
    requires InKernel(m, x)
    ensures InSpan(k, x)
  {
    var y := seq(|free|, i requires 0 <= i < |free| => assert free[i] in free; x[free[i]]);
    var rest := Sub(x, MulVec(k, y));
    FreeVectorsInKernel(k, m, work, pivots, free, y);
    MulVecSub(m, x, MulVec(k, y));
    assert InKernel(m, rest);
    AllVanishIsKernel(m, rest);
    forall j | 0 <= j < |rest| && j !in pivots ensures rest[j] == 0.0 {
      assert j in free;
      var i :| 0 <= i < |free| && free[i] == j;
      FreeRowPicks(k, work, pivots, free, i, y);
    }
    PivotsForced(work, pivots, rest);
    assert MulVec(k, y) == x by {
      forall j | 0 <= j < |x| ensures MulVec(k, y)[j] == x[j] { assert rest[j] == 0.0; }
    }
  }

  lemma FreeVectorsAreBasis(k: Matrix, m: Matrix, work: seq<Vec>, pivots: seq<nat>, free: seq<nat>)
    requires k.rows == m.cols && AreFreeVectors(k, work, pivots, free) && SameKernel(m.entries, work, m.cols)
    ensures IsKernelBasis(k, m)
  {
    hide AreFreeVectors, SameKernel, InSpan;
    forall y | |y| == k.cols ensures InKernel(m, MulVec(k, y)) {
      FreeVectorsInKernel(k, m, work, pivots, free, y);
    }
    forall x | InKernel(m, x) ensures InSpan(k, x) {
      FreeVectorsSpan(k, m, work, pivots, free, x);
    }
    forall y | InKernel(k, y) ensures y == Zeros(k.cols) {
      FreeVectorsIndependent(k, work, pivots, free, y);
    }
  }

  lemma FreeVectorsIndependent(k: Matrix, work: seq<Vec>, pivots: seq<nat>, free: seq<nat>, y: Vec)
    requires AreFreeVectors(k, work, pivots, free) && InKernel(k, y)
    ensures y == Zeros(k.cols)
  {
    forall i | 0 <= i < |free| ensures y[i] == 0.0 {
      FreeRowPicks(k, work, pivots, free, i, y);
      assert MulVec(k, y)[free[i]] == Zeros(k.rows)[free[i]];
    }
  }

  lemma FreeVectorsPick(k: Matrix, m: Matrix, work: seq<Vec>, pivots: seq<nat>, free: seq<nat>)
    requires k.rows == m.cols && AreFreeVectors(k, work, pivots, free) && ArePivots(m, pivots, m.cols)
    requires forall i, j :: 0 <= i < j < |free| ==> free[i] < free[j]
    ensures PicksFree(k, m, free)
  {
    forall j | j in free ensures j < m.cols { assert 0 <= j < k.rows; }
    forall i, j | 0 <= i < |free| && 0 <= j < k.cols
      ensures free[i] in free && k.entries[free[i]][j] == if i == j then 1.0 else 0.0
    {
      assert free[i] in free && free[j] in free;
      assert Column(k, j)[free[i]] == k.entries[free[i]][j];
    }
  }

  /** A basis of the kernel, the one that picks the free columns in order; with the rank it
      makes up the column count. */
  method KernelBasis(m: Matrix) returns (k: Matrix)
    ensures IsKernelBasis(k, m)
    ensures exists free :: PicksFree(k, m, free)
    ensures k.cols + Rank(m) == m.cols
  {
    var work, pivots := Eliminate(m, m.cols);
    PrefixAll(m);
    var free := FreeColumns(pivots, m.cols);
    var vectors: seq<Vec> := [];
    for i := 0 to |free|
      invariant |vectors| == i
      invariant forall j :: 0 <= j < i ==>
        |vectors[j]| == m.cols && free[j] < m.cols && IsFreeVector(work, pivots, free[j], vectors[j])
    {
      assert free[i] in free;
      var v := FreeVector(work, pivots, free[i], m.cols);
      vectors := vectors + [v];
    }
    k := FromColumns(vectors, m.cols);
    FreeVectorsAreBasis(k, m, work, pivots, free);
    FreeVectorsPick(k, m, work, pivots, free);
  }

  // ---------- Solving ----------

  datatype SolveError = WrongDimension | Inconsistent

  datatype SolveResult = Solved(solution: Vec) | Failed(error: SolveError)

  method HasInconsistentRow(work: seq<Vec>, cols: nat) returns (found: bool)
    requires AreRows(work, cols + 1)
    ensures found <==> exists i :: 0 <= i < |work| && IsInconsistentRow(work[i], cols)
  {
    for row := 0 to |work|
      invariant forall i :: 0 <= i < row ==> !IsInconsistentRow(work[i], cols)
    {
      if IsInconsistentRow(work[row], cols) { return true; }
    }
    return false;
  }

  predicate IsInconsistentRow(row: Vec, cols: nat)
    requires |row| == cols + 1
  {
    row[cols] != 0.0 && forall j :: 0 <= j < cols ==> row[j] == 0.0
  }

  /** Zero at every column without a pivot. */
  ghost predicate VanishesOffPivots(m: Matrix, x: Vec)
    requires |x| == m.cols
  {
    forall j: nat :: j < m.cols && !IsPivot(m, j) ==> x[j] == 0.0
  }

  lemma PivotsOfAppend(m: Matrix, rhs: Vec, pivots: seq<nat>)
    requires |rhs| == m.rows && ArePivots(Hstack(m, ColumnMatrix(rhs)), pivots, m.cols)
    ensures ArePivots(m, pivots, m.cols)
  {
    var w := Hstack(m, ColumnMatrix(rhs));
    LastOfAppend(m, rhs);
    forall j: nat | j < m.cols ensures IsPivot(w, j) <==> IsPivot(m, j) { PivotOfPrefix(w, m.cols, j); }
  }

  /** A true solution, zero off the pivots, or the error: a right side of the wrong length, or none existing. */
  method SolveLinearSystem(m: Matrix, rhs: Vec) returns (r: SolveResult)
    ensures r == Failed(WrongDimension) <==> |rhs| != m.rows
    ensures r.Solved? <==> |rhs| == m.rows && InSpan(m, rhs)
    ensures r.Solved? ==> |r.solution| == m.cols && MulVec(m, r.solution) == rhs && VanishesOffPivots(m, r.solution)
    ensures r == Failed(Inconsistent) <==> |rhs| == m.rows && !InSpan(m, rhs)
  {
    if |rhs| != m.rows { return Failed(WrongDimension); }
    var w := Hstack(m, ColumnMatrix(rhs));
    var work, pivots := Eliminate(w, m.cols);
    LastOfAppend(m, rhs);
    var inconsistent := HasInconsistentRow(work, m.cols);
    if inconsistent {
      InconsistentRefutes(m, rhs, work, pivots);
      return Failed(Inconsistent);
    }
    var solution := Zeros(m.cols);
    for row := 0 to |pivots|
      invariant |solution| == m.cols
      invariant forall k :: 0 <= k < row ==> solution[pivots[k]] == work[k][m.cols]
      invariant forall j :: 0 <= j < m.cols && j !in pivots ==> solution[j] == 0.0
    {
      solution := solution[pivots[row] := work[row][m.cols]];
    }
    ConsistentSolves(m, rhs, work, pivots, solution);
    PivotsOfAppend(m, rhs, pivots);
    return Solved(solution);
  }

  lemma InconsistentRefutes(m: Matrix, rhs: Vec, work: seq<Vec>, pivots: seq<nat>)
    requires |rhs| == m.rows
    requires Reduced(work, pivots, m.cols, m.cols + 1)
    requires SameKernel(Hstack(m, ColumnMatrix(rhs)).entries, work, m.cols + 1)
    requires exists i :: 0 <= i < |work| && IsInconsistentRow(work[i], m.cols)
    ensures !InSpan(m, rhs)
  {
    var w := Hstack(m, ColumnMatrix(rhs));
    var i :| 0 <= i < |work| && IsInconsistentRow(work[i], m.cols);
    assert forall k :: 0 <= k < |pivots| ==> work[k][pivots[k]] == 1.0;
    NewPivotColumn(w, work, pivots, m.cols, i);
    LastOfAppend(m, rhs);
    PrefixAll(w);
    RankAppend(m, rhs);
  }

  lemma ConsistentSolves(m: Matrix, rhs: Vec, work: seq<Vec>, pivots: seq<nat>, x: Vec)
    requires |rhs| == m.rows && |x| == m.cols
    requires Reduced(work, pivots, m.cols, m.cols + 1)
    requires SameKernel(Hstack(m, ColumnMatrix(rhs)).entries, work, m.cols + 1)
    requires forall i :: 0 <= i < |work| ==> !IsInconsistentRow(work[i], m.cols)
    requires ReadsColumn(work, pivots, m.cols, x)
    ensures MulVec(m, x) == rhs
  {
    var w := Hstack(m, ColumnMatrix(rhs));
    ReadingVanishes(work, pivots, m.cols, m.cols + 1, x);
    assert AllVanish(w.entries, Relation(x, w.cols));
    RelationMeans(w, x);
    LastOfAppend(m, rhs);
  }
}
