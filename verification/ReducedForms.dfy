/**
 Why the elimination leaves no choice: the kernel basis and the solution that
 necessity_map.py returns are the only ones of their shape.
 */
module ReducedForms {
  import opened Matrices
  import opened Spans
  import opened Elimination
  import opened LinearSystems
  import opened Quotients

  /** A kernel vector that is zero off the pivots is zero. */
  lemma {:induction false} VanishingKernelIsZero(m: Matrix, z: Vec)
    requires InKernel(m, z) && VanishesOffPivots(m, z)
    ensures z == Zeros(m.cols)
    decreases m.cols
  {
    if m.cols > 0 {
      var c := m.cols - 1;
      PivotMeans(m, c);
      if IsPivot(m, c) { NewColumnUnused(m, z); }
      KernelWithLastZero(m, z);
      forall j: nat | j < c ensures IsPivot(Prefix(m, c), j) <==> IsPivot(m, j) { PivotOfPrefix(m, c, j); }
      VanishingKernelIsZero(Prefix(m, c), z[..c]);
      assert z == z[..c] + [z[c]];
    }
  }

  /** At most one solution is zero off the pivots. */
  lemma SolutionIsDetermined(m: Matrix, x: Vec, y: Vec)
    requires |x| == |y| == m.cols && MulVec(m, x) == MulVec(m, y)
    requires VanishesOffPivots(m, x) && VanishesOffPivots(m, y)
    ensures x == y
  {
    var d := Sub(x, y);
    MulVecSub(m, x, y);
    assert Sub(MulVec(m, x), MulVec(m, y)) == Zeros(m.rows);
    VanishingKernelIsZero(m, d);
    forall j | 0 <= j < m.cols ensures x[j] == y[j] { assert d[j] == 0.0; }
  }

  lemma {:induction false} AscendingIsDetermined(a: seq<nat>, b: seq<nat>)
    requires forall i, j :: 0 <= i < j < |a| ==> a[i] < a[j]
    requires forall i, j :: 0 <= i < j < |b| ==> b[i] < b[j]
    requires forall x :: x in a <==> x in b
    ensures a == b
  {
    assert b != [] ==> b[0] in b;
    if a != [] {
      assert a[0] in b && |b| > 0 && b[0] in a;
      assert a[0] == b[0];
      forall x ensures x in a[1..] <==> x in b[1..] {
        assert x in a[1..] <==> x in a && x != a[0];
        assert x in b[1..] <==> x in b && x != b[0];
      }
      AscendingIsDetermined(a[1..], b[1..]);
    }
  }

  /** The basis picking the free columns in order is unique. */
  lemma KernelBasisIsDetermined(m: Matrix, k: Matrix, l: Matrix, free: seq<nat>, other: seq<nat>)
    requires IsKernelBasis(k, m) && IsKernelBasis(l, m) && PicksFree(k, m, free) && PicksFree(l, m, other)
    ensures k == l
  {
    AscendingIsDetermined(free, other);
    forall j | 0 <= j < k.cols ensures Column(k, j) == Column(l, j) {
      var d := Sub(Column(k, j), Column(l, j));
      SpanColumn(k, j);
      SpanColumn(l, j);
      var x, y := Column(k, j), Column(l, j);
      SpanIsKernelVector(k, m, x);
      SpanIsKernelVector(l, m, y);
      MulVecSub(m, x, y);
      assert InKernel(m, d) by { assert Sub(Zeros(m.rows), Zeros(m.rows)) == Zeros(m.rows); }
      PickedColumnsDiffer(m, k, l, free, j);
      VanishingKernelIsZero(m, d);
      forall i | 0 <= i < m.cols ensures x[i] == y[i] { assert d[i] == 0.0; }
    }
    EqualByColumns(k, l);
  }

  lemma SpanIsKernelVector(k: Matrix, m: Matrix, x: Vec)
    requires IsKernelBasis(k, m) && InSpan(k, x)
    ensures InKernel(m, x)
  {
    var y :| |y| == k.cols && MulVec(k, y) == x;
  }

  lemma PickedColumnsDiffer(m: Matrix, k: Matrix, l: Matrix, free: seq<nat>, j: nat)
    requires PicksFree(k, m, free) && PicksFree(l, m, free) && j < k.cols
    ensures VanishesOffPivots(m, Sub(Column(k, j), Column(l, j)))
  {
    forall i: nat | i < m.cols && !IsPivot(m, i) ensures Sub(Column(k, j), Column(l, j))[i] == 0.0 {
      assert i in free;
      var p :| 0 <= p < |free| && free[p] == i;
      assert k.entries[free[p]][j] == l.entries[free[p]][j];
    }
  }
}
