/**
 The in-place Gauss-Jordan solver over the two-element field of
 tools/archsig/src/saga.rs. A byte known to be 0 or 1 is a `bool`; `^=` is `!=`.
 */
module F2Solver {
  import opened Options

  type Bits = seq<bool>

  // ---------- What an equation over F2 means ----------

  function Dot(a: Bits, x: Bits): bool
    requires |a| == |x|
  {
    if |a| == 0 then false else (a[0] && x[0]) != Dot(a[1..], x[1..])
  }

  /** An equation row is its coefficients followed by the right-hand side. */
  predicate Holds(row: Bits, x: Bits)
    requires |row| == |x| + 1
  {
    Dot(row[..|x|], x) == row[|x|]
  }

  predicate Rectangular(rows: seq<Bits>, width: nat) {
    forall i :: 0 <= i < |rows| ==> |rows[i]| == width
  }

  ghost predicate AllHold(rows: seq<Bits>, x: Bits)
    requires Rectangular(rows, |x| + 1)
  {
    forall i :: 0 <= i < |rows| ==> Holds(rows[i], x)
  }

  ghost predicate SameSolutions(rows: seq<Bits>, rows': seq<Bits>, n: nat)
    requires Rectangular(rows, n + 1) && Rectangular(rows', n + 1)
  {
    forall x: Bits :: |x| == n ==> (AllHold(rows, x) <==> AllHold(rows', x))
  }

  function XorRow(a: Bits, b: Bits): (c: Bits)
    requires |a| == |b|
    ensures |c| == |a|
  {
    seq(|a|, i requires 0 <= i < |a| => a[i] != b[i])
  }

  // ---------- Inner products ----------

  lemma {:induction false} DotXor(a: Bits, b: Bits, x: Bits)
    requires |a| == |b| == |x|
    ensures Dot(XorRow(a, b), x) == (Dot(a, x) != Dot(b, x))
  {
    if |a| > 0 {
      assert XorRow(a, b)[1..] == XorRow(a[1..], b[1..]);
      DotXor(a[1..], b[1..], x[1..]);
    }
  }

  lemma HoldsXor(a: Bits, b: Bits, x: Bits)
    requires |a| == |b| == |x| + 1
    ensures Holds(XorRow(a, b), x) == (Holds(a, x) == Holds(b, x))
  {
    var n := |x|;
    assert XorRow(a, b)[..n] == XorRow(a[..n], b[..n]);
    DotXor(a[..n], b[..n], x);
  }

  lemma {:induction false} DotZero(a: Bits, x: Bits)
    requires |a| == |x|
    requires forall i :: 0 <= i < |a| ==> !(a[i] && x[i])
    ensures !Dot(a, x)
  {
    if |a| > 0 {
      DotZero(a[1..], x[1..]);
    }
  }

  /** When the products vanish off position p, the inner product is the product at p. */
  lemma {:induction false} DotSingle(a: Bits, x: Bits, p: nat)
    requires |a| == |x| && p < |a|
    requires forall i :: 0 <= i < |a| && i != p ==> !(a[i] && x[i])
    ensures Dot(a, x) == (a[p] && x[p])
  {
    if p == 0 {
      DotZero(a[1..], x[1..]);
    } else {
      DotSingle(a[1..], x[1..], p - 1);
    }
  }

  // ---------- The elimination ----------

  /** Row k has its pivot in column pivots[k]; that column is zero elsewhere, row k is zero
      left of it, and the rows without a pivot are zero left of `column`. */
  ghost predicate Echelon(rows: seq<Bits>, pivots: seq<nat>, column: nat, n: nat) {
    && Rectangular(rows, n + 1)
    && |pivots| <= |rows| && column <= n
    && (forall k :: 0 <= k < |pivots| ==> pivots[k] < column)
    && (forall k, l :: 0 <= k < l < |pivots| ==> pivots[k] < pivots[l])
    && (forall k, i :: 0 <= k < |pivots| && 0 <= i < |rows| ==> rows[i][pivots[k]] == (i == k))
    && (forall k, j :: 0 <= k < |pivots| && 0 <= j < pivots[k] ==> !rows[k][j])
    && (forall i, j :: |pivots| <= i < |rows| && 0 <= j < column ==> !rows[i][j])
  }

  lemma XorKeepsSolutions(rows: seq<Bits>, row: nat, pivotRow: nat, n: nat)
    requires Rectangular(rows, n + 1)
    requires row < |rows| && pivotRow < |rows| && row != pivotRow
    ensures SameSolutions(rows, rows[row := XorRow(rows[row], rows[pivotRow])], n)
  {
    var rows' := rows[row := XorRow(rows[row], rows[pivotRow])];
    forall x: Bits | |x| == n
      ensures AllHold(rows, x) <==> AllHold(rows', x)
    {
      HoldsXor(rows[row], rows[pivotRow], x);
      assert rows'[pivotRow] == rows[pivotRow];
      if AllHold(rows', x) {
        forall i | 0 <= i < |rows| ensures Holds(rows[i], x) {
          assert Holds(rows'[i], x);
          assert Holds(rows'[pivotRow], x);
        }
      }
    }
  }

  lemma SwapKeepsSolutions(rows: seq<Bits>, a: nat, b: nat, n: nat)
    requires Rectangular(rows, n + 1) && a < |rows| && b < |rows|
    ensures SameSolutions(rows, rows[a := rows[b]][b := rows[a]], n)
  {
    var rows' := rows[a := rows[b]][b := rows[a]];
    forall x: Bits | |x| == n && AllHold(rows', x)
      ensures AllHold(rows, x)
    {
      forall i | 0 <= i < |rows| ensures Holds(rows[i], x) {
        assert Holds(rows'[if i == a then b else if i == b then a else i], x);
      }
    }
  }

  /** XORs the pivot row into `row` from the pivot column rightward; because the pivot
      row is zero further left, this is the whole-row XOR. */
  method XorFromColumn(rows: seq<Bits>, row: nat, pivotRow: nat, column: nat, n: nat)
    returns (rows': seq<Bits>)
    requires Rectangular(rows, n + 1) && column <= n
    requires row < |rows| && pivotRow < |rows| && row != pivotRow
    requires forall j :: 0 <= j < column ==> !rows[pivotRow][j]
    ensures rows' == rows[row := XorRow(rows[row], rows[pivotRow])]
  {
    rows' := rows;
    for col := column to n + 1
      invariant |rows'| == |rows| && Rectangular(rows', n + 1)
      invariant forall i :: 0 <= i < |rows| && i != row ==> rows'[i] == rows[i]
      invariant forall j :: 0 <= j <= n ==>
        rows'[row][j] == if j < col then rows[row][j] != rows[pivotRow][j] else rows[row][j]
    {
      rows' := rows'[row := rows'[row][col := rows'[row][col] != rows'[pivotRow][col]]];
    }
    assert rows'[row] == XorRow(rows[row], rows[pivotRow]);
  }

  /** Adding the pivot row touches no earlier pivot column. */
  lemma XorKeepsEchelon(rows: seq<Bits>, pivots: seq<nat>, row: nat, pivotRow: nat, column: nat, n: nat)
    requires Echelon(rows, pivots, column, n) && |pivots| == pivotRow < |rows| && row < |rows| && row != pivotRow
    ensures Echelon(rows[row := XorRow(rows[row], rows[pivotRow])], pivots, column, n)
  {
  }

  lemma ClearedIsEchelon(rows: seq<Bits>, pivots: seq<nat>, column: nat, n: nat)
    requires Echelon(rows, pivots, column, n) && |pivots| < |rows| && column < n && rows[|pivots|][column]
    requires forall i :: 0 <= i < |rows| && i != |pivots| ==> !rows[i][column]
    ensures Echelon(rows, pivots + [column], column + 1, n)
  {
  }

  lemma EchelonIsRectangular(rows: seq<Bits>, pivots: seq<nat>, column: nat, n: nat)
    requires Echelon(rows, pivots, column, n)
    ensures Rectangular(rows, n + 1) && |pivots| <= |rows| && column <= n
    ensures |pivots| < |rows| ==> forall j :: 0 <= j < column ==> !rows[|pivots|][j]
  {
  }

  lemma SolutionsTransitive(a: seq<Bits>, b: seq<Bits>, c: seq<Bits>, n: nat)
    requires Rectangular(a, n + 1) && Rectangular(b, n + 1) && Rectangular(c, n + 1)
    requires SameSolutions(a, b, n) && SameSolutions(b, c, n)
    ensures SameSolutions(a, c, n)
  {
  }

  /** Clears `column` in every row but the pivot row. */
  method ClearColumn(rows: seq<Bits>, ghost pivots: seq<nat>, pivotRow: nat, column: nat, n: nat)
    returns (rows': seq<Bits>)
    requires column < n && |pivots| == pivotRow < |rows|
    requires Echelon(rows, pivots, column, n) && rows[pivotRow][column]
    ensures Echelon(rows', pivots + [column], column + 1, n)
    ensures |rows'| == |rows| && SameSolutions(rows, rows', n)
  {
    EchelonIsRectangular(rows, pivots, column, n);
    hide Echelon, AllHold;
    rows' := rows;
    for row := 0 to |rows|
      invariant |rows'| == |rows| && Echelon(rows', pivots, column, n) && Rectangular(rows', n + 1)
      invariant rows'[pivotRow] == rows[pivotRow]
      invariant forall i :: 0 <= i < row && i != pivotRow ==> !rows'[i][column]
      invariant SameSolutions(rows, rows', n)
    {
      if row != pivotRow && rows'[row][column] {
        EchelonIsRectangular(rows', pivots, column, n);
        XorKeepsSolutions(rows', row, pivotRow, n);
        XorKeepsEchelon(rows', pivots, row, pivotRow, column, n);
        ghost var before := rows';
        rows' := XorFromColumn(rows', row, pivotRow, column, n);
        SolutionsTransitive(rows, before, rows', n);
      }
    }
    ClearedIsEchelon(rows', pivots, column, n);
  }

  /** The first row from `from` on with a one in `column`. */
  method FindPivot(rows: seq<Bits>, from: nat, column: nat) returns (pivot: Option<nat>)
    requires from <= |rows| && forall i :: 0 <= i < |rows| ==> column < |rows[i]|
    ensures pivot.Some? ==> from <= pivot.value < |rows| && rows[pivot.value][column]
    ensures pivot.Some? ==> forall i :: from <= i < pivot.value ==> !rows[i][column]
    ensures pivot.None? ==> forall i :: from <= i < |rows| ==> !rows[i][column]
  {
    for row := from to |rows|
      invariant forall i :: from <= i < row ==> !rows[i][column]
    {
      if rows[row][column] { return Some(row); }
    }
    return None;
  }

  method Eliminate(input: seq<Bits>, n: nat) returns (rows: seq<Bits>, pivots: seq<nat>)
    requires Rectangular(input, n + 1)
    ensures |rows| == |input| && Echelon(rows, pivots, n, n)
    ensures SameSolutions(input, rows, n)
  {
    rows, pivots := input, [];
    for column := 0 to n
      invariant |rows| == |input| && Echelon(rows, pivots, column, n)
      invariant SameSolutions(input, rows, n)
    {
      var pivotRow := |pivots|;
      var pivot := FindPivot(rows, pivotRow, column);
      if pivot.Some? {
        SwapKeepsSolutions(rows, pivotRow, pivot.value, n);
        rows := rows[pivotRow := rows[pivot.value]][pivot.value := rows[pivotRow]];
        rows := ClearColumn(rows, pivots, pivotRow, column, n);
        pivots := pivots + [column];
      }
    }
  }

  predicate Inconsistent(row: Bits, n: nat)
    requires |row| == n + 1
  {
    row[n] && forall j :: 0 <= j < n ==> !row[j]
  }

  lemma InconsistentRefutes(rows: seq<Bits>, i: nat, x: Bits)
    requires Rectangular(rows, |x| + 1) && i < |rows| && Inconsistent(rows[i], |x|)
    ensures !AllHold(rows, x)
  {
    DotZero(rows[i][..|x|], x);
    assert !Holds(rows[i], x);
  }

  /** Reading the pivots off an echelon form without an inconsistent row solves it. */
  lemma PivotsSolve(rows: seq<Bits>, pivots: seq<nat>, x: Bits)
    requires Echelon(rows, pivots, |x|, |x|)
    requires forall i :: 0 <= i < |rows| ==> !Inconsistent(rows[i], |x|)
    requires forall k :: 0 <= k < |pivots| ==> x[pivots[k]] == rows[k][|x|]
    requires forall j :: 0 <= j < |x| && x[j] ==> j in pivots
    ensures AllHold(rows, x)
  {
    forall i | 0 <= i < |rows| ensures Holds(rows[i], x) {
      var a := rows[i][..|x|];
      if i < |pivots| {
        DotSingle(a, x, pivots[i]);
      } else {
        DotZero(a, x);
      }
    }
  }

  // ---------- Which solution ----------

  /** Comparing the last unknown first, x is the smaller. */
  predicate Below(x: Bits, y: Bits) {
    |x| == |y| && exists j :: 0 <= j < |x| && !x[j] && y[j] && forall k :: j < k < |x| ==> x[k] == y[k]
  }

  lemma {:induction false} LastDifference(x: Bits, y: Bits) returns (j: nat)
    requires |x| == |y| && x != y
    ensures j < |x| && x[j] != y[j] && forall k :: j < k < |x| ==> x[k] == y[k]
  {
    var n := |x| - 1;
    if x[n] != y[n] {
      j := n;
    } else {
      assert x == x[..n] + [x[n]] && y == y[..n] + [y[n]];
      j := LastDifference(x[..n], y[..n]);
      assert forall k :: j < k < n ==> x[..n][k] == y[..n][k];
    }
  }

  lemma {:induction false} DotDiffers(a: Bits, x: Bits, y: Bits, p: nat)
    requires |a| == |x| == |y| && p < |a|
    requires forall i :: 0 <= i < |a| && i != p && a[i] ==> x[i] == y[i]
    ensures (Dot(a, x) != Dot(a, y)) == (a[p] && x[p] != y[p])
  {
    if p == 0 {
      DotSame(a[1..], x[1..], y[1..]);
    } else {
      DotDiffers(a[1..], x[1..], y[1..], p - 1);
    }
  }

  lemma {:induction false} DotSame(a: Bits, x: Bits, y: Bits)
    requires |a| == |x| == |y| && forall i :: 0 <= i < |a| && a[i] ==> x[i] == y[i]
    ensures Dot(a, x) == Dot(a, y)
  {
    if |a| > 0 { DotSame(a[1..], x[1..], y[1..]); }
  }

  /** Zero off the pivots, the solution read off is below every other one. */
  lemma PivotSolutionIsLeast(rows: seq<Bits>, pivots: seq<nat>, x: Bits, y: Bits)
    requires Echelon(rows, pivots, |x|, |x|) && |y| == |x| && x != y
    requires AllHold(rows, x) && AllHold(rows, y)
    requires forall j :: 0 <= j < |x| && x[j] ==> j in pivots
    ensures Below(x, y)
  {
    var j := LastDifference(x, y);
    if j in pivots {
      var k :| 0 <= k < |pivots| && pivots[k] == j;
      DotDiffers(rows[k][..|x|], x, y, j);
      assert Holds(rows[k], x) && Holds(rows[k], y);
    }
  }

  /** Returns an assignment satisfying every original equation, the least one comparing the
      last unknown first, or None exactly when there is none. */
  method SolveF2(input: seq<Bits>, n: nat) returns (solution: Option<Bits>)
    requires Rectangular(input, n + 1)
    ensures solution.Some? ==> |solution.value| == n && AllHold(input, solution.value)
    ensures solution.Some? ==> forall y: Bits {:trigger AllHold(input, y)} ::
      |y| == n && AllHold(input, y) && y != solution.value ==> Below(solution.value, y)
    ensures solution.None? ==> forall x: Bits :: |x| == n ==> !AllHold(input, x)
  {
    var rows, pivots := Eliminate(input, n);
    for i := 0 to |rows|
      invariant forall k :: 0 <= k < i ==> !Inconsistent(rows[k], n)
    {
      if Inconsistent(rows[i], n) {
        forall x: Bits | |x| == n ensures !AllHold(input, x) {
          InconsistentRefutes(rows, i, x);
        }
        return None;
      }
    }
    var values: Bits := seq(n, _ => false);
    for k := 0 to |pivots|
      invariant |values| == n
      invariant forall l :: 0 <= l < k ==> values[pivots[l]] == rows[l][n]
      invariant forall j :: 0 <= j < n && values[j] ==> j in pivots
    {
      values := values[pivots[k] := rows[k][n]];
    }
    PivotsSolve(rows, pivots, values);
    forall y: Bits | |y| == n && AllHold(input, y) && y != values ensures Below(values, y) {
      PivotSolutionIsLeast(rows, pivots, values, y);
    }
    return Some(values);
  }
}
