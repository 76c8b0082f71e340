/**
 Gauss-Jordan elimination with partial pivoting.  The source's two copies differ only in the
 pivot threshold and in what they do when a pivot is refused, so the threshold is a parameter.
*/
module LinearSolver {
  import opened RealVectors
  import opened Options

  type Matrix = seq<seq<real>>

  /** Thresholds of the two copies; 0.0 is the exact "pivot is nonzero" test. */
  const FIT_THRESHOLD: real := 0.000000000000001
  const BATCH_THRESHOLD: real := 0.000000000001

  predicate IsSquare(matrix: Matrix, size: nat) {
    |matrix| == size && forall i :: 0 <= i < size ==> |matrix[i]| == size
  }

  predicate IsAugmented(augmented: Matrix) {
    forall i :: 0 <= i < |augmented| ==> |augmented[i]| == |augmented| + 1
  }

  ghost predicate Solves(matrix: Matrix, values: seq<real>, x: seq<real>)
    requires IsSquare(matrix, |values|)
  {
    |x| == |values| && forall i :: 0 <= i < |matrix| ==> Dot(matrix[i], x) == values[i]
  }

  ghost predicate IsUniqueSolution(matrix: Matrix, values: seq<real>, x: seq<real>)
    requires IsSquare(matrix, |values|)
  {
    Solves(matrix, values, x) && forall z :: Solves(matrix, values, z) ==> z == x
  }

  ghost predicate InKernel(matrix: Matrix, v: seq<real>)
    requires IsSquare(matrix, |matrix|)
  {
    |v| == |matrix| && forall i :: 0 <= i < |matrix| ==> Dot(matrix[i], v) == 0.0
  }

  /** A nonzero vector is mapped to zero. */
  ghost predicate Singular(matrix: Matrix)
    requires IsSquare(matrix, |matrix|)
  {
    exists v :: InKernel(matrix, v) && !IsZero(v)
  }

  // ----- the elimination as functions -----

  function Augment(matrix: Matrix, values: seq<real>): (a: Matrix)
    requires IsSquare(matrix, |values|)
    ensures IsAugmented(a) && |a| == |matrix|
  {
    seq(|matrix|, i requires 0 <= i < |matrix| => matrix[i] + [values[i]])
  }

  /** The first row at or after `best` whose entry in the column has the largest magnitude, from `row` on. */
  function PivotFrom(augmented: Matrix, column: nat, best: nat, row: nat): (p: nat)
    requires IsAugmented(augmented) && column <= best < |augmented| && column <= row <= |augmented|
    ensures column <= p < |augmented|
    ensures Abs(augmented[p][column]) >= Abs(augmented[best][column])
    ensures forall i :: row <= i < |augmented| ==> Abs(augmented[i][column]) <= Abs(augmented[p][column])
    decreases |augmented| - row
  {
    if row == |augmented| then best
    else if Abs(augmented[row][column]) > Abs(augmented[best][column]) then
      PivotFrom(augmented, column, row, row + 1)
    else
      PivotFrom(augmented, column, best, row + 1)
  }

  function Pivot(augmented: Matrix, column: nat): (p: nat)
    requires IsAugmented(augmented) && column < |augmented|
    ensures column <= p < |augmented|
    ensures forall i :: column <= i < |augmented| ==> Abs(augmented[i][column]) <= Abs(augmented[p][column])
  {
    PivotFrom(augmented, column, column, column)
  }

  predicate Refused(pivot: real, threshold: real) {
    pivot == 0.0 || Abs(pivot) < threshold
  }

  function Swapped(augmented: Matrix, i: nat, j: nat): (r: Matrix)
    requires IsAugmented(augmented) && i < |augmented| && j < |augmented|
    ensures IsAugmented(r) && |r| == |augmented|
  {
    augmented[i := augmented[j]][j := augmented[i]]
  }

  /** Row `column` is divided by its pivot and its multiples are taken from the other rows before `done`. */
  function Cleared(augmented: Matrix, column: nat, done: nat): (r: Matrix)
    requires IsAugmented(augmented) && column < |augmented| && done <= |augmented|
    requires augmented[column][column] != 0.0
    ensures IsAugmented(r) && |r| == |augmented|
  {
    var pivotRow := Divide(augmented[column], augmented[column][column]);
    seq(|augmented|, i requires 0 <= i < |augmented| =>
      if i == column then pivotRow
      else if i < done then Subtract(augmented[i], augmented[i][column], pivotRow)
      else augmented[i])
  }

  function Step(augmented: Matrix, column: nat, threshold: real): (r: Option<Matrix>)
    requires IsAugmented(augmented) && column < |augmented|
    ensures r.Some? ==> IsAugmented(r.value) && |r.value| == |augmented|
  {
    var p := Pivot(augmented, column);
    if Refused(augmented[p][column], threshold) then None
    else Some(Cleared(Swapped(augmented, column, p), column, |augmented|))
  }

  function Reduce(augmented: Matrix, column: nat, threshold: real): (r: Option<Matrix>)
    requires IsAugmented(augmented) && column <= |augmented|
    ensures r.Some? ==> IsAugmented(r.value) && |r.value| == |augmented|
    decreases |augmented| - column
  {
    if column == |augmented| then Some(augmented)
    else
      match Step(augmented, column, threshold)
      case None => None
      case Some(next) => Reduce(next, column + 1, threshold)
  }

  function LastColumn(augmented: Matrix): (r: seq<real>)
    requires IsAugmented(augmented)
    ensures |r| == |augmented|
  {
    seq(|augmented|, i requires 0 <= i < |augmented| => augmented[i][|augmented|])
  }

  function Solution(matrix: Matrix, values: seq<real>, threshold: real): (r: Option<seq<real>>)
    requires IsSquare(matrix, |values|)
    ensures r.Some? ==> |r.value| == |values|
  {
    match Reduce(Augment(matrix, values), 0, threshold)
    case None => None
    case Some(reduced) => Some(LastColumn(reduced))
  }

  // ----- the elimination in place -----

  method Solve(matrix: Matrix, values: seq<real>, threshold: real) returns (r: Option<seq<real>>)
    requires IsSquare(matrix, |values|)
    ensures r == Solution(matrix, values, threshold)
    ensures r.Some? ==> IsUniqueSolution(matrix, values, r.value)
    ensures r.None? <==> Singular(matrix) || AnyBelow(PivotsOf(matrix), threshold)
  {
    var size := |values|;
    var augmented := new seq<real>[size](i requires 0 <= i < size => matrix[i] + [values[i]]);
    assert augmented[..] == Augment(matrix, values);
    var reduced := ReduceInPlace(augmented, threshold);
    if reduced {
      r := Some(LastColumn(augmented[..]));
    } else {
      r := None;
    }
    SolutionIsUnique(matrix, values, threshold);
    RefusedIffSmallPivot(matrix, values, threshold);
  }

  method ReduceInPlace(augmented: array<seq<real>>, threshold: real) returns (reduced: bool)
    requires IsAugmented(augmented[..])
    modifies augmented
    ensures reduced == Reduce(old(augmented[..]), 0, threshold).Some?
    ensures reduced ==> augmented[..] == Reduce(old(augmented[..]), 0, threshold).value
  {
    hide Pivot, PivotFrom, Cleared, Swapped;
    for column := 0 to augmented.Length
      invariant IsAugmented(augmented[..])
      invariant Reduce(augmented[..], column, threshold) == Reduce(old(augmented[..]), 0, threshold)
    {
      var pivot := FindPivot(augmented, column);
      if Refused(augmented[pivot][column], threshold) {
        return false;
      }
      Eliminate(augmented, column, pivot);
    }
    reduced := true;
  }

  method Eliminate(augmented: array<seq<real>>, column: nat, pivot: nat)
    requires IsAugmented(augmented[..]) && column < augmented.Length && pivot < augmented.Length
    requires augmented[pivot][column] != 0.0
    modifies augmented
    ensures augmented[..] == Cleared(Swapped(old(augmented[..]), column, pivot), column, augmented.Length)
  {
    augmented[column], augmented[pivot] := augmented[pivot], augmented[column];
    ghost var swapped := augmented[..];
    assert swapped == Swapped(old(augmented[..]), column, pivot);
    augmented[column] := Divide(augmented[column], augmented[column][column]);
    ghost var pivotRow := Divide(swapped[column], swapped[column][column]);
    for row := 0 to augmented.Length
      invariant augmented[column] == pivotRow
      invariant forall i :: 0 <= i < augmented.Length && i != column ==>
        augmented[i] == if i < row then Subtract(swapped[i], swapped[i][column], pivotRow) else swapped[i]
    {
      if row != column {
        augmented[row] := Subtract(augmented[row], augmented[row][column], augmented[column]);
      }
    }
  }

  method FindPivot(augmented: array<seq<real>>, column: nat) returns (p: nat)
    requires IsAugmented(augmented[..]) && column < augmented.Length
    ensures p == Pivot(augmented[..], column)
  {
    p := column;
    for row := column to augmented.Length
      invariant column <= p < augmented.Length
      invariant PivotFrom(augmented[..], column, p, row) == Pivot(augmented[..], column)
    {
      if Abs(augmented[row][column]) > Abs(augmented[p][column]) {
        p := row;
      }
    }
  }

  // ----- every step keeps the solution set and adds one unit column -----

  /** y = x + [-1] encodes "x solves the system"; y = v + [0] encodes "v is in the kernel". */
  ghost predicate Annihilates(augmented: Matrix, y: seq<real>)
    requires IsAugmented(augmented)
  {
    |y| == |augmented| + 1 && forall i :: 0 <= i < |augmented| ==> Dot(augmented[i], y) == 0.0
  }

  ghost predicate UnitColumns(augmented: Matrix, columns: nat)
    requires IsAugmented(augmented) && columns <= |augmented|
  {
    forall i, j :: 0 <= i < |augmented| && 0 <= j < columns ==>
      augmented[i][j] == if i == j then 1.0 else 0.0
  }

  lemma ClearedKeepsSolutions(augmented: Matrix, column: nat, y: seq<real>)
    requires IsAugmented(augmented) && column < |augmented|
    requires augmented[column][column] != 0.0
    requires |y| == |augmented| + 1
    ensures Annihilates(augmented, y) <==> Annihilates(Cleared(augmented, column, |augmented|), y)
  {
    var n := |augmented|;
    var divisor := augmented[column][column];
    var pivotRow := Divide(augmented[column], divisor);
    var cleared := Cleared(augmented, column, n);
    DotDivide(augmented[column], divisor, y, n + 1);
    assert Dot(pivotRow, y) * divisor == Dot(augmented[column], y);
    assert Dot(pivotRow, y) == 0.0 <==> Dot(augmented[column], y) == 0.0;
    forall i | 0 <= i < n && i != column
      ensures Dot(cleared[i], y) == Dot(augmented[i], y) - augmented[i][column] * Dot(pivotRow, y)
    {
      DotSubtract(augmented[i], augmented[i][column], pivotRow, y, n + 1);
    }
    assert cleared[column] == pivotRow;
    if Annihilates(augmented, y) {
      forall i | 0 <= i < n ensures Dot(cleared[i], y) == 0.0 {
        assert Dot(augmented[i], y) == 0.0;
      }
    }
    if Annihilates(cleared, y) {
      assert Dot(cleared[column], y) == 0.0;
      forall i | 0 <= i < n ensures Dot(augmented[i], y) == 0.0 {
        assert Dot(cleared[i], y) == 0.0;
      }
    }
  }

  lemma SwappedKeepsSolutions(augmented: Matrix, i: nat, j: nat, y: seq<real>)
    requires IsAugmented(augmented) && i < |augmented| && j < |augmented|
    ensures Annihilates(augmented, y) <==> Annihilates(Swapped(augmented, i, j), y)
  {
    var swapped := Swapped(augmented, i, j);
    assert swapped[i] == augmented[j] && swapped[j] == augmented[i];
    if Annihilates(swapped, y) {
      forall k | 0 <= k < |augmented| ensures Dot(augmented[k], y) == 0.0 {
        var k' := if k == i then j else if k == j then i else k;
        assert augmented[k] == swapped[k'];
      }
    }
  }

  lemma StepKeepsSolutions(augmented: Matrix, column: nat, threshold: real, y: seq<real>)
    requires IsAugmented(augmented) && column < |augmented|
    requires |y| == |augmented| + 1
    requires Step(augmented, column, threshold).Some?
    ensures Annihilates(augmented, y) <==> Annihilates(Step(augmented, column, threshold).value, y)
  {
    var p := Pivot(augmented, column);
    SwappedKeepsSolutions(augmented, column, p, y);
    ClearedKeepsSolutions(Swapped(augmented, column, p), column, y);
  }

  lemma StepAddsUnitColumn(augmented: Matrix, column: nat, threshold: real)
    requires IsAugmented(augmented) && column < |augmented|
    requires UnitColumns(augmented, column)
    requires Step(augmented, column, threshold).Some?
    ensures UnitColumns(Step(augmented, column, threshold).value, column + 1)
  {
    var p := Pivot(augmented, column);
    var swapped := Swapped(augmented, column, p);
    var divisor := swapped[column][column];
    var pivotRow := Divide(swapped[column], divisor);
    var next := Cleared(swapped, column, |augmented|);
    DivideSelf(divisor);
    forall i, j | 0 <= i < |augmented| && 0 <= j < column + 1
      ensures next[i][j] == if i == j then 1.0 else 0.0
    {
      assert pivotRow[column] == 1.0;
      assert j < column ==> pivotRow[j] == 0.0 / divisor == 0.0;
      if i != column {
        var factor := swapped[i][column];
        assert next[i][j] == swapped[i][j] - factor * pivotRow[j];
        assert j < column ==> swapped[i][j] == if i == j then 1.0 else 0.0;
      }
    }
  }

  lemma {:induction false} ReduceKeepsSolutions(augmented: Matrix, column: nat, threshold: real, y: seq<real>)
    requires IsAugmented(augmented) && column <= |augmented|
    requires |y| == |augmented| + 1
    requires UnitColumns(augmented, column)
    requires Reduce(augmented, column, threshold).Some?
    ensures var reduced := Reduce(augmented, column, threshold).value;
            UnitColumns(reduced, |reduced|) && (Annihilates(augmented, y) <==> Annihilates(reduced, y))
    decreases |augmented| - column
  {
    hide Annihilates, Step;
    if column < |augmented| {
      StepKeepsSolutions(augmented, column, threshold, y);
      StepAddsUnitColumn(augmented, column, threshold);
      ReduceKeepsSolutions(Step(augmented, column, threshold).value, column + 1, threshold, y);
    }
  }

  ghost predicate ReadsOff(reduced: Matrix, y: seq<real>)
    requires IsAugmented(reduced) && |y| == |reduced| + 1
  {
    forall i :: 0 <= i < |reduced| ==> y[i] + reduced[i][|reduced|] * y[|reduced|] == 0.0
  }

  lemma UnitRow(row: seq<real>, y: seq<real>, i: nat, n: nat)
    requires i < n && |row| == |y| == n + 1
    requires forall j :: 0 <= j < n ==> row[j] == if i == j then 1.0 else 0.0
    ensures Dot(row, y) == y[i] + row[n] * y[n]
  {
    DotSparse(row, y, i, n);
  }

  /** A fully reduced system can be read off. */
  lemma UnitSystem(reduced: Matrix, y: seq<real>)
    requires IsAugmented(reduced) && UnitColumns(reduced, |reduced|)
    requires |y| == |reduced| + 1
    ensures Annihilates(reduced, y) <==> ReadsOff(reduced, y)
  {
    hide Dot;
    var n := |reduced|;
    forall i | 0 <= i < n ensures Dot(reduced[i], y) == y[i] + reduced[i][n] * y[n] {
      UnitRow(reduced[i], y, i, n);
    }
  }

  lemma ReadOffIsLastColumn(reduced: Matrix, z: seq<real>)
    requires IsAugmented(reduced) && |z| == |reduced|
    ensures ReadsOff(reduced, z + [-1.0]) <==> z == LastColumn(reduced)
  {
    var y := z + [-1.0];
    assert forall i :: 0 <= i < |z| ==> y[i] == z[i];
    if ReadsOff(reduced, y) {
      forall i | 0 <= i < |z| ensures z[i] == LastColumn(reduced)[i] {
        assert y[i] + reduced[i][|reduced|] * y[|reduced|] == 0.0;
      }
    }
    if z == LastColumn(reduced) {
      forall i | 0 <= i < |reduced| ensures y[i] + reduced[i][|reduced|] * y[|reduced|] == 0.0 {
        assert y[i] == LastColumn(reduced)[i];
      }
    }
  }

  lemma AugmentEncodes(matrix: Matrix, values: seq<real>, x: seq<real>, last: real)
    requires IsSquare(matrix, |values|) && |x| == |values|
    ensures Annihilates(Augment(matrix, values), x + [last]) <==>
            forall i :: 0 <= i < |matrix| ==> Dot(matrix[i], x) + values[i] * last == 0.0
  {
    var n := |values|;
    var y := x + [last];
    var a := Augment(matrix, values);
    forall i | 0 <= i < n ensures Dot(a[i], y) == Dot(matrix[i], x) + values[i] * last {
      DotPrefix(a[i], matrix[i], y, x, n);
    }
    if forall i :: 0 <= i < |matrix| ==> Dot(matrix[i], x) + values[i] * last == 0.0 {
      forall i | 0 <= i < n ensures Dot(a[i], y) == 0.0 {
        assert Dot(matrix[i], x) + values[i] * last == 0.0;
      }
    }
  }

  /** If `_solve` returns, its result satisfies every original equation and nothing else does. */
  lemma SolutionIsUnique(matrix: Matrix, values: seq<real>, threshold: real)
    requires IsSquare(matrix, |values|)
    ensures var r := Solution(matrix, values, threshold);
            r.Some? ==> IsUniqueSolution(matrix, values, r.value)
  {
    var augmented := Augment(matrix, values);
    var n := |values|;
    if Reduce(augmented, 0, threshold).Some? {
      var reduced := Reduce(augmented, 0, threshold).value;
      var x := LastColumn(reduced);
      forall z: seq<real> | |z| == n ensures Solves(matrix, values, z) <==> z == x {
        SolvesIffReduced(matrix, values, threshold, z);
      }
    }
  }

  lemma SolvesIffAnnihilates(matrix: Matrix, values: seq<real>, z: seq<real>)
    requires IsSquare(matrix, |values|) && |z| == |values|
    ensures Solves(matrix, values, z) <==> Annihilates(Augment(matrix, values), z + [-1.0])
  {
    hide Dot, Augment, Annihilates;
    AugmentEncodes(matrix, values, z, -1.0);
    if Annihilates(Augment(matrix, values), z + [-1.0]) {
      forall i | 0 <= i < |matrix| ensures Dot(matrix[i], z) == values[i] {
        assert Dot(matrix[i], z) + values[i] * -1.0 == 0.0;
      }
    }
  }

  lemma SolvesIffReduced(matrix: Matrix, values: seq<real>, threshold: real, z: seq<real>)
    requires IsSquare(matrix, |values|) && |z| == |values|
    requires Reduce(Augment(matrix, values), 0, threshold).Some?
    ensures Solves(matrix, values, z) <==> z == LastColumn(Reduce(Augment(matrix, values), 0, threshold).value)
  {
    hide Solves, Annihilates, ReadsOff, Reduce, LastColumn, Augment;
    var augmented := Augment(matrix, values);
    var reduced := Reduce(augmented, 0, threshold).value;
    SolvesIffAnnihilates(matrix, values, z);
    ReduceKeepsSolutions(augmented, 0, threshold, z + [-1.0]);
    UnitSystem(reduced, z + [-1.0]);
    ReadOffIsLastColumn(reduced, z);
  }

  // ----- exactly the singular systems are refused -----

  /** A zero pivot column gives a nonzero kernel vector of the reduced rows. */
  lemma ZeroPivotKernel(augmented: Matrix, column: nat) returns (v: seq<real>)
    requires IsAugmented(augmented) && column < |augmented|
    requires UnitColumns(augmented, column)
    requires forall i :: column <= i < |augmented| ==> augmented[i][column] == 0.0
    ensures |v| == |augmented| && v[column] == 1.0 && Annihilates(augmented, v + [0.0])
  {
    var n := |augmented|;
    v := seq(n, j requires 0 <= j < n =>
      if j < column then -augmented[j][column] else if j == column then 1.0 else 0.0);
    var y := v + [0.0];
    forall i | 0 <= i < n ensures Dot(augmented[i], y) == 0.0 {
      KernelRow(augmented, column, y, i);
    }
  }

  lemma KernelRow(augmented: Matrix, column: nat, y: seq<real>, i: nat)
    requires IsAugmented(augmented) && column < |augmented| && i < |augmented|
    requires UnitColumns(augmented, column)
    requires forall k :: column <= k < |augmented| ==> augmented[k][column] == 0.0
    requires |y| == |augmented| + 1 && y[column] == 1.0
    requires forall j :: 0 <= j < column ==> y[j] == -augmented[j][column]
    requires forall j :: column < j < |y| ==> y[j] == 0.0
    ensures Dot(augmented[i], y) == 0.0
  {
    var row := augmented[i];
    if i < column {
      DotSparse(row, y, i, column);
      assert DotTo(row, y, column + 1) == row[i] * y[i] + row[column];
    } else {
      DotZero(row, y, column);
    }
    assert DotTo(row, y, column + 1) == 0.0;
    ZeroTail(row, y, column + 1, |row|);
  }

  lemma {:induction false} ZeroTail(row: seq<real>, y: seq<real>, from: nat, k: nat)
    requires from <= k <= |row| == |y|
    requires forall j :: from <= j < k ==> y[j] == 0.0
    ensures DotTo(row, y, k) == DotTo(row, y, from)
  {
    if k > from {
      ZeroTail(row, y, from, k - 1);
    }
  }

  lemma {:induction false} RefusalGivesKernel(augmented: Matrix, column: nat, threshold: real) returns (v: seq<real>)
    requires IsAugmented(augmented) && column <= |augmented|
    requires UnitColumns(augmented, column)
    requires threshold <= 0.0
    requires Reduce(augmented, column, threshold).None?
    ensures |v| == |augmented| && !IsZero(v) && Annihilates(augmented, v + [0.0])
    decreases |augmented| - column
  {
    hide Cleared, Swapped, Annihilates;
    if Step(augmented, column, threshold).None? {
      v := ZeroPivotKernel(augmented, column);
    } else {
      var next := Step(augmented, column, threshold).value;
      StepAddsUnitColumn(augmented, column, threshold);
      v := RefusalGivesKernel(next, column + 1, threshold);
      StepKeepsSolutions(augmented, column, threshold, v + [0.0]);
    }
  }

  lemma KernelMakesNonUnique(matrix: Matrix, values: seq<real>, x: seq<real>, v: seq<real>)
    requires IsSquare(matrix, |values|)
    requires Solves(matrix, values, x) && InKernel(matrix, v) && !IsZero(v)
    ensures !IsUniqueSolution(matrix, values, x)
  {
    var z := Subtract(x, 1.0, v);
    forall i | 0 <= i < |matrix| ensures Dot(matrix[i], z) == values[i] {
      DotCommutes(matrix[i], z, |z|);
      DotSubtract(x, 1.0, v, matrix[i], |z|);
      DotCommutes(x, matrix[i], |z|);
      DotCommutes(v, matrix[i], |z|);
    }
    assert Solves(matrix, values, z);
    var i :| 0 <= i < |v| && v[i] != 0.0;
    assert z[i] != x[i];
  }

  lemma RefusedMakesSingular(matrix: Matrix, values: seq<real>, threshold: real)
    requires IsSquare(matrix, |values|)
    requires threshold <= 0.0 && Solution(matrix, values, threshold).None?
    ensures Singular(matrix)
  {
    hide Dot, Augment, Reduce;
    var v := RefusalGivesKernel(Augment(matrix, values), 0, threshold);
    AugmentEncodes(matrix, values, v, 0.0);
    forall i | 0 <= i < |matrix| ensures Dot(matrix[i], v) == 0.0 {
      assert Dot(matrix[i], v) + values[i] * 0.0 == 0.0;
    }
    assert InKernel(matrix, v);
  }

  /** With the exact test, `_solve` raises if and only if the matrix is singular. */
  lemma RefusedIffSingular(matrix: Matrix, values: seq<real>, threshold: real)
    requires IsSquare(matrix, |values|)
    requires threshold <= 0.0
    ensures Solution(matrix, values, threshold).None? <==> Singular(matrix)
  {
    var r := Solution(matrix, values, threshold);
    if r.None? {
      RefusedMakesSingular(matrix, values, threshold);
    } else if Singular(matrix) {
      SolutionIsUnique(matrix, values, threshold);
      var v :| InKernel(matrix, v) && !IsZero(v);
      KernelMakesNonUnique(matrix, values, r.value, v);
    }
  }

  /** A positive threshold can only refuse more systems; it never changes an answer. */
  lemma ThresholdOnlyRefuses(matrix: Matrix, values: seq<real>, threshold: real)
    requires IsSquare(matrix, |values|)
    ensures var r := Solution(matrix, values, threshold);
            r.Some? ==> !Singular(matrix) && Solution(matrix, values, 0.0) == r
  {
    var r := Solution(matrix, values, threshold);
    if r.Some? {
      SolutionIsUnique(matrix, values, threshold);
      if Singular(matrix) {
        var v :| InKernel(matrix, v) && !IsZero(v);
        KernelMakesNonUnique(matrix, values, r.value, v);
      }
      RefusedIffSingular(matrix, values, 0.0);
      SolutionIsUnique(matrix, values, 0.0);
    }
  }

  // ----- exactly the systems with a small pivot are refused -----

  /** The pivots that the exact test meets, up to and including a first zero one. */
  function Pivots(augmented: Matrix, column: nat): (r: seq<real>)
    requires IsAugmented(augmented) && column <= |augmented|
    decreases |augmented| - column
  {
    if column == |augmented| then []
    else
      var pivot := augmented[Pivot(augmented, column)][column];
      match Step(augmented, column, 0.0)
      case None => [pivot]
      case Some(next) => [pivot] + Pivots(next, column + 1)
  }

  /** They belong to the matrix alone; see `PivotsIgnoreValues`. */
  function PivotsOf(matrix: Matrix): (r: seq<real>)
    requires IsSquare(matrix, |matrix|)
  {
    Pivots(Augment(matrix, seq(|matrix|, _ => 0.0)), 0)
  }

  predicate AnyRefused(pivots: seq<real>, threshold: real) {
    exists k :: 0 <= k < |pivots| && Refused(pivots[k], threshold)
  }

  predicate AnyBelow(pivots: seq<real>, threshold: real) {
    exists k :: 0 <= k < |pivots| && Abs(pivots[k]) < threshold
  }

  lemma AnyRefusedNext(pivot: real, rest: seq<real>, threshold: real)
    ensures AnyRefused([pivot] + rest, threshold) <==> Refused(pivot, threshold) || AnyRefused(rest, threshold)
  {
    var all := [pivot] + rest;
    if Refused(pivot, threshold) {
      assert Refused(all[0], threshold);
    }
    if AnyRefused(rest, threshold) {
      var k :| 0 <= k < |rest| && Refused(rest[k], threshold);
      assert all[k + 1] == rest[k];
    }
  }

  /** Before a refusal the elimination takes the steps of the exact one. */
  lemma {:induction false} RefusedAtAPivot(augmented: Matrix, column: nat, threshold: real)
    requires IsAugmented(augmented) && column <= |augmented|
    ensures Reduce(augmented, column, threshold).None? <==> AnyRefused(Pivots(augmented, column), threshold)
    decreases |augmented| - column
  {
    hide Pivot, Cleared, Swapped, AnyRefused;
    if column < |augmented| {
      var pivot := augmented[Pivot(augmented, column)][column];
      match Step(augmented, column, 0.0)
      case None =>
        AnyRefusedNext(pivot, [], threshold);
        assert [pivot] + [] == [pivot];
      case Some(next) =>
        RefusedAtAPivot(next, column + 1, threshold);
        AnyRefusedNext(pivot, Pivots(next, column + 1), threshold);
    } else {
      NoPivotNoRefusal(threshold);
    }
  }

  lemma NoPivotNoRefusal(threshold: real)
    ensures !AnyRefused([], threshold)
  {
  }

  /** The two agree in every column but the last. */
  ghost predicate SameLeft(a: Matrix, b: Matrix) {
    && IsAugmented(a) && IsAugmented(b) && |a| == |b|
    && forall i, j :: 0 <= i < |a| && 0 <= j < |a| ==> a[i][j] == b[i][j]
  }

  lemma {:induction false} SamePivotFrom(a: Matrix, b: Matrix, column: nat, best: nat, row: nat)
    requires SameLeft(a, b) && column <= best < |a| && column <= row <= |a|
    ensures PivotFrom(a, column, best, row) == PivotFrom(b, column, best, row)
    decreases |a| - row
  {
    if row < |a| {
      SamePivotFrom(a, b, column, if Abs(a[row][column]) > Abs(a[best][column]) then row else best, row + 1);
    }
  }

  lemma SameCleared(a: Matrix, b: Matrix, column: nat)
    requires SameLeft(a, b) && column < |a| && a[column][column] != 0.0
    ensures SameLeft(Cleared(a, column, |a|), Cleared(b, column, |b|))
  {
  }

  lemma SameStep(a: Matrix, b: Matrix, column: nat)
    requires SameLeft(a, b) && column < |a|
    ensures a[Pivot(a, column)][column] == b[Pivot(b, column)][column]
    ensures match (Step(a, column, 0.0), Step(b, column, 0.0)) {
              case (Some(a'), Some(b')) => SameLeft(a', b')
              case (None, None) => true
              case _ => false
            }
  {
    hide Cleared, PivotFrom;
    SamePivotFrom(a, b, column, column, column);
    var p := Pivot(a, column);
    if !Refused(a[p][column], 0.0) {
      SameCleared(Swapped(a, column, p), Swapped(b, column, p), column);
    }
  }

  lemma {:induction false} SamePivots(a: Matrix, b: Matrix, column: nat)
    requires SameLeft(a, b) && column <= |a|
    ensures Pivots(a, column) == Pivots(b, column)
    decreases |a| - column
  {
    hide Step, Pivot;
    if column < |a| {
      SameStep(a, b, column);
      if Step(a, column, 0.0).Some? {
        SamePivots(Step(a, column, 0.0).value, Step(b, column, 0.0).value, column + 1);
      }
    }
  }

  /** The right-hand side has no part in the choice of pivots. */
  lemma PivotsIgnoreValues(matrix: Matrix, values: seq<real>)
    requires IsSquare(matrix, |values|)
    ensures Pivots(Augment(matrix, values), 0) == PivotsOf(matrix)
  {
    SamePivots(Augment(matrix, values), Augment(matrix, seq(|matrix|, _ => 0.0)), 0);
  }

  lemma RefusedIffBelow(pivots: seq<real>, threshold: real)
    ensures AnyRefused(pivots, threshold) <==> AnyRefused(pivots, 0.0) || AnyBelow(pivots, threshold)
  {
    if AnyBelow(pivots, threshold) {
      var k :| 0 <= k < |pivots| && Abs(pivots[k]) < threshold;
      assert Refused(pivots[k], threshold);
    }
    if AnyRefused(pivots, 0.0) {
      var k :| 0 <= k < |pivots| && Refused(pivots[k], 0.0);
      assert Refused(pivots[k], threshold);
    }
  }

  /**
   Under any threshold `_solve` raises if and only if the matrix is singular or one of its pivots is
   below the threshold; so solving the same matrix for other values cannot raise anew.
  */
  lemma RefusedIffSmallPivot(matrix: Matrix, values: seq<real>, threshold: real)
    requires IsSquare(matrix, |values|)
    ensures Solution(matrix, values, threshold).None? <==> Singular(matrix) || AnyBelow(PivotsOf(matrix), threshold)
  {
    hide Augment, Reduce, Singular, AnyBelow, AnyRefused, PivotsOf;
    var augmented := Augment(matrix, values);
    RefusedAtAPivot(augmented, 0, threshold);
    RefusedAtAPivot(augmented, 0, 0.0);
    PivotsIgnoreValues(matrix, values);
    RefusedIffBelow(PivotsOf(matrix), threshold);
    RefusedIffSingular(matrix, values, 0.0);
  }

  lemma OneByOnePivot(a: real)
    ensures PivotsOf([[a]]) == [a]
    ensures Singular([[a]]) ==> a == 0.0
  {
    var augmented := Augment([[a]], seq(1, _ => 0.0));
    assert augmented[0] == [a, 0.0] && Pivot(augmented, 0) == 0;
    if a == 0.0 {
      assert Step(augmented, 0, 0.0) == None;
    } else {
      var next := Step(augmented, 0, 0.0).value;
      assert Pivots(next, 1) == [];
      assert [a] + [] == [a];
    }
    forall v: seq<real> | InKernel([[a]], v) && !IsZero(v) ensures a == 0.0 {
      assert Dot([[a]][0], v) == DotTo([a], v, 0) + a * v[0];
    }
  }

  /** Where the two copies draw the line: one equation is refused exactly below 1e-15 and 1e-12. */
  lemma OneEquationRefusedIff(a: real, b: real)
    ensures Solution([[a]], [b], FIT_THRESHOLD).None? <==> -0.000000000000001 < a < 0.000000000000001
    ensures Solution([[a]], [b], BATCH_THRESHOLD).None? <==> -0.000000000001 < a < 0.000000000001
  {
    OneByOnePivot(a);
    RefusedIffSmallPivot([[a]], [b], FIT_THRESHOLD);
    RefusedIffSmallPivot([[a]], [b], BATCH_THRESHOLD);
    assert [a][0] == a;
  }

  /** It does refuse some regular systems: 5e-16 * x = 1 has the solution 2e15 and is refused. */
  lemma ThresholdRefusesARegularSystem()
    ensures Solution([[0.0000000000000005]], [1.0], FIT_THRESHOLD) == None
    ensures IsUniqueSolution([[0.0000000000000005]], [1.0], [2000000000000000.0])
  {
    var matrix: Matrix := [[0.0000000000000005]];
    var augmented := Augment(matrix, [1.0]);
    assert augmented[0] == [0.0000000000000005, 1.0];
    assert Pivot(augmented, 0) == 0;
    assert Step(augmented, 0, FIT_THRESHOLD) == None;
    forall z: seq<real> | |z| == 1 ensures Dot(matrix[0], z) == 0.0000000000000005 * z[0] {
      assert DotTo(matrix[0], z, 1) == DotTo(matrix[0], z, 0) + matrix[0][0] * z[0];
    }
    assert Solves(matrix, [1.0], [2000000000000000.0]);
  }
}
