/** Exact-real vectors: dot products and the two row operations the elimination uses. */
module RealVectors {

  function Abs(x: real): real {
    if x < 0.0 then -x else x
  }

  /** The sum of the first k products a[i] * b[i]. */
  function DotTo(a: seq<real>, b: seq<real>, k: nat): real
    requires k <= |a| && k <= |b|
  {
    if k == 0 then 0.0 else DotTo(a, b, k - 1) + a[k - 1] * b[k - 1]
  }

  function Dot(a: seq<real>, b: seq<real>): real
    requires |a| == |b|
  {
    DotTo(a, b, |a|)
  }

  function Divide(row: seq<real>, divisor: real): (r: seq<real>)
    requires divisor != 0.0
    ensures |r| == |row|
  {
    seq(|row|, i requires 0 <= i < |row| => row[i] / divisor)
  }

  /** row - factor * other, entry by entry. */
  function Subtract(row: seq<real>, factor: real, other: seq<real>): (r: seq<real>)
    requires |row| == |other|
    ensures |r| == |row|
  {
    seq(|row|, i requires 0 <= i < |row| => row[i] - factor * other[i])
  }

  ghost predicate IsZero(v: seq<real>) {
    forall i :: 0 <= i < |v| ==> v[i] == 0.0
  }

  lemma {:induction false} DotDivide(row: seq<real>, divisor: real, y: seq<real>, k: nat)
    requires divisor != 0.0 && k <= |row| == |y|
    ensures DotTo(Divide(row, divisor), y, k) * divisor == DotTo(row, y, k)
  {
    if k == 0 {
    } else {
      DotDivide(row, divisor, y, k - 1);
      var q := row[k - 1] / divisor;
      assert q * divisor == row[k - 1];
      assert (q * y[k - 1]) * divisor == row[k - 1] * y[k - 1];
    }
  }

  lemma {:induction false} DotSubtract(row: seq<real>, factor: real, other: seq<real>, y: seq<real>, k: nat)
    requires k <= |row| == |other| == |y|
    ensures DotTo(Subtract(row, factor, other), y, k) == DotTo(row, y, k) - factor * DotTo(other, y, k)
  {
    if k == 0 {
    } else {
      DotSubtract(row, factor, other, y, k - 1);
      assert (row[k - 1] - factor * other[k - 1]) * y[k - 1]
          == row[k - 1] * y[k - 1] - factor * (other[k - 1] * y[k - 1]);
    }
  }

  lemma {:induction false} DotCommutes(a: seq<real>, b: seq<real>, k: nat)
    requires k <= |a| == |b|
    ensures DotTo(a, b, k) == DotTo(b, a, k)
  {
    if k > 0 {
      DotCommutes(a, b, k - 1);
    }
  }

  /** Only the first k entries of either argument matter. */
  lemma {:induction false} DotPrefix(a: seq<real>, a': seq<real>, b: seq<real>, b': seq<real>, k: nat)
    requires k <= |a| && k <= |a'| && k <= |b| && k <= |b'|
    requires forall i :: 0 <= i < k ==> a[i] == a'[i] && b[i] == b'[i]
    ensures DotTo(a, b, k) == DotTo(a', b', k)
  {
    if k > 0 {
      DotPrefix(a, a', b, b', k - 1);
    }
  }

  /** A row that is zero before k except at most at position i contributes only that product. */
  lemma {:induction false} DotSparse(row: seq<real>, y: seq<real>, i: nat, k: nat)
    requires k <= |row| == |y|
    requires i < |row|
    requires forall j :: 0 <= j < k && j != i ==> row[j] * y[j] == 0.0
    ensures DotTo(row, y, k) == if i < k then row[i] * y[i] else 0.0
  {
    if k > 0 {
      DotSparse(row, y, i, k - 1);
    }
  }

  lemma {:induction false} DotZero(row: seq<real>, y: seq<real>, k: nat)
    requires k <= |row| == |y|
    requires forall j :: 0 <= j < k ==> row[j] * y[j] == 0.0
    ensures DotTo(row, y, k) == 0.0
  {
    if k > 0 {
      DotZero(row, y, k - 1);
    }
  }

  lemma {:induction false} SquaresNonNegative(v: seq<real>, k: nat)
    requires k <= |v|
    ensures DotTo(v, v, k) >= 0.0
    ensures DotTo(v, v, k) == 0.0 ==> forall i :: 0 <= i < k ==> v[i] == 0.0
  {
    if k > 0 {
      SquaresNonNegative(v, k - 1);
      SquareSign(v[k - 1]);
      assert DotTo(v, v, k) == DotTo(v, v, k - 1) + Times(v[k - 1], v[k - 1]);
    }
  }

  /** A product under a name, so that facts about squares are not rewritten away by the solver. */
  function Times(x: real, y: real): real {
    x * y
  }

  lemma PositiveTimes(x: real, y: real)
    requires x > 0.0 && y > 0.0
    ensures Times(x, y) > 0.0
  {
  }

  lemma SquareSign(x: real)
    ensures Times(x, x) >= 0.0
    ensures x != 0.0 ==> Times(x, x) > 0.0
  {
    if x > 0.0 {
      PositiveTimes(x, x);
    } else if x < 0.0 {
      PositiveTimes(-x, -x);
      assert Times(-x, -x) == Times(x, x);
    }
  }

  lemma DivideSelf(x: real)
    requires x != 0.0
    ensures x / x == 1.0
  {
  }

  /** |a - factor * b|^2 expanded. */
  lemma SquareOfDifference(a: seq<real>, factor: real, b: seq<real>)
    requires |a| == |b|
    ensures Dot(Subtract(a, factor, b), Subtract(a, factor, b))
         == Dot(a, a) - 2.0 * factor * Dot(a, b) + factor * factor * Dot(b, b)
  {
    var d := Subtract(a, factor, b);
    var k := |a|;
    DotSubtract(a, factor, b, d, k);
    DotCommutes(a, d, k);
    DotCommutes(b, d, k);
    DotSubtract(a, factor, b, a, k);
    DotSubtract(a, factor, b, b, k);
    DotCommutes(a, b, k);
    var aa, ab, bb := Dot(a, a), Dot(a, b), Dot(b, b);
    assert Dot(d, d) == (aa - factor * ab) - factor * (ab - factor * bb);
    assert factor * (ab - factor * bb) == factor * ab - factor * factor * bb;
  }
}
