/** Polynomial least squares through the normal equations. */
module LeastSquares {
  import opened Options
  import opened RealVectors
  import opened Polynomials
  import opened LinearSolver

  /** One row [1, x, ..., x^degree] per sample. */
  function Design(xs: seq<real>, degree: nat): (rows: Matrix)
    ensures HasWidth(rows, degree + 1) && |rows| == |xs|
  {
    seq(|xs|, i requires 0 <= i < |xs| => Powers(xs[i], degree))
  }

  predicate HasWidth(rows: Matrix, width: nat) {
    forall i :: 0 <= i < |rows| ==> |rows[i]| == width
  }

  function Column(rows: Matrix, width: nat, j: nat): (c: seq<real>)
    requires HasWidth(rows, width) && j < width
    ensures |c| == |rows|
  {
    seq(|rows|, i requires 0 <= i < |rows| => rows[i][j])
  }

  function Normal(rows: Matrix, width: nat): (m: Matrix)
    requires HasWidth(rows, width)
    ensures IsSquare(m, width)
  {
    seq(width, l requires 0 <= l < width =>
      seq(width, r requires 0 <= r < width => Dot(Column(rows, width, l), Column(rows, width, r))))
  }

  function NormalValues(rows: Matrix, width: nat, ys: seq<real>): (v: seq<real>)
    requires HasWidth(rows, width) && |ys| == |rows|
    ensures |v| == width
  {
    seq(width, c requires 0 <= c < width => Dot(Column(rows, width, c), ys))
  }

  /** The fitted value at each sample, using the first k coefficients. */
  function FittedTo(rows: Matrix, width: nat, coefficients: seq<real>, k: nat): (f: seq<real>)
    requires HasWidth(rows, width) && |coefficients| == width && k <= width
    ensures |f| == |rows|
  {
    seq(|rows|, i requires 0 <= i < |rows| => DotTo(rows[i], coefficients, k))
  }

  function Fitted(rows: Matrix, width: nat, coefficients: seq<real>): (f: seq<real>)
    requires HasWidth(rows, width) && |coefficients| == width
    ensures |f| == |rows|
  {
    FittedTo(rows, width, coefficients, width)
  }

  function Residuals(rows: Matrix, width: nat, ys: seq<real>, coefficients: seq<real>): (r: seq<real>)
    requires HasWidth(rows, width) && |coefficients| == width && |ys| == |rows|
    ensures |r| == |rows|
  {
    Subtract(ys, 1.0, Fitted(rows, width, coefficients))
  }

  /** The sum of squared residuals. */
  function Sse(rows: Matrix, width: nat, ys: seq<real>, coefficients: seq<real>): real
    requires HasWidth(rows, width) && |coefficients| == width && |ys| == |rows|
  {
    var r := Residuals(rows, width, ys, coefficients);
    Dot(r, r)
  }

  function Sum(v: seq<real>): real {
    if v == [] then 0.0 else Sum(v[..|v| - 1]) + v[|v| - 1]
  }

  function Mean(v: seq<real>): real
    requires |v| > 0
  {
    Sum(v) / (|v| as real)
  }

  /** The sum of squared distances from the mean. */
  function TotalSquares(ys: seq<real>): real
    requires |ys| > 0
  {
    var d := seq(|ys|, i requires 0 <= i < |ys| => ys[i] - Mean(ys));
    Dot(d, d)
  }

  datatype Fit = Fit(coefficients: seq<real>, residuals: seq<real>, rSquared: real)

  datatype FitError = InsufficientSamples | SingularMatrix

  function FitModel(xs: seq<real>, ys: seq<real>, degree: nat, threshold: real): Result<Fit, FitError> {
    if |xs| != |ys| || |xs| <= degree then Err(InsufficientSamples)
    else
      var width := degree + 1;
      var rows := Design(xs, degree);
      match Solution(Normal(rows, width), NormalValues(rows, width, ys), threshold)
      case None => Err(SingularMatrix)
      case Some(coefficients) =>
        var sse := Sse(rows, width, ys, coefficients);
        var total := TotalSquares(ys);
        Ok(Fit(coefficients,
               Residuals(rows, width, ys, coefficients),
               if total != 0.0 then 1.0 - sse / total else 1.0))
  }

  // ----- normal equations -----

  lemma FittedNext(rows: Matrix, width: nat, c: seq<real>, k: nat)
    requires HasWidth(rows, width) && |c| == width && k < width
    ensures FittedTo(rows, width, c, k) == Subtract(FittedTo(rows, width, c, k + 1), c[k], Column(rows, width, k))
  {
    var next, column := FittedTo(rows, width, c, k + 1), Column(rows, width, k);
    var back := Subtract(next, c[k], column);
    forall i | 0 <= i < |rows| ensures FittedTo(rows, width, c, k)[i] == back[i] {
      assert next[i] == DotTo(rows[i], c, k) + rows[i][k] * c[k];
      assert back[i] == next[i] - c[k] * column[i];
    }
  }

  /** Exchanging the sum over samples with the sum over powers. */
  lemma {:induction false} DotFitted(rows: Matrix, width: nat, c: seq<real>, u: seq<real>, weights: seq<real>, k: nat)
    requires HasWidth(rows, width) && |c| == width && |u| == |rows| && |weights| == width && k <= width
    requires forall j :: 0 <= j < width ==> weights[j] == Dot(u, Column(rows, width, j))
    ensures Dot(u, FittedTo(rows, width, c, k)) == DotTo(weights, c, k)
  {
    if k == 0 {
      DotZero(u, FittedTo(rows, width, c, 0), |u|);
    } else {
      DotFitted(rows, width, c, u, weights, k - 1);
      FittedNext(rows, width, c, k - 1);
      var full, column := FittedTo(rows, width, c, k), Column(rows, width, k - 1);
      DotCommutes(u, Subtract(full, c[k - 1], column), |u|);
      DotSubtract(full, c[k - 1], column, u, |u|);
      DotCommutes(full, u, |u|);
      DotCommutes(column, u, |u|);
      assert Dot(u, FittedTo(rows, width, c, k - 1)) == Dot(u, full) - c[k - 1] * weights[k - 1];
    }
  }

  lemma NormalRow(rows: Matrix, width: nat, c: seq<real>, l: nat)
    requires HasWidth(rows, width) && |c| == width && l < width
    ensures Dot(Normal(rows, width)[l], c) == Dot(Column(rows, width, l), Fitted(rows, width, c))
  {
    DotFitted(rows, width, c, Column(rows, width, l), Normal(rows, width)[l], width);
  }

  lemma ResidualAgainst(rows: Matrix, width: nat, ys: seq<real>, c: seq<real>, u: seq<real>)
    requires HasWidth(rows, width) && |c| == width && |ys| == |rows| && |u| == |rows|
    ensures Dot(u, Residuals(rows, width, ys, c)) == Dot(u, ys) - Dot(u, Fitted(rows, width, c))
  {
    var f := Fitted(rows, width, c);
    DotCommutes(u, Subtract(ys, 1.0, f), |u|);
    DotSubtract(ys, 1.0, f, u, |u|);
    DotCommutes(ys, u, |u|);
    DotCommutes(f, u, |u|);
  }

  /** The normal equations say exactly that the residuals are orthogonal to every column. */
  lemma NormalEquationsIffOrthogonal(rows: Matrix, width: nat, ys: seq<real>, c: seq<real>)
    requires HasWidth(rows, width) && |c| == width && |ys| == |rows|
    ensures Solves(Normal(rows, width), NormalValues(rows, width, ys), c) <==>
            forall l :: 0 <= l < width ==> Dot(Column(rows, width, l), Residuals(rows, width, ys, c)) == 0.0
  {
    var m, v := Normal(rows, width), NormalValues(rows, width, ys);
    var r := Residuals(rows, width, ys, c);
    forall l | 0 <= l < width
      ensures Dot(Column(rows, width, l), r) == v[l] - Dot(m[l], c)
    {
      NormalRow(rows, width, c, l);
      ResidualAgainst(rows, width, ys, c, Column(rows, width, l));
    }
    if forall l :: 0 <= l < width ==> Dot(Column(rows, width, l), r) == 0.0 {
      forall l | 0 <= l < width ensures Dot(m[l], c) == v[l] {
        assert Dot(Column(rows, width, l), r) == 0.0;
      }
    }
  }

  // ----- optimality -----

  /** Moving from c to another vector b adds exactly the squared length of the change in fitted values. */
  lemma SseOfOther(rows: Matrix, width: nat, ys: seq<real>, c: seq<real>, b: seq<real>)
    requires HasWidth(rows, width) && |c| == |b| == width && |ys| == |rows|
    requires Solves(Normal(rows, width), NormalValues(rows, width, ys), c)
    ensures var change := Fitted(rows, width, Subtract(b, 1.0, c));
            Sse(rows, width, ys, b) == Sse(rows, width, ys, c) + Dot(change, change)
  {
    var d := Subtract(b, 1.0, c);
    var change, r := Fitted(rows, width, d), Residuals(rows, width, ys, c);
    NormalEquationsIffOrthogonal(rows, width, ys, c);
    var weights := seq(width, j requires 0 <= j < width => Dot(r, Column(rows, width, j)));
    forall j | 0 <= j < width ensures weights[j] == 0.0 {
      DotCommutes(r, Column(rows, width, j), |r|);
    }
    DotFitted(rows, width, d, r, weights, width);
    DotZero(weights, d, width);
    assert Dot(r, change) == 0.0;
    ResidualsOfOther(rows, width, ys, c, b);
    SquareOfDifference(r, 1.0, change);
  }

  lemma ResidualsOfOther(rows: Matrix, width: nat, ys: seq<real>, c: seq<real>, b: seq<real>)
    requires HasWidth(rows, width) && |c| == |b| == width && |ys| == |rows|
    ensures Residuals(rows, width, ys, b)
         == Subtract(Residuals(rows, width, ys, c), 1.0, Fitted(rows, width, Subtract(b, 1.0, c)))
  {
    var d := Subtract(b, 1.0, c);
    var left := Residuals(rows, width, ys, b);
    var right := Subtract(Residuals(rows, width, ys, c), 1.0, Fitted(rows, width, d));
    forall i | 0 <= i < |rows| ensures left[i] == right[i] {
      DotCommutes(rows[i], d, width);
      DotSubtract(b, 1.0, c, rows[i], width);
      DotCommutes(b, rows[i], width);
      DotCommutes(c, rows[i], width);
      assert Fitted(rows, width, d)[i] == Fitted(rows, width, b)[i] - Fitted(rows, width, c)[i];
    }
    assert left == right;
  }

  /** The normal matrix is singular exactly when some nonzero combination of columns is zero at every sample. */
  lemma NormalSingularIffDependent(rows: Matrix, width: nat)
    requires HasWidth(rows, width)
    ensures Singular(Normal(rows, width)) <==>
            exists v :: |v| == width && !IsZero(v) && IsZero(Fitted(rows, width, v))
  {
    var m := Normal(rows, width);
    forall v: seq<real> | |v| == width ensures InKernel(m, v) <==> IsZero(Fitted(rows, width, v)) {
      KernelIffFitsZero(rows, width, v);
    }
    if Singular(m) {
      var v :| InKernel(m, v) && !IsZero(v);
      assert IsZero(Fitted(rows, width, v));
    }
    if exists v :: |v| == width && !IsZero(v) && IsZero(Fitted(rows, width, v)) {
      var v :| |v| == width && !IsZero(v) && IsZero(Fitted(rows, width, v));
      assert InKernel(m, v);
    }
  }

  lemma KernelIffFitsZero(rows: Matrix, width: nat, v: seq<real>)
    requires HasWidth(rows, width) && |v| == width
    ensures InKernel(Normal(rows, width), v) <==> IsZero(Fitted(rows, width, v))
  {
    var m, f := Normal(rows, width), Fitted(rows, width, v);
    var weights := seq(width, j requires 0 <= j < width => Dot(f, Column(rows, width, j)));
    forall l | 0 <= l < width ensures Dot(m[l], v) == weights[l] {
      NormalRow(rows, width, v, l);
      DotCommutes(f, Column(rows, width, l), |f|);
    }
    DotFitted(rows, width, v, f, weights, width);
    assert Dot(f, f) == DotTo(weights, v, width);
    SquaresNonNegative(f, |f|);
    if InKernel(m, v) {
      DotZero(weights, v, width);
    }
    if IsZero(f) {
      forall l | 0 <= l < width ensures Dot(m[l], v) == 0.0 {
        DotZero(f, Column(rows, width, l), |f|);
      }
    }
  }

  // ----- the fitter -----

  /** Whatever FitModel returns is the one best polynomial of its degree, with orthogonal residuals. */
  lemma FitIsOptimal(xs: seq<real>, ys: seq<real>, degree: nat, threshold: real, b: seq<real>)
    requires FitModel(xs, ys, degree, threshold).Ok? && |b| == degree + 1
    ensures var fit := FitModel(xs, ys, degree, threshold).value;
            var rows, width := Design(xs, degree), degree + 1;
            && |fit.coefficients| == width
            && Sse(rows, width, ys, fit.coefficients) <= Sse(rows, width, ys, b)
            && (Sse(rows, width, ys, b) == Sse(rows, width, ys, fit.coefficients) ==> b == fit.coefficients)
  {
    var rows, width := Design(xs, degree), degree + 1;
    var c := FitModel(xs, ys, degree, threshold).value.coefficients;
    var m, v := Normal(rows, width), NormalValues(rows, width, ys);
    SolutionIsUnique(m, v, threshold);
    SseOfOther(rows, width, ys, c, b);
    var d := Subtract(b, 1.0, c);
    var change := Fitted(rows, width, d);
    SquaresNonNegative(change, |change|);
    if Dot(change, change) == 0.0 {
      ThresholdOnlyRefuses(m, v, threshold);
      KernelIffFitsZero(rows, width, d);
      assert IsZero(d);
      forall i | 0 <= i < width ensures b[i] == c[i] {
        assert d[i] == b[i] - 1.0 * c[i];
      }
    }
  }

  lemma FitResidualsOrthogonal(xs: seq<real>, ys: seq<real>, degree: nat, threshold: real, power: nat)
    requires FitModel(xs, ys, degree, threshold).Ok? && power <= degree
    ensures var fit := FitModel(xs, ys, degree, threshold).value;
            && |fit.residuals| == |xs|
            && (forall i :: 0 <= i < |xs| ==> fit.residuals[i] == ys[i] - Eval(fit.coefficients, xs[i]))
            && Dot(seq(|xs|, i requires 0 <= i < |xs| => Pow(xs[i], power)), fit.residuals) == 0.0
  {
    var rows, width := Design(xs, degree), degree + 1;
    var fit := FitModel(xs, ys, degree, threshold).value;
    SolutionIsUnique(Normal(rows, width), NormalValues(rows, width, ys), threshold);
    NormalEquationsIffOrthogonal(rows, width, ys, fit.coefficients);
    assert seq(|xs|, i requires 0 <= i < |xs| => Pow(xs[i], power)) == Column(rows, width, power);
    forall i | 0 <= i < |xs| ensures fit.residuals[i] == ys[i] - Eval(fit.coefficients, xs[i]) {
      PowerSumIsEval(fit.coefficients, xs[i]);
    }
  }

  lemma RSquaredInUnitInterval(xs: seq<real>, ys: seq<real>, degree: nat, threshold: real)
    requires FitModel(xs, ys, degree, threshold).Ok?
    ensures 0.0 <= FitModel(xs, ys, degree, threshold).value.rSquared <= 1.0
  {
    var rows, width := Design(xs, degree), degree + 1;
    var fit := FitModel(xs, ys, degree, threshold).value;
    var mean := Mean(ys);
    var flat := seq(width, j requires 0 <= j < width => if j == 0 then mean else 0.0);
    var r := Residuals(rows, width, ys, flat);
    forall i | 0 <= i < |rows| ensures r[i] == ys[i] - mean {
      DotSparse(rows[i], flat, 0, width);
      assert rows[i][0] == 1.0;
    }
    assert r == seq(|ys|, i requires 0 <= i < |ys| => ys[i] - mean);
    FitIsOptimal(xs, ys, degree, threshold, flat);
    var sse, total := Sse(rows, width, ys, fit.coefficients), TotalSquares(ys);
    SquaresNonNegative(fit.residuals, |fit.residuals|);
    SquaresNonNegative(r, |r|);
    if total != 0.0 {
      RatioInUnitInterval(sse, total);
    }
  }

  lemma RatioInUnitInterval(a: real, b: real)
    requires 0.0 <= a <= b && b != 0.0
    ensures 0.0 <= a / b <= 1.0
  {
  }

  // ----- what R squared says -----

  predicate AllEqual(ys: seq<real>) {
    forall i, j :: 0 <= i < |ys| && 0 <= j < |ys| ==> ys[i] == ys[j]
  }

  lemma {:induction false} SumOfEqual(ys: seq<real>, y: real)
    requires forall i :: 0 <= i < |ys| ==> ys[i] == y
    ensures Sum(ys) == (|ys| as real) * y
  {
    if ys != [] {
      SumOfEqual(ys[..|ys| - 1], y);
      assert (|ys| as real) * y == ((|ys| - 1) as real) * y + y;
    }
  }

  lemma MeanOfEqual(ys: seq<real>)
    requires ys != [] && AllEqual(ys)
    ensures Mean(ys) == ys[0]
  {
    SumOfEqual(ys, ys[0]);
    TimesOver(|ys| as real, ys[0]);
  }

  lemma TimesOver(n: real, y: real)
    requires n != 0.0
    ensures n * y / n == y
  {
  }

  /** The total is zero exactly when all samples are equal. */
  lemma TotalIsZeroIff(ys: seq<real>)
    requires ys != []
    ensures TotalSquares(ys) >= 0.0
    ensures TotalSquares(ys) == 0.0 <==> AllEqual(ys)
  {
    hide Sum;
    var d := seq(|ys|, i requires 0 <= i < |ys| => ys[i] - Mean(ys));
    SquaresNonNegative(d, |d|);
    if TotalSquares(ys) == 0.0 {
      forall i, j | 0 <= i < |ys| && 0 <= j < |ys| ensures ys[i] == ys[j] {
        assert d[i] == 0.0 && d[j] == 0.0;
      }
    }
    if AllEqual(ys) {
      MeanOfEqual(ys);
      DotZero(d, d, |d|);
    }
  }

  lemma SumOfSquaresIsZeroIff(r: seq<real>)
    ensures Dot(r, r) >= 0.0
    ensures Dot(r, r) == 0.0 <==> IsZero(r)
  {
    SquaresNonNegative(r, |r|);
    if IsZero(r) {
      DotZero(r, r, |r|);
    }
  }

  lemma ShareOf(sse: real, total: real)
    requires total > 0.0 && sse >= 0.0
    ensures 1.0 - sse / total == 1.0 <==> sse == 0.0
    ensures 1.0 - sse / total == 0.0 <==> sse == total
  {
    var q := sse / total;
    assert q * total == sse;
    if q == 1.0 {
      assert sse == total;
    }
  }

  lemma SharesInOrder(a: real, b: real, total: real)
    requires total > 0.0
    ensures 1.0 - a / total <= 1.0 - b / total <==> b <= a
  {
    var p, q := a / total, b / total;
    assert p * total == a && q * total == b;
    if q <= p {
      assert a - b == (p - q) * total;
    } else {
      assert b - a == (q - p) * total;
    }
  }

  /** One exactly for a fit through all samples, and for samples that are all equal. */
  lemma RSquaredIsOneIff(xs: seq<real>, ys: seq<real>, degree: nat, threshold: real)
    requires FitModel(xs, ys, degree, threshold).Ok?
    ensures var fit := FitModel(xs, ys, degree, threshold).value;
            fit.rSquared == 1.0 <==> AllEqual(ys) || forall i :: 0 <= i < |xs| ==> ys[i] == Eval(fit.coefficients, xs[i])
  {
    hide Solution, Normal, NormalValues, Residuals, TotalSquares, AllEqual;
    var fit := FitModel(xs, ys, degree, threshold).value;
    TotalIsZeroIff(ys);
    SumOfSquaresIsZeroIff(fit.residuals);
    FitResidualsOrthogonal(xs, ys, degree, threshold, 0);
    if !AllEqual(ys) {
      ShareOf(Dot(fit.residuals, fit.residuals), TotalSquares(ys));
    }
    if IsZero(fit.residuals) {
      forall i | 0 <= i < |xs| ensures ys[i] == Eval(fit.coefficients, xs[i]) {
        assert fit.residuals[i] == 0.0;
      }
    }
  }

  /** The coefficients of the constant polynomial. */
  function Flat(degree: nat, value: real): (c: seq<real>)
    ensures |c| == degree + 1
  {
    seq(degree + 1, j requires 0 <= j <= degree => if j == 0 then value else 0.0)
  }

  lemma FlatSse(xs: seq<real>, ys: seq<real>, degree: nat)
    requires |xs| == |ys| > 0
    ensures Sse(Design(xs, degree), degree + 1, ys, Flat(degree, Mean(ys))) == TotalSquares(ys)
  {
    hide Mean;
    var rows, width, flat := Design(xs, degree), degree + 1, Flat(degree, Mean(ys));
    var r := Residuals(rows, width, ys, flat);
    forall i | 0 <= i < |rows| ensures r[i] == ys[i] - Mean(ys) {
      DotSparse(rows[i], flat, 0, width);
      assert rows[i][0] == 1.0;
    }
    assert r == seq(|ys|, i requires 0 <= i < |ys| => ys[i] - Mean(ys));
  }

  /** Zero exactly when the mean is already the best polynomial of the degree. */
  lemma RSquaredIsZeroIff(xs: seq<real>, ys: seq<real>, degree: nat, threshold: real)
    requires FitModel(xs, ys, degree, threshold).Ok? && !AllEqual(ys)
    ensures var fit := FitModel(xs, ys, degree, threshold).value;
            fit.rSquared == 0.0 <==> fit.coefficients == Flat(degree, Mean(ys))
  {
    hide Solution, Normal, NormalValues, Residuals, TotalSquares, AllEqual, Flat, Mean;
    var fit := FitModel(xs, ys, degree, threshold).value;
    TotalIsZeroIff(ys);
    SumOfSquaresIsZeroIff(fit.residuals);
    FlatSse(xs, ys, degree);
    FitIsOptimal(xs, ys, degree, threshold, Flat(degree, Mean(ys)));
    ShareOf(Dot(fit.residuals, fit.residuals), TotalSquares(ys));
  }

  /** Of two fits of the same samples the one with the smaller squared error has the larger value. */
  lemma RSquaredOrdersFits(xs: seq<real>, ys: seq<real>, a: nat, b: nat, threshold: real)
    requires FitModel(xs, ys, a, threshold).Ok? && FitModel(xs, ys, b, threshold).Ok? && !AllEqual(ys)
    ensures var f, g := FitModel(xs, ys, a, threshold).value, FitModel(xs, ys, b, threshold).value;
            f.rSquared <= g.rSquared <==> Dot(g.residuals, g.residuals) <= Dot(f.residuals, f.residuals)
  {
    hide Solution, Normal, NormalValues, Residuals, TotalSquares, AllEqual;
    var f, g := FitModel(xs, ys, a, threshold).value, FitModel(xs, ys, b, threshold).value;
    TotalIsZeroIff(ys);
    SharesInOrder(Dot(f.residuals, f.residuals), Dot(g.residuals, g.residuals), TotalSquares(ys));
  }

  lemma PaddedSse(xs: seq<real>, ys: seq<real>, degree: nat, zeros: nat, c: seq<real>)
    requires |xs| == |ys| && |c| == degree + 1
    ensures var padded := c + seq(zeros, _ => 0.0);
            Sse(Design(xs, degree + zeros), degree + zeros + 1, ys, padded) == Sse(Design(xs, degree), degree + 1, ys, c)
  {
    var padded := c + seq(zeros, _ => 0.0);
    var r, s := Residuals(Design(xs, degree), degree + 1, ys, c), Residuals(Design(xs, degree + zeros), degree + zeros + 1, ys, padded);
    forall i | 0 <= i < |xs| ensures r[i] == s[i] {
      PowerSumIsEval(c, xs[i]);
      PowerSumIsEval(padded, xs[i]);
      EvalPadded(c, zeros, xs[i]);
    }
    assert r == s;
  }

  /** It never falls as the degree grows. */
  lemma RSquaredGrowsWithDegree(xs: seq<real>, ys: seq<real>, degree: nat, more: nat, threshold: real)
    requires FitModel(xs, ys, degree, threshold).Ok? && FitModel(xs, ys, degree + more, threshold).Ok?
    ensures FitModel(xs, ys, degree, threshold).value.rSquared <= FitModel(xs, ys, degree + more, threshold).value.rSquared
  {
    hide Solution, Normal, NormalValues, Residuals, TotalSquares, AllEqual;
    TotalIsZeroIff(ys);
    if !AllEqual(ys) {
      var c := FitModel(xs, ys, degree, threshold).value.coefficients;
      PaddedSse(xs, ys, degree, more, c);
      FitIsOptimal(xs, ys, degree + more, threshold, c + seq(more, _ => 0.0));
      RSquaredOrdersFits(xs, ys, degree, degree + more, threshold);
    }
  }

  function Distinct(xs: seq<real>): set<real> {
    set x | x in xs
  }

  /**
   With the exact pivot test, the fit succeeds if and only if there are as many observations as
   positions and more distinct positions than the degree.
  */
  lemma FitSucceedsIff(xs: seq<real>, ys: seq<real>, degree: nat)
    ensures FitModel(xs, ys, degree, 0.0).Ok? <==> |xs| == |ys| && |Distinct(xs)| > degree
  {
    DistinctBound(xs);
    if |xs| == |ys| && |xs| > degree {
      var rows, width := Design(xs, degree), degree + 1;
      RefusedIffSingular(Normal(rows, width), NormalValues(rows, width, ys), 0.0);
      NormalSingularIffDependent(rows, width);
      VandermondeDependent(xs, degree);
    }
  }

  /** The pivots that decide whether a fit is refused. */
  function FitPivots(xs: seq<real>, degree: nat): (r: seq<real>) {
    PivotsOf(Normal(Design(xs, degree), degree + 1))
  }

  lemma FitSolvableIff(xs: seq<real>, ys: seq<real>, degree: nat, threshold: real)
    requires |xs| == |ys|
    ensures var rows, width := Design(xs, degree), degree + 1;
            Solution(Normal(rows, width), NormalValues(rows, width, ys), threshold).Some? <==>
            |Distinct(xs)| > degree && !AnyBelow(FitPivots(xs, degree), threshold)
  {
    hide Normal, NormalValues, Solution, Singular, AnyBelow, PivotsOf;
    var rows, width := Design(xs, degree), degree + 1;
    RefusedIffSmallPivot(Normal(rows, width), NormalValues(rows, width, ys), threshold);
    NormalSingularIffDependent(rows, width);
    VandermondeDependent(xs, degree);
  }

  /** Under any threshold, which fits are refused and with which error. */
  lemma FitRefusedIff(xs: seq<real>, ys: seq<real>, degree: nat, threshold: real)
    ensures var fit := FitModel(xs, ys, degree, threshold);
            && (fit == Err(InsufficientSamples) <==> |xs| != |ys| || |xs| <= degree)
            && (fit == Err(SingularMatrix) <==>
                && |xs| == |ys| > degree
                && (|Distinct(xs)| <= degree || AnyBelow(FitPivots(xs, degree), threshold)))
  {
    hide FitPivots, AnyBelow, Solution;
    if |xs| == |ys| && |xs| > degree {
      FitSolvableIff(xs, ys, degree, threshold);
    }
  }

  /** A positive threshold may refuse a fit but never returns a different one. */
  lemma ThresholdNeverChangesAFit(xs: seq<real>, ys: seq<real>, degree: nat, threshold: real)
    ensures FitModel(xs, ys, degree, threshold).Ok? ==>
            FitModel(xs, ys, degree, 0.0) == FitModel(xs, ys, degree, threshold) && |Distinct(xs)| > degree
  {
    if |xs| == |ys| && |xs| > degree {
      var rows, width := Design(xs, degree), degree + 1;
      ThresholdOnlyRefuses(Normal(rows, width), NormalValues(rows, width, ys), threshold);
      FitSucceedsIff(xs, ys, degree);
    }
  }

  lemma {:induction false} DistinctBound(xs: seq<real>)
    ensures |Distinct(xs)| <= |xs|
  {
    if xs != [] {
      var rest := xs[..|xs| - 1];
      DistinctBound(rest);
      assert Distinct(xs) == Distinct(rest) + {xs[|xs| - 1]} by {
        assert xs == rest + [xs[|xs| - 1]];
      }
    }
  }

  lemma VandermondeDependent(xs: seq<real>, degree: nat)
    ensures (exists v :: |v| == degree + 1 && !IsZero(v) && IsZero(Fitted(Design(xs, degree), degree + 1, v)))
       <==> |Distinct(xs)| <= degree
  {
    var rows, width := Design(xs, degree), degree + 1;
    forall v: seq<real> | |v| == width
      ensures IsZero(Fitted(rows, width, v)) <==> forall x :: x in Distinct(xs) ==> Eval(v, x) == 0.0
    {
      VanishesIff(xs, degree, v);
    }
    if |Distinct(xs)| <= degree {
      var p := VanishingPolynomial(Distinct(xs));
      var zeros := width - |p|;
      var v := p + seq(zeros, _ => 0.0);
      forall x | x in Distinct(xs) ensures Eval(v, x) == 0.0 {
        EvalPadded(p, zeros, x);
      }
      assert v[|p| - 1] == 1.0;
      assert |v| == width && !IsZero(v) && IsZero(Fitted(rows, width, v));
    } else {
      forall v: seq<real> | |v| == width && IsZero(Fitted(rows, width, v)) ensures IsZero(v) {
        TooManyRoots(v, Distinct(xs));
      }
    }
  }

  lemma VanishesIff(xs: seq<real>, degree: nat, v: seq<real>)
    requires |v| == degree + 1
    ensures IsZero(Fitted(Design(xs, degree), degree + 1, v)) <==>
            forall x :: x in Distinct(xs) ==> Eval(v, x) == 0.0
  {
    var f := Fitted(Design(xs, degree), degree + 1, v);
    forall i | 0 <= i < |xs| ensures f[i] == Eval(v, xs[i]) {
      PowerSumIsEval(v, xs[i]);
    }
    if IsZero(f) {
      forall x | x in Distinct(xs) ensures Eval(v, x) == 0.0 {
        var i :| 0 <= i < |xs| && xs[i] == x;
        assert f[i] == 0.0;
      }
    }
    if forall x :: x in Distinct(xs) ==> Eval(v, x) == 0.0 {
      forall i | 0 <= i < |f| ensures f[i] == 0.0 {
        assert xs[i] in Distinct(xs);
      }
    }
  }

  // ----- the second copy, with a zero-vector fallback -----

  function Features(x: real): seq<real> {
    [1.0, x, x * x]
  }

  function QuadraticFit(xs: seq<real>, ys: seq<real>, threshold: real): (r: seq<real>)
    requires |xs| == |ys|
    ensures |r| == 3
  {
    var rows: Matrix := seq(|xs|, i requires 0 <= i < |xs| => Features(xs[i]));
    match Solution(Normal(rows, 3), NormalValues(rows, 3, ys), threshold)
    case None => [0.0, 0.0, 0.0]
    case Some(c) => c
  }

  lemma FeaturesArePowers(xs: seq<real>)
    ensures (seq(|xs|, i requires 0 <= i < |xs| => Features(xs[i]))) == Design(xs, 2)
  {
    forall i | 0 <= i < |xs| ensures Features(xs[i]) == Powers(xs[i], 2) {
      assert Pow(xs[i], 0) == 1.0;
      assert Pow(xs[i], 1) == xs[i];
      assert Pow(xs[i], 2) == xs[i] * xs[i];
    }
  }

  /**
   Under any threshold the quadratic fit is the unique best one when at least three sizes are distinct
   and no pivot is below the threshold, and is the zero vector in every other case.
  */
  lemma QuadraticFitExactly(xs: seq<real>, ys: seq<real>, threshold: real, b: seq<real>)
    requires |xs| == |ys| && |b| == 3
    ensures var c := QuadraticFit(xs, ys, threshold);
            if |Distinct(xs)| < 3 || AnyBelow(FitPivots(xs, 2), threshold) then c == [0.0, 0.0, 0.0]
            else b != c ==> Sse(Design(xs, 2), 3, ys, c) < Sse(Design(xs, 2), 3, ys, b)
  {
    hide AnyBelow, FitPivots, Solution, Sse, Normal, NormalValues;
    FeaturesArePowers(xs);
    FitSolvableIff(xs, ys, 2, threshold);
    if Solution(Normal(Design(xs, 2), 3), NormalValues(Design(xs, 2), 3, ys), threshold).Some? {
      DistinctBound(xs);
      FitIsOptimal(xs, ys, 2, threshold, b);
    }
  }

  /** At the source's threshold. */
  lemma BatchFitExactly(xs: seq<real>, ys: seq<real>, b: seq<real>)
    requires |xs| == |ys| && |b| == 3
    ensures var c := QuadraticFit(xs, ys, BATCH_THRESHOLD);
            if |Distinct(xs)| < 3 || AnyBelow(FitPivots(xs, 2), BATCH_THRESHOLD) then c == [0.0, 0.0, 0.0]
            else b != c ==> Sse(Design(xs, 2), 3, ys, c) < Sse(Design(xs, 2), 3, ys, b)
  {
    QuadraticFitExactly(xs, ys, BATCH_THRESHOLD, b);
  }
}
