/** Real polynomials as coefficient sequences, lowest power first, and how many roots they can have. */
module Polynomials {
  import opened RealVectors

  function Pow(x: real, power: nat): real {
    if power == 0 then 1.0 else x * Pow(x, power - 1)
  }

  /** [1, x, x^2, ..., x^degree] */
  function Powers(x: real, degree: nat): (r: seq<real>)
    ensures |r| == degree + 1
  {
    seq(degree + 1, p requires 0 <= p => Pow(x, p))
  }

  function Eval(p: seq<real>, x: real): real {
    if p == [] then 0.0 else p[0] + x * Eval(p[1..], x)
  }

  /** The sum over powers that the fitter computes is the polynomial's value. */
  lemma PowerSumIsEval(p: seq<real>, x: real)
    requires |p| > 0
    ensures Dot(Powers(x, |p| - 1), p) == Eval(p, x)
  {
    EvalPrefix(p, x, |p|);
    assert p[|p|..] == [];
  }

  lemma {:induction false} EvalPrefix(p: seq<real>, x: real, k: nat)
    requires 0 < |p| && k <= |p|
    ensures Eval(p, x) == DotTo(Powers(x, |p| - 1), p, k) + Pow(x, k) * Eval(p[k..], x)
  {
    if k == 0 {
      assert p[0..] == p;
    } else {
      EvalPrefix(p, x, k - 1);
      hide Pow;
      var tail := p[k - 1..];
      assert tail[0] == p[k - 1] && tail[1..] == p[k..];
      PowNext(x, k);
      var e, w := Eval(p[k..], x), Pow(x, k - 1);
      Horner(w, p[k - 1], x, e);
    }
  }

  lemma PowNext(x: real, k: nat)
    requires k > 0
    ensures Pow(x, k) == x * Pow(x, k - 1)
  {
  }

  lemma Horner(w: real, c: real, x: real, e: real)
    ensures w * (c + x * e) == w * c + (x * w) * e
  {
  }

  /** The quotient of p by (X - a), by synthetic division. */
  function Quotient(p: seq<real>, a: real): (q: seq<real>)
    ensures |q| == if p == [] then 0 else |p| - 1
  {
    if |p| <= 1 then [] else [Eval(p[1..], a)] + Quotient(p[1..], a)
  }

  lemma {:induction false} DivisionIdentity(p: seq<real>, a: real, x: real)
    requires |p| > 0
    ensures Eval(p, x) - Eval(p, a) == (x - a) * Eval(Quotient(p, a), x)
  {
    if |p| == 1 {
      assert p[1..] == [];
    } else {
      var t := p[1..];
      DivisionIdentity(t, a, x);
      var q := Quotient(p, a);
      assert q[0] == Eval(t, a) && q[1..] == Quotient(t, a);
      DivisionStep(p[0], x, a, Eval(t, x), Eval(t, a), Eval(Quotient(t, a), x));
    }
  }

  lemma DivisionStep(p0: real, x: real, a: real, tx: real, ta: real, e: real)
    requires tx - ta == (x - a) * e
    ensures (p0 + x * tx) - (p0 + a * ta) == (x - a) * (ta + x * e)
  {
    assert x * tx == x * ta + x * ((x - a) * e);
    assert x * ((x - a) * e) == (x - a) * (x * e);
    assert (x - a) * (ta + x * e) == (x - a) * ta + (x - a) * (x * e);
  }

  lemma EmptyByMembership(s: set<real>)
    ensures (forall a :: a !in s) ==> s == {}
  {
    if forall a :: a !in s {
      assert s == {};
    }
  }

  lemma NonEmptyHasElement(s: set<real>)
    requires |s| > 0
    ensures exists a :: a in s
  {
    EmptyByMembership(s);
  }

  lemma {:induction false} ZeroQuotient(p: seq<real>, a: real)
    requires IsZero(Quotient(p, a))
    ensures |p| > 0 ==> IsZero(p[1..])
  {
    if |p| > 1 {
      var t, q := p[1..], Quotient(p, a);
      assert q[1..] == Quotient(t, a);
      assert forall i :: 0 <= i < |q[1..]| ==> q[1..][i] == q[i + 1];
      ZeroQuotient(t, a);
      EvalZero(t[1..], a);
      assert q[0] == Eval(t, a) == t[0];
      forall i | 0 <= i < |t| ensures t[i] == 0.0 {
        if i > 0 {
          assert t[i] == t[1..][i - 1];
        }
      }
    }
  }

  lemma {:induction false} EvalZero(p: seq<real>, x: real)
    requires IsZero(p)
    ensures Eval(p, x) == 0.0
  {
    if p != [] {
      EvalZero(p[1..], x);
    }
  }

  /** A polynomial with as many roots as coefficients is the zero polynomial. */
  lemma {:induction false} TooManyRoots(p: seq<real>, roots: set<real>)
    requires |roots| >= |p|
    requires forall x :: x in roots ==> Eval(p, x) == 0.0
    ensures IsZero(p)
    decreases |p|
  {
    if p != [] {
      NonEmptyHasElement(roots);
      var a :| a in roots;
      var q := Quotient(p, a);
      var rest := roots - {a};
      forall x | x in rest ensures Eval(q, x) == 0.0 {
        DivisionIdentity(p, a, x);
        ProductZero(x - a, Eval(q, x));
      }
      assert |rest| == |roots| - 1;
      TooManyRoots(q, rest);
      ZeroQuotient(p, a);
      EvalZero(p[1..], a);
      assert p[0] == Eval(p, a) == 0.0;
      forall i | 0 <= i < |p| ensures p[i] == 0.0 {
        if i > 0 {
          assert p[i] == p[1..][i - 1];
        }
      }
    }
  }

  lemma ProductZero(a: real, b: real)
    requires a != 0.0 && a * b == 0.0
    ensures b == 0.0
  {
  }

  /** (X - a) * p */
  function TimesRoot(p: seq<real>, a: real): (r: seq<real>)
    ensures |r| == |p| + 1
  {
    Subtract([0.0] + p, a, p + [0.0])
  }

  lemma {:induction false} EvalSubtract(u: seq<real>, factor: real, v: seq<real>, x: real)
    requires |u| == |v|
    ensures Eval(Subtract(u, factor, v), x) == Eval(u, x) - factor * Eval(v, x)
  {
    if u != [] {
      EvalSubtract(u[1..], factor, v[1..], x);
      SubtractTail(u, factor, v);
      SubtractStep(u[0], factor, v[0], x, Eval(u[1..], x), Eval(v[1..], x));
    }
  }

  lemma SubtractTail(u: seq<real>, factor: real, v: seq<real>)
    requires |u| == |v| > 0
    ensures Subtract(u, factor, v)[0] == u[0] - factor * v[0]
    ensures Subtract(u, factor, v)[1..] == Subtract(u[1..], factor, v[1..])
  {
    var whole, tail := Subtract(u, factor, v), Subtract(u[1..], factor, v[1..]);
    forall i | 0 <= i < |tail| ensures whole[1..][i] == tail[i] {
      assert whole[1..][i] == whole[i + 1];
      assert u[1..][i] == u[i + 1] && v[1..][i] == v[i + 1];
    }
  }

  lemma SubtractStep(u0: real, factor: real, v0: real, x: real, u: real, v: real)
    ensures (u0 - factor * v0) + x * (u - factor * v) == (u0 + x * u) - factor * (v0 + x * v)
  {
    assert x * (u - factor * v) == x * u - x * (factor * v);
    assert factor * (v0 + x * v) == factor * v0 + x * (factor * v);
  }

  lemma EvalTimesRoot(p: seq<real>, a: real, x: real)
    ensures Eval(TimesRoot(p, a), x) == (x - a) * Eval(p, x)
  {
    EvalSubtract([0.0] + p, a, p + [0.0], x);
    assert ([0.0] + p)[1..] == p;
    EvalPadded(p, 1, x);
    assert seq(1, _ => 0.0) == [0.0];
  }

  /** A nonzero polynomial with |roots| + 1 coefficients that vanishes on every root. */
  lemma {:induction false} VanishingPolynomial(roots: set<real>) returns (p: seq<real>)
    ensures |p| == |roots| + 1 && p[|p| - 1] == 1.0
    ensures forall x :: x in roots ==> Eval(p, x) == 0.0
    decreases |roots|
  {
    if |roots| == 0 {
      p := [1.0];
    } else {
      NonEmptyHasElement(roots);
      var a :| a in roots;
      assert |roots - {a}| == |roots| - 1;
      var q := VanishingPolynomial(roots - {a});
      p := TimesRoot(q, a);
      forall x | x in roots ensures Eval(p, x) == 0.0 {
        EvalTimesRoot(q, a, x);
        if x != a {
          assert x in roots - {a};
        }
      }
    }
  }

  lemma {:induction false} EvalPadded(p: seq<real>, zeros: nat, x: real)
    ensures Eval(p + seq(zeros, _ => 0.0), x) == Eval(p, x)
  {
    var z := seq(zeros, _ => 0.0);
    if p == [] {
      assert p + z == z;
      EvalZero(z, x);
    } else {
      assert (p + z)[1..] == p[1..] + z;
      EvalPadded(p[1..], zeros, x);
    }
  }
}
