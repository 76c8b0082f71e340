/**
 Floor division and remainder by a positive divisor, and squares, defined by repeated subtraction and
 addition so that proofs about them stay linear.  They agree with the built-in operators, which for a
 positive divisor also round towards minus infinity.
*/
module FloorArithmetic {

  function Mod(x: int, n: int): (r: int)
    requires n > 0
    ensures 0 <= r < n
    decreases if x < 0 then n - x else x
  {
    if x < 0 then Mod(x + n, n) else if x < n then x else Mod(x - n, n)
  }

  function Div(x: int, n: int): int
    requires n > 0
    decreases if x < 0 then n - x else x
  {
    if x < 0 then Div(x + n, n) - 1 else if x < n then 0 else Div(x - n, n) + 1
  }

  lemma {:induction false} DivModDecompose(x: int, n: int)
    requires n > 0
    ensures Div(x, n) * n + Mod(x, n) == x
    decreases if x < 0 then n - x else x
  {
    if x < 0 {
      DivModDecompose(x + n, n);
      assert (Div(x, n) + 1) * n == Div(x, n) * n + n;
    } else if x >= n {
      DivModDecompose(x - n, n);
      assert (Div(x, n) - 1) * n == Div(x, n) * n - n;
    }
  }

  lemma {:induction false} DivModUnique(q: int, r: int, n: int)
    requires 0 <= r < n
    ensures Div(q * n + r, n) == q && Mod(q * n + r, n) == r
    decreases if q < 0 then -q else q
  {
    if q > 0 {
      DivModUnique(q - 1, r, n);
      assert (q - 1) * n == q * n - n;
      ProductNonNegative(q - 1, n);
    } else if q < 0 {
      DivModUnique(q + 1, r, n);
      assert (q + 1) * n == q * n + n;
      ProductNonNegative(-1 - q, n);
      assert (-1 - q) * n == -(q * n) - n;
    }
  }

  lemma EuclideanIdentity(x: int, n: int)
    requires n > 0
    ensures x / n * n + x % n == x
  {
  }

  /** For a positive divisor the built-in operators round towards minus infinity, and so do these. */
  lemma BuiltIn(x: int, n: int)
    requires n > 0
    ensures Div(x, n) == x / n && Mod(x, n) == x % n
  {
    EuclideanIdentity(x, n);
    DivModUnique(x / n, x % n, n);
  }

  lemma ModStep(x: int, n: int)
    requires n > 0
    ensures Mod(x + n, n) == Mod(x, n)
  {
  }

  lemma {:induction false} ModShift(x: int, y: int, k: int, n: int)
    requires n > 0 && y == x + k * n
    ensures Mod(y, n) == Mod(x, n)
    decreases if k < 0 then -k else k
  {
    if k > 0 {
      assert (k - 1) * n == k * n - n;
      ModShift(x, y - n, k - 1, n);
      ModStep(y - n, n);
    } else if k < 0 {
      assert (k + 1) * n == k * n + n;
      ModShift(x, y + n, k + 1, n);
      ModStep(y, n);
    }
  }

  lemma ModDrop(a: int, c: int, n: int)
    requires n > 0
    ensures Mod(Mod(a, n) + c, n) == Mod(a + c, n)
  {
    DivModDecompose(a, n);
    ModShift(Mod(a, n) + c, a + c, Div(a, n), n);
  }

  /** Adding c and taking it away again. */
  lemma ModCancel(b: int, c: int, n: int)
    requires 0 <= b < n
    ensures Mod(Mod(b + c, n) - c, n) == b
  {
    ModDrop(b + c, -c, n);
  }

  /** Taking c away and adding it again. */
  lemma ModRestore(a: int, c: int, n: int)
    requires 0 <= a < n
    ensures Mod(Mod(a - c, n) + c, n) == a
  {
    ModDrop(a - c, c, n);
  }

  lemma ProductNonNegative(x: int, y: int)
    requires 0 <= x && 0 <= y
    ensures 0 <= x * y
  {
  }

  lemma ProductBound(a: int, b: int, n: int, r: int)
    requires 0 <= a < b && 0 <= r < n
    ensures 0 <= a * n + r < b * n
  {
    var c := b - 1 - a;
    ProductNonNegative(a, n);
    ProductNonNegative(c, n);
    assert b * n == (a + c + 1) * n == a * n + c * n + n;
  }

  lemma DivBound(x: nat, b: nat, n: int)
    requires n > 0
    ensures 0 <= Div(x, n)
    ensures x < b * n ==> Div(x, n) < b
  {
    var q := Div(x, n);
    DivModDecompose(x, n);
    DivNonNegative(x, n);
    if q >= b {
      ProductNonNegative(q - b, n);
      assert q * n == b * n + (q - b) * n;
    }
  }

  lemma {:induction false} DivNonNegative(x: nat, n: int)
    requires n > 0
    ensures 0 <= Div(x, n)
    decreases x
  {
    if x >= n {
      DivNonNegative(x - n, n);
    }
  }

  function Squared(x: nat): nat {
    if x == 0 then 0 else Squared(x - 1) + 2 * x - 1
  }

  lemma {:induction false} SquaredIsProduct(x: nat)
    ensures Squared(x) == x * x
  {
    if x > 0 {
      SquaredIsProduct(x - 1);
      assert x * x == (x - 1) * (x - 1) + 2 * x - 1;
    }
  }

  lemma {:induction false} SquaredIncreases(a: nat, b: nat)
    requires a < b
    ensures Squared(a) < Squared(b)
    decreases b
  {
    if a < b - 1 {
      SquaredIncreases(a, b - 1);
    }
  }

  /** Comparing squares compares their roots. */
  lemma SquaredOrder(a: nat, b: nat)
    ensures Squared(a) < Squared(b) <==> a < b
  {
    if a < b {
      SquaredIncreases(a, b);
    } else if b < a {
      SquaredIncreases(b, a);
    }
  }

  /** The integer square root. */
  function Isqrt(n: nat): (r: nat)
    ensures Squared(r) <= n < Squared(r + 1)
  {
    if n == 0 then 0
    else
      var r := Isqrt(n - 1);
      if Squared(r + 1) <= n then r + 1 else r
  }
}
