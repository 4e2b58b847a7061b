/**
 * The arithmetic that the analyzer takes from numpy, over exact reals:
 * sums, the population mean and variance (np.mean, np.var, np.std squared)
 * and the closed-form least-squares slope. Rounding, NaN inputs and
 * overflow are not modelled; the square root is an oracle (see IsSqrt).
 */
module Numerics {

  function Abs(x: real): (r: real)
    ensures r >= 0.0 && (r == x || r == -x)
  {
    if x < 0.0 then -x else x
  }

  function Min(a: real, b: real): (r: real)
    ensures r <= a && r <= b && (r == a || r == b)
  {
    if a <= b then a else b
  }

  /** An exact square root on the nonnegative reals: what np.std relies on. */
  ghost predicate IsSqrt(sqrt: real -> real)
  {
    forall x :: 0.0 <= x ==> sqrt(x) >= 0.0 && sqrt(x) * sqrt(x) == x
  }

  /** np.sum */
  function Sum(xs: seq<real>): real
  {
    if xs == [] then 0.0 else xs[0] + Sum(xs[1..])
  }

  /** np.sum(x * y) */
  function Dot(xs: seq<real>, ys: seq<real>): real
    requires |xs| == |ys|
  {
    if xs == [] then 0.0 else xs[0] * ys[0] + Dot(xs[1..], ys[1..])
  }

  /** np.mean */
  function Mean(xs: seq<real>): real
    requires |xs| > 0
  {
    Sum(xs) / |xs| as real
  }

  // Products are written through these two functions wherever they meet sums,
  // so that the solver treats a product of two sums as one term and the
  // algebra below stays linear in such terms.
  function Mul(a: real, b: real): real
  {
    a * b
  }

  function Square(d: real): real
  {
    d * d
  }

  /** The sum of squared distances of the elements of xs from c. */
  function SquaredDeviations(xs: seq<real>, c: real): real
  {
    if xs == [] then 0.0 else Square(xs[0] - c) + SquaredDeviations(xs[1..], c)
  }

  /** np.var: the population variance (divides by n, not n - 1). */
  function Variance(xs: seq<real>): real
    requires |xs| > 0
  {
    SquaredDeviations(xs, Mean(xs)) / |xs| as real
  }

  /** The numerator n·Σxy − Σx·Σy of the closed-form least-squares slope. */
  function OlsNumerator(xs: seq<real>, ys: seq<real>): real
    requires |xs| == |ys|
  {
    Mul(|xs| as real, Dot(xs, ys)) - Mul(Sum(xs), Sum(ys))
  }

  /** The denominator n·Σx² − (Σx)² of the closed-form least-squares slope. */
  function OlsDenominator(xs: seq<real>): real
  {
    Mul(|xs| as real, Dot(xs, xs)) - Square(Sum(xs))
  }

  /** Every element of xs equals its first one. */
  predicate Constant(xs: seq<real>)
  {
    forall i :: 0 <= i < |xs| ==> xs[i] == xs[0]
  }

  // Laws of multiplication over plain reals, each stated with Mul terms.

  lemma MulPositive(a: real, b: real)
    requires a > 0.0 && b > 0.0
    ensures Mul(a, b) > 0.0
  {
  }

  lemma MulCommute(a: real, b: real)
    ensures Mul(a, b) == Mul(b, a)
  {
  }

  lemma MulDistribute(k: real, s: real, x: real, p: real)
    requires s == x + p
    ensures Mul(k, s) == Mul(k, x) + Mul(k, p)
  {
  }

  lemma MulDistributeLeft(s: real, x: real, p: real, k: real)
    requires s == x + p
    ensures Mul(s, k) == Mul(x, k) + Mul(p, k)
  {
  }

  lemma SquareOfSum(s: real, x: real, p: real)
    requires s == x + p
    ensures Square(s) == Square(x) + 2.0 * Mul(x, p) + Square(p)
  {
  }

  lemma SquareOfDifference(x: real, c: real)
    ensures Square(x - c) == Square(x) - 2.0 * Mul(c, x) + Square(c)
  {
  }

  lemma SquareNegate(d: real)
    ensures Square(-d) == Square(d)
  {
  }

  /** A square is never negative, and it is zero only at zero. */
  lemma SquareFacts(d: real)
    ensures Square(d) >= 0.0
    ensures Square(d) == 0.0 <==> d == 0.0
  {
    if d != 0.0 {
      var e := if d > 0.0 then d else -d;
      MulPositive(e, e);
      assert Square(e) == Mul(e, e);
      SquareNegate(d);
    }
  }

  lemma DivideMultiply(p: real, n: real)
    requires n > 0.0
    ensures Mul(p / n, n) == p
  {
  }

  lemma DivideCancel(n: real, a: real)
    requires n > 0.0
    ensures Mul(n, a) / n == a
  {
  }

  /** Multiplying by a positive factor preserves the sign. */
  lemma ScaledSign(k: real, v: real, d: real)
    requires k > 0.0 && Mul(v, k) == d
    ensures v >= 0.0 <==> d >= 0.0
    ensures v == 0.0 <==> d == 0.0
  {
    MulCommute(v, k);
    if v > 0.0 {
      MulPositive(k, v);
    } else if v < 0.0 {
      MulPositive(k, -v);
      assert Mul(k, -v) == -d;
    }
  }

  lemma AbsSquare(q: real)
    ensures Square(Abs(q)) == Square(q)
  {
    if q < 0.0 { SquareNegate(q); }
  }

  /** On the nonnegative reals, squaring preserves strict order in both directions. */
  lemma SquareMonotone(a: real, b: real)
    requires a >= 0.0 && b >= 0.0
    ensures a > b <==> Square(a) > Square(b)
  {
    assert Square(a) - Square(b) == Mul(a - b, a + b);
    if a > b {
      MulPositive(a - b, a + b);
    } else if a < b {
      MulPositive(b - a, b + a);
      assert Mul(b - a, b + a) == Square(b) - Square(a);
    }
  }

  lemma SquareOfProduct(q: real, s: real)
    ensures Square(Mul(q, s)) == Mul(Square(q), Square(s))
  {
  }

  /** Multiplying both sides by a positive factor keeps a strict inequality, in both directions. */
  lemma ScaleStrict(k: real, a: real, b: real)
    requires k > 0.0
    ensures a > b <==> Mul(a, k) > Mul(b, k)
  {
    assert Mul(a, k) - Mul(b, k) == Mul(a - b, k);
    if a > b {
      MulPositive(a - b, k);
    } else if a < b {
      MulPositive(b - a, k);
      assert Mul(b - a, k) == Mul(b, k) - Mul(a, k);
    }
  }

  /**
   * With std the exact root of a positive variance, |d / std| > t holds
   * exactly when d² > t²·variance: the z-score test without a square root.
   */
  lemma ScoreIffSquare(d: real, variance: real, t: real, sqrt: real -> real)
    requires IsSqrt(sqrt) && variance > 0.0 && t >= 0.0
    ensures sqrt(variance) > 0.0
    ensures Abs(d / sqrt(variance)) > t <==> Square(d) > Mul(Square(t), variance)
  {
    var s := sqrt(variance);
    assert Square(s) == variance;
    SquareFacts(s);
    var q := d / s;
    DivideMultiply(d, s);
    AbsSquare(q);
    SquareMonotone(Abs(q), t);
    SquareOfProduct(q, s);
    ScaleStrict(variance, Square(q), Square(t));
  }

  /** A point of y = α + β·x contributes α·x + β·x² to Σxy. */
  lemma LinePoint(x: real, y: real, alpha: real, beta: real)
    requires y == alpha + beta * x
    ensures Mul(x, y) == Mul(alpha, x) + Mul(beta, Square(x))
  {
  }

  lemma NumeratorAlgebra(n: real, a: real, b: real, sx: real, sy: real, sxy: real, sxx: real)
    requires sy == Mul(n, a) + Mul(b, sx) && sxy == Mul(a, sx) + Mul(b, sxx)
    ensures Mul(n, sxy) - Mul(sx, sy) == Mul(b, Mul(n, sxx) - Square(sx))
  {
    calc {
      Mul(n, sxy) - Mul(sx, sy);
      n * (a * sx + b * sxx) - sx * (n * a + b * sx);
      b * (n * sxx - sx * sx);
    }
  }

  lemma {:induction false} SquaredDeviationsNonNegative(xs: seq<real>, c: real)
    ensures SquaredDeviations(xs, c) >= 0.0
    ensures SquaredDeviations(xs, c) == 0.0 <==> forall i :: 0 <= i < |xs| ==> xs[i] == c
  {
    if xs != [] {
      SquaredDeviationsNonNegative(xs[1..], c);
      SquareFacts(xs[0] - c);
      if SquaredDeviations(xs, c) == 0.0 {
        forall i | 0 <= i < |xs| ensures xs[i] == c {
          if i > 0 { assert xs[1..][i - 1] == xs[i]; }
        }
      }
      if forall i :: 0 <= i < |xs| ==> xs[i] == c {
        forall i | 0 <= i < |xs[1..]| ensures xs[1..][i] == c {
          assert xs[1..][i] == xs[i + 1];
        }
      }
    }
  }

  /** Σ(x − c)² = Σx² − 2c·Σx + n·c² */
  lemma {:induction false} SquaredDeviationsExpand(xs: seq<real>, c: real)
    ensures SquaredDeviations(xs, c) == Dot(xs, xs) - 2.0 * Mul(c, Sum(xs)) + Mul(|xs| as real, Square(c))
  {
    if xs != [] {
      SquaredDeviationsExpand(xs[1..], c);
      ExpandFirst(xs, c);
    }
  }

  /** The inductive step of SquaredDeviationsExpand: the first element's share. */
  lemma {:induction false} ExpandFirst(xs: seq<real>, c: real)
    requires xs != []
    requires SquaredDeviations(xs[1..], c)
             == Dot(xs[1..], xs[1..]) - 2.0 * Mul(c, Sum(xs[1..])) + Mul(|xs[1..]| as real, Square(c))
    ensures SquaredDeviations(xs, c) == Dot(xs, xs) - 2.0 * Mul(c, Sum(xs)) + Mul(|xs| as real, Square(c))
  {
    SquareOfDifference(xs[0], c);
    assert Square(xs[0]) == xs[0] * xs[0];
    MulDistribute(c, Sum(xs), xs[0], Sum(xs[1..]));
    MulDistributeLeft(|xs| as real, 1.0, |xs[1..]| as real, Square(c));
  }

  /**
   * Prepending a to s raises the slope denominator by Σ(s_i − a)²; this step
   * is the inductive form of Lagrange's identity n·Σx² − (Σx)² = Σ_{i<j}(x_i − x_j)².
   */
  lemma {:induction false} DenominatorStep(a: real, s: seq<real>)
    ensures OlsDenominator([a] + s) == OlsDenominator(s) + SquaredDeviations(s, a)
  {
    var t := [a] + s;
    assert t[0] == a && t[1..] == s;
    assert Dot(t, t) == Square(a) + Dot(s, s);
    MulDistributeLeft(|t| as real, |s| as real, 1.0, Dot(t, t));
    MulDistribute(|s| as real, Dot(t, t), Square(a), Dot(s, s));
    SquareOfSum(Sum(t), a, Sum(s));
    SquaredDeviationsExpand(s, a);
  }

  /** The slope denominator is never negative, and it is zero exactly when all x are equal. */
  lemma {:induction false} DenominatorZeroIffConstant(xs: seq<real>)
    ensures OlsDenominator(xs) >= 0.0
    ensures OlsDenominator(xs) == 0.0 <==> Constant(xs)
  {
    if xs == [] {
    } else {
      var a, s := xs[0], xs[1..];
      assert xs == [a] + s;
      DenominatorStep(a, s);
      DenominatorZeroIffConstant(s);
      SquaredDeviationsNonNegative(s, a);
      if OlsDenominator(xs) == 0.0 {
        forall i | 0 <= i < |xs| ensures xs[i] == xs[0] {
          if i > 0 { assert s[i - 1] == xs[i]; }
        }
      }
      if Constant(xs) {
        forall i | 0 <= i < |s| ensures s[i] == a {
          assert s[i] == xs[i + 1];
        }
        assert SquaredDeviations(s, a) == 0.0;
        if s != [] {
          forall i | 0 <= i < |s| ensures s[i] == s[0] { }
        }
      }
    }
  }

  /** Elements that all equal c sum to n·c. */
  lemma {:induction false} SumOfEqual(xs: seq<real>, c: real)
    requires forall i :: 0 <= i < |xs| ==> xs[i] == c
    ensures Sum(xs) == Mul(|xs| as real, c)
  {
    if xs != [] {
      var r := xs[1..];
      forall i | 0 <= i < |r| ensures r[i] == c {
        assert r[i] == xs[i + 1];
      }
      SumOfEqual(r, c);
      MulDistributeLeft(|xs| as real, |r| as real, 1.0, c);
    }
  }

  /** The population variance is never negative, and it is zero exactly when all values are equal. */
  lemma {:induction false} VarianceZeroIffConstant(xs: seq<real>)
    requires |xs| > 0
    ensures Variance(xs) >= 0.0
    ensures Variance(xs) == 0.0 <==> Constant(xs)
  {
    var n, m := |xs| as real, Mean(xs);
    var d := SquaredDeviations(xs, m);
    SquaredDeviationsNonNegative(xs, m);
    DivideMultiply(d, n);
    ScaledSign(n, Variance(xs), d);
    if Constant(xs) {
      SumOfEqual(xs, xs[0]);
      DivideCancel(n, xs[0]);
      assert m == xs[0];
    }
  }

  /** The points (xs[i], ys[i]) all lie on the line y = a + b·x. */
  predicate OnLine(xs: seq<real>, ys: seq<real>, a: real, b: real)
    requires |xs| == |ys|
  {
    forall i :: 0 <= i < |xs| ==> ys[i] == a + b * xs[i]
  }

  lemma {:induction false} OnLineTail(xs: seq<real>, ys: seq<real>, a: real, b: real)
    requires |xs| == |ys| > 0 && OnLine(xs, ys, a, b)
    ensures OnLine(xs[1..], ys[1..], a, b) && ys[0] == a + b * xs[0]
  {
    forall i | 0 <= i < |xs[1..]| ensures ys[1..][i] == a + b * xs[1..][i] {
      assert ys[1..][i] == ys[i + 1] && xs[1..][i] == xs[i + 1];
    }
  }

  /** For points on the line y = α + β·x, Σy = n·α + β·Σx. */
  lemma {:induction false} LinearSum(xs: seq<real>, ys: seq<real>, alpha: real, beta: real)
    requires |xs| == |ys| && OnLine(xs, ys, alpha, beta)
    ensures Sum(ys) == Mul(|xs| as real, alpha) + Mul(beta, Sum(xs))
  {
    if xs != [] {
      var rx, ry := xs[1..], ys[1..];
      OnLineTail(xs, ys, alpha, beta);
      LinearSum(rx, ry, alpha, beta);
      MulDistributeLeft(|xs| as real, |rx| as real, 1.0, alpha);
      MulDistribute(beta, Sum(xs), xs[0], Sum(rx));
    }
  }

  /** For points on the line y = α + β·x, Σxy = α·Σx + β·Σx². */
  lemma {:induction false} LinearDot(xs: seq<real>, ys: seq<real>, alpha: real, beta: real)
    requires |xs| == |ys| && OnLine(xs, ys, alpha, beta)
    ensures Dot(xs, ys) == Mul(alpha, Sum(xs)) + Mul(beta, Dot(xs, xs))
  {
    if xs != [] {
      var rx, ry := xs[1..], ys[1..];
      OnLineTail(xs, ys, alpha, beta);
      LinearDot(rx, ry, alpha, beta);
      assert Dot(xs, ys) == Mul(xs[0], ys[0]) + Dot(rx, ry);
      assert Dot(xs, xs) == Square(xs[0]) + Dot(rx, rx);
      LinePoint(xs[0], ys[0], alpha, beta);
      MulDistribute(alpha, Sum(xs), xs[0], Sum(rx));
      MulDistribute(beta, Dot(xs, xs), Square(xs[0]), Dot(rx, rx));
    }
  }

  /** On points of y = α + β·x the slope numerator is β times the denominator. */
  lemma {:induction false} LinearNumerator(xs: seq<real>, ys: seq<real>, alpha: real, beta: real)
    requires |xs| == |ys| && OnLine(xs, ys, alpha, beta)
    ensures OlsNumerator(xs, ys) == Mul(beta, OlsDenominator(xs))
  {
    LinearSum(xs, ys, alpha, beta);
    LinearDot(xs, ys, alpha, beta);
    NumeratorAlgebra(|xs| as real, alpha, beta, Sum(xs), Sum(ys), Dot(xs, ys), Dot(xs, xs));
  }

  /** When every x is zero, Σx and Σxy vanish whatever y is. */
  lemma {:induction false} ZeroAbscissae(xs: seq<real>, ys: seq<real>)
    requires |xs| == |ys|
    requires forall i :: 0 <= i < |xs| ==> xs[i] == 0.0
    ensures Sum(xs) == 0.0 && Dot(xs, ys) == 0.0
  {
    if xs != [] {
      forall i | 0 <= i < |xs[1..]| ensures xs[1..][i] == 0.0 {
        assert xs[1..][i] == xs[i + 1];
      }
      ZeroAbscissae(xs[1..], ys[1..]);
    }
  }

}
