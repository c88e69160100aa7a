/** How wide the band of the trend is (`forecast_linear` in app/services/analytics_service.py), in closed form. */
module TrendBand {
  import opened Arithmetic
  import opened Trend

  /** A square root over the reals. */
  ghost predicate IsSquareRoot(sqrt: real -> real) {
    forall x :: x >= 0.0 ==> sqrt(x) >= 0.0 && Square(sqrt(x)) == x
  }

  lemma RootOfZero(sqrt: real -> real)
    requires IsSquareRoot(sqrt)
    ensures IsRoot(sqrt)
  {
    hide Square;
    assert Square(sqrt(0.0)) == 0.0;
    SquareNonNegative(sqrt(0.0));
  }

  // ---- The points 0, 1, ... n - 1 ----

  lemma {:induction false} SumIs(n: nat)
    ensures SumX(n) == n as real * (n as real - 1.0) / 2.0
  {
    if n > 0 {
      SumIs(n - 1);
      var k := (n - 1) as real;
      assert n as real == k + 1.0;
      assert k * (k - 1.0) / 2.0 + k == (k + 1.0) * k / 2.0;
    }
  }

  lemma Cancelled(a: real, c: real, sum: real)
    requires a > 0.0 && sum == a * c
    ensures sum / a == c
  {
    DivideBack(sum, a);
    SameFactor(a, sum / a, c);
  }

  lemma MeanIs(n: nat)
    requires n > 0
    ensures MeanX(n) == (n as real - 1.0) / 2.0
  {
    SumIs(n);
    Cancelled(n as real, (n as real - 1.0) / 2.0, SumX(n));
  }

  /** The sum of squared distances from any point. */
  function SpreadAbout(n: real, mx: real): real {
    n * (n - 1.0) * (2.0 * n - 1.0) / 6.0 - mx * n * (n - 1.0) + n * mx * mx
  }

  lemma SpreadStep(k: real, mx: real)
    ensures SpreadAbout(k, mx) + Square(k - mx) == SpreadAbout(k + 1.0, mx)
  {
    var a, b := k * k, k * mx;
    assert k * (k - 1.0) * (2.0 * k - 1.0) == 2.0 * (k * a) - 3.0 * a + k;
    assert (k + 1.0) * k * (2.0 * k + 1.0) == 2.0 * (k * a) + 3.0 * a + k;
    assert mx * k * (k - 1.0) == b * k - b && mx * (k + 1.0) * k == b * k + b;
    assert (k + 1.0) * mx * mx == k * mx * mx + mx * mx;
    assert Square(k - mx) == a - 2.0 * b + mx * mx;
    assert 2.0 * (k + 1.0) - 1.0 == 2.0 * k + 1.0 && (k + 1.0) - 1.0 == k;
  }

  lemma {:induction false} SpreadIs(n: nat, mx: real)
    ensures SumXX(n, mx) == SpreadAbout(n as real, mx)
  {
    hide Square;
    if n > 0 {
      hide SpreadAbout;
      SpreadIs(n - 1, mx);
      SpreadStep((n - 1) as real, mx);
      assert (n - 1) as real + 1.0 == n as real;
    }
  }

  lemma AboutHalf(n: real, m: real)
    requires m == (n - 1.0) / 2.0
    ensures SpreadAbout(n, m) == n * (n * n - 1.0) / 12.0
  {
    var a := n * n;
    var c := n * a;
    assert n * (n - 1.0) == a - n && n * (a - n) == c - a;
    assert n * (n - 1.0) * (2.0 * n - 1.0) == 2.0 * c - 3.0 * a + n;
    assert m * n == (a - n) / 2.0;
    assert m * n * (n - 1.0) == (c - 2.0 * a + n) / 2.0;
    assert n * m * m == (c - 2.0 * a + n) / 4.0;
    assert SpreadAbout(n, m) == (2.0 * c - 3.0 * a + n) / 6.0 - (c - 2.0 * a + n) / 2.0 + (c - 2.0 * a + n) / 4.0;
    assert n * (a - 1.0) == c - n;
  }

  function Cubic(n: real): real { n * (n * n - 1.0) }

  /** About their mean the squared distances of n points add up to n (n^2 - 1) / 12. */
  lemma SpreadAboutMean(n: nat)
    requires n > 0
    ensures SumXX(n, MeanX(n)) == Cubic(n as real) / 12.0
  {
    MeanIs(n);
    SpreadIs(n, MeanX(n));
    AboutHalf(n as real, MeanX(n));
  }

  // ---- The band ----

  lemma CubicPositive(k: real)
    requires k >= 2.0
    ensures Cubic(k) > 0.0
  {
    RealProduct(k - 1.0, k + 1.0);
    var a := k * k - 1.0;
    assert a == (k - 1.0) * (k + 1.0);
    RealProduct(k, a);
  }

  /** Squared, over the square of 1.96 and the variance: 1 + 1/n + 12 (x - (n - 1)/2)^2 / (n (n^2 - 1)). */
  function Widening(n: nat, x: int): real
    requires n >= 2
  {
    var k, d := n as real, x as real - (n as real - 1.0) / 2.0;
    CubicPositive(k);
    1.0 + 1.0 / k + 12.0 * Square(d) / Cubic(k)
  }

  lemma Twelfth(d: real, c: real)
    requires c > 0.0
    ensures d / (c / 12.0) == 12.0 * d / c
  {}

  lemma UnderRoot(n: nat, x: int)
    requires n >= 2
    ensures SumXX(n, MeanX(n)) > 0.0 && Widening(n, x) >= 1.0
    ensures 1.0 + 1.0 / n as real + Square(x as real - MeanX(n)) / SumXX(n, MeanX(n)) == Widening(n, x)
  {
    hide SumXX, Square, MeanX, Cubic;
    var k := n as real;
    var c, d := Cubic(k), Square(x as real - MeanX(n));
    MeanIs(n);
    SpreadAboutMean(n);
    SpreadPositive(n, MeanX(n));
    CubicPositive(k);
    Twelfth(d, c);
    assert SumXX(n, MeanX(n)) == c / 12.0;
    assert Widening(n, x) == 1.0 + 1.0 / k + 12.0 * d / c;
    SquareNonNegative(x as real - MeanX(n));
    RealQuotient(1.0, k);
    RealQuotient(12.0 * d, c);
  }

  lemma SquareOfProduct(a: real, b: real, c: real)
    ensures Square(a * b * c) == Square(a) * Square(b) * Square(c)
  {
    var x := a * b;
    assert Square(x * c) == (x * x) * (c * c);
    assert x * x == (a * a) * (b * b);
  }

  lemma BandProduct(se: real, root: real, v: real, w: real)
    requires Square(se) == v && Square(root) == w
    ensures Square(1.96 * se * root) == 1.96 * 1.96 * v * w
  {
    SquareOfProduct(1.96, se, root);
    assert Square(1.96) == 1.96 * 1.96;
    hide Square;
    assert Square(1.96) * v * w == 1.96 * 1.96 * v * w;
  }

  /** Degrees of freedom, at least one. */
  function Freedom(n: nat): nat { if n >= 3 then n - 2 else 1 }

  /**
   The band, squared, is the square of 1.96 times the variance of the residuals of the best line, with n - 2 degrees
   of freedom, times what the distance from the middle of the points makes of it.
   */
  lemma BandIs(ys: seq<real>, sqrt: real -> real, x: int)
    requires |ys| >= 2 && IsSquareRoot(sqrt)
    ensures Band(ys, sqrt, x) >= 0.0
    ensures Square(Band(ys, sqrt, x))
         == 1.96 * 1.96 * (Ssr(ys, Fit(ys)) / Freedom(|ys|) as real) * Widening(|ys|, x)
  {
    hide Ssr, Fit, SumXX, MeanX, Widening;
    RootOfZero(sqrt);
    BandNonNegative(ys, sqrt, x);
    SsrNonNegative(ys, Fit(ys));
    RealQuotient(Ssr(ys, Fit(ys)), Freedom(|ys|) as real);
    UnderRoot(|ys|, x);
    var se, root, v := StandardError(ys, sqrt), sqrt(Widening(|ys|, x)), Ssr(ys, Fit(ys)) / Freedom(|ys|) as real;
    BandProduct(se, root, v, Widening(|ys|, x));
  }

  lemma SmallerSquare(a: real, b: real)
    requires a >= 0.0 && b >= 0.0 && Square(a) <= Square(b)
    ensures a <= b
    ensures Square(a) < Square(b) ==> a < b
  {
    if a > b {
      TimesLarger(a, b, a);
      if b > 0.0 { TimesLarger(b, b, a); }
      TimesCommutes(a, b);
    }
  }

  lemma NextSquare(d: real)
    requires d > 0.0
    ensures Square(d) < Square(d + 1.0)
  {
    assert (d + 1.0) * (d + 1.0) == d * d + 2.0 * d + 1.0;
  }

  lemma Quotients(x: real, y: real, a: real)
    requires x < y && a > 0.0
    ensures x / a < y / a
  {
    RealQuotient(y - x, a);
    assert y / a - x / a == (y - x) / a;
  }

  lemma WideningGrows(n: nat, x: int)
    requires n >= 2 && x >= n
    ensures Widening(n, x) < Widening(n, x + 1)
  {
    hide Square, Cubic;
    var k, d := n as real, x as real - (n as real - 1.0) / 2.0;
    var c := Cubic(k);
    CubicPositive(k);
    assert d > 0.0;
    NextSquare(d);
    Quotients(12.0 * Square(d), 12.0 * Square(d + 1.0), c);
    assert (x + 1) as real - (k - 1.0) / 2.0 == d + 1.0;
  }

  lemma ScaledGrows(a: real, x: real, y: real)
    requires a >= 0.0 && x < y
    ensures a * x <= a * y && (a > 0.0 ==> a * x < a * y)
  {
    RealProduct(a, y - x);
    assert a * y == a * x + a * (y - x);
  }

  /** The further ahead, the wider the band, unless the points lie on a line. */
  lemma BandWidens(ys: seq<real>, sqrt: real -> real, x: int)
    requires |ys| >= 2 && IsSquareRoot(sqrt) && x >= |ys|
    ensures Band(ys, sqrt, x) <= Band(ys, sqrt, x + 1)
    ensures Ssr(ys, Fit(ys)) > 0.0 ==> Band(ys, sqrt, x) < Band(ys, sqrt, x + 1)
  {
    hide Ssr, Fit, Widening, Band, Square;
    var v := 1.96 * 1.96 * (Ssr(ys, Fit(ys)) / Freedom(|ys|) as real);
    SsrNonNegative(ys, Fit(ys));
    RealQuotient(Ssr(ys, Fit(ys)), Freedom(|ys|) as real);
    BandIs(ys, sqrt, x);
    BandIs(ys, sqrt, x + 1);
    WideningGrows(|ys|, x);
    ScaledGrows(v, Widening(|ys|, x), Widening(|ys|, x + 1));
    SmallerSquare(Band(ys, sqrt, x), Band(ys, sqrt, x + 1));
  }

  // ---- A point of the forecast ----

  /** A whole number of hundredths. */
  predicate InCents(x: real) {
    (x * 100.0).Floor as real == x * 100.0
  }

  lemma Cents(x: real)
    ensures -0.005 <= Round2(x) - x <= 0.005 && InCents(Round2(x))
  {
    hide RoundHalfEven;
    RoundIsNearest(x * 100.0);
    var n := RoundHalfEven(x * 100.0);
    assert Round2(x) * 100.0 == n as real && (n as real).Floor == n;
  }

  /** Each point is in whole hundredths, and nearest to the line and to the ends of the band, cut off at nought. */
  lemma PointIs(ys: seq<real>, sqrt: real -> real, x: int, lower: real, value: real, upper: real)
    requires PointOk(ys, sqrt, x, lower, value, upper)
    ensures var line, b := Fit(ys).At(x as real), Band(ys, sqrt, x);
            var p := if line >= 0.0 then line else 0.0;
            && -0.005 <= value - p <= 0.005 && -0.005 <= upper - (p + b) <= 0.005
            && (if p >= b then -0.005 <= lower - (p - b) <= 0.005 else lower == 0.0)
    ensures InCents(value) && InCents(lower) && InCents(upper)
  {
    hide Fit, Band, Round2;
    var p, b := Predicted(ys, x), Band(ys, sqrt, x);
    Cents(p);
    Cents(p + b);
    Cents(AtLeastZero(p - b));
    Round2Monotone(0.0, 0.0);
  }
}
