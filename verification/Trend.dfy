/** The least-squares trend with its band (`forecast_linear` in app/services/analytics_service.py), over the reals. */
module Trend {
  import opened Arithmetic

  // ---- Sums over the points (0, y0), (1, y1), ... ----

  function SumX(n: nat): real {
    if n == 0 then 0.0 else SumX(n - 1) + (n - 1) as real
  }

  function SumY(ys: seq<real>): real {
    if ys == [] then 0.0 else SumY(ys[..|ys| - 1]) + ys[|ys| - 1]
  }

  /** `sum((x - mx) ** 2 for x in xs)` */
  function SumXX(n: nat, mx: real): real {
    if n == 0 then 0.0 else SumXX(n - 1, mx) + Square((n - 1) as real - mx)
  }

  /** `sum((x - mx) * (y - my) for x, y in zip(xs, series))` */
  function SumXY(ys: seq<real>, mx: real, my: real): real {
    if ys == [] then 0.0
    else
      var n := |ys| - 1;
      SumXY(ys[..n], mx, my) + Times(n as real - mx, ys[n] - my)
  }

  // ---- The fitted line ----

  datatype Line = Line(intercept: real, slope: real) {
    function At(x: real): real { intercept + slope * x }
  }

  function Residual(l: Line, x: nat, y: real): real { y - l.At(x as real) }

  /** The sum of the squared residuals of a line. */
  function Ssr(ys: seq<real>, l: Line): real {
    if ys == [] then 0.0
    else
      var n := |ys| - 1;
      Ssr(ys[..n], l) + Square(Residual(l, n, ys[n]))
  }

  function MeanX(n: nat): real
    requires n > 0
  {
    SumX(n) / n as real
  }

  function MeanY(ys: seq<real>): real
    requires ys != []
  {
    SumY(ys) / |ys| as real
  }

  lemma {:induction false} SpreadPositive(n: nat, mx: real)
    ensures SumXX(n, mx) >= 0.0
    ensures n >= 2 ==> SumXX(n, mx) > 0.0
  {
    hide Square;
    if n > 0 {
      SpreadPositive(n - 1, mx);
      SquareNonNegative((n - 1) as real - mx);
      if n == 2 { SquareNonNegative(0.0 - mx); }
    }
  }

  function Fit(ys: seq<real>): Line
    requires |ys| >= 2
  {
    var mx, my := MeanX(|ys|), MeanY(ys);
    SpreadPositive(|ys|, mx);
    var slope := SumXY(ys, mx, my) / SumXX(|ys|, mx);
    Line(my - slope * mx, slope)
  }

  ghost function SumDevX(n: nat, mx: real): real {
    if n == 0 then 0.0 else SumDevX(n - 1, mx) + ((n - 1) as real - mx)
  }

  ghost function SumDevY(ys: seq<real>, my: real): real {
    if ys == [] then 0.0 else SumDevY(ys[..|ys| - 1], my) + (ys[|ys| - 1] - my)
  }

  /** Deviations from the mean cancel. */
  lemma {:induction false} DeviationsCancel(ys: seq<real>, my: real)
    ensures SumDevY(ys, my) == SumY(ys) - |ys| as real * my
    ensures SumDevX(|ys|, my) == SumX(|ys|) - |ys| as real * my
  {
    if ys != [] {
      var n := |ys| - 1;
      DeviationsCancel(ys[..n], my);
      assert |ys| as real * my == n as real * my + my;
    }
  }

  // ---- The fitted line against any other ----

  ghost function SumE(ys: seq<real>, f: Line): real {
    if ys == [] then 0.0 else SumE(ys[..|ys| - 1], f) + Residual(f, |ys| - 1, ys[|ys| - 1])
  }

  ghost function SumEX(ys: seq<real>, f: Line, mx: real): real {
    if ys == [] then 0.0
    else
      var n := |ys| - 1;
      SumEX(ys[..n], f, mx) + Times(n as real - mx, Residual(f, n, ys[n]))
  }

  /** The residuals times the distance of another line, and that distance squared. */
  ghost function Cross(ys: seq<real>, f: Line, d: Line, mx: real): real {
    if ys == [] then 0.0
    else
      var n := |ys| - 1;
      Cross(ys[..n], f, d, mx) + Times(Residual(f, n, ys[n]), d.At(n as real - mx))
  }

  ghost function Gap(n: nat, d: Line, mx: real): real {
    if n == 0 then 0.0 else Gap(n - 1, d, mx) + Square(d.At((n - 1) as real - mx))
  }

  lemma SquareOfSum(e: real, g: real)
    ensures Square(e + g) == Square(e) + 2.0 * Times(e, g) + Square(g)
  {}

  lemma TimesLine(e: real, d: Line, u: real)
    ensures Times(e, d.At(u)) == Times(d.intercept, e) + Times(d.slope, Times(u, e))
  {}

  /** Another line, as its distance from `f` about `mx`. */
  function Distance(f: Line, l: Line, mx: real): Line {
    Line(f.At(mx) - l.At(mx), f.slope - l.slope)
  }

  lemma ResidualOfOther(f: Line, l: Line, mx: real, x: nat, y: real)
    ensures Residual(l, x, y) == Residual(f, x, y) + Distance(f, l, mx).At(x as real - mx)
  {
    var u, q := x as real - mx, f.slope - l.slope;
    assert f.slope * x as real == f.slope * mx + f.slope * u;
    assert l.slope * x as real == l.slope * mx + l.slope * u;
    assert q * u == f.slope * u - l.slope * u;
  }

  lemma {:induction false} SsrOfOther(ys: seq<real>, f: Line, l: Line, mx: real)
    ensures var d := Distance(f, l, mx);
            Ssr(ys, l) == Ssr(ys, f) + 2.0 * Cross(ys, f, d, mx) + Gap(|ys|, d, mx)
  {
    hide Square, Times, Residual, Distance;
    if ys != [] {
      var n := |ys| - 1;
      SsrOfOther(ys[..n], f, l, mx);
      ResidualOfOther(f, l, mx, n, ys[n]);
      SquareOfSum(Residual(f, n, ys[n]), Distance(f, l, mx).At(n as real - mx));
    }
  }

  lemma {:induction false} CrossByMoments(ys: seq<real>, f: Line, d: Line, mx: real)
    ensures Cross(ys, f, d, mx) == Times(d.intercept, SumE(ys, f)) + Times(d.slope, SumEX(ys, f, mx))
  {
    hide Times, Residual;
    TimesSum(d.intercept, 0.0, 0.0);
    TimesSum(d.slope, 0.0, 0.0);
    if ys != [] {
      var n := |ys| - 1;
      var e := Residual(f, n, ys[n]);
      CrossByMoments(ys[..n], f, d, mx);
      TimesLine(e, d, n as real - mx);
      TimesSum(d.intercept, SumE(ys[..n], f), e);
      TimesSum(d.slope, SumEX(ys[..n], f, mx), Times(n as real - mx, e));
    }
  }

  lemma CentredResidual(f: Line, mx: real, my: real, x: nat, y: real)
    requires my == f.At(mx)
    ensures Residual(f, x, y) == (y - my) - Times(f.slope, x as real - mx)
    ensures Times(x as real - mx, Residual(f, x, y))
      == Times(x as real - mx, y - my) - Times(f.slope, Square(x as real - mx))
  {
    var u, s := x as real - mx, f.slope;
    assert s * x as real == s * mx + s * u;
    assert u * ((y - my) - s * u) == u * (y - my) - s * (u * u);
  }

  lemma {:induction false} ResidualMoments(ys: seq<real>, f: Line, mx: real, my: real)
    requires my == f.At(mx)
    ensures SumE(ys, f) == SumDevY(ys, my) - Times(f.slope, SumDevX(|ys|, mx))
    ensures SumEX(ys, f, mx) == SumXY(ys, mx, my) - Times(f.slope, SumXX(|ys|, mx))
  {
    hide Times, Residual, Square;
    TimesSum(f.slope, 0.0, 0.0);
    if ys != [] {
      var n := |ys| - 1;
      ResidualMoments(ys[..n], f, mx, my);
      CentredResidual(f, mx, my, n, ys[n]);
      TimesSum(f.slope, SumDevX(n, mx), n as real - mx);
      TimesSum(f.slope, SumXX(n, mx), Square(n as real - mx));
    }
  }

  lemma FitThroughMeans(ys: seq<real>)
    requires |ys| >= 2
    ensures MeanY(ys) == Fit(ys).At(MeanX(|ys|))
  {}

  /** The normal equations: the residuals of the fitted line sum to zero, and so do their products with x. */
  lemma NormalEquations(ys: seq<real>)
    requires |ys| >= 2
    ensures SumE(ys, Fit(ys)) == 0.0 && SumEX(ys, Fit(ys), MeanX(|ys|)) == 0.0
  {
    hide SumDevX, SumDevY, SumX, SumY, SumXX, SumXY, SumE, SumEX;
    var f, mx, my := Fit(ys), MeanX(|ys|), MeanY(ys);
    FitThroughMeans(ys);
    ResidualMoments(ys, f, mx, my);
    DeviationsCancel(ys, my);
    DeviationsCancel(ys, mx);
    SpreadPositive(|ys|, mx);
    assert |ys| as real * mx == SumX(|ys|) && |ys| as real * my == SumY(ys);
    assert Times(f.slope, SumXX(|ys|, mx)) == SumXY(ys, mx, my);
  }

  lemma TwoPoints(d: Line, mx: real)
    ensures d.At(0.0 - mx) == 0.0 && d.At(1.0 - mx) == 0.0 ==> d == Line(0.0, 0.0)
  {
    assert d.slope * (1.0 - mx) == d.slope + d.slope * (0.0 - mx);
  }

  /** Two lines that are not the same are apart at the first or the second point. */
  lemma {:induction false} GapPositive(n: nat, d: Line, mx: real)
    ensures Gap(n, d, mx) >= 0.0
    ensures n >= 2 && d != Line(0.0, 0.0) ==> Gap(n, d, mx) > 0.0
  {
    hide Square;
    if n > 0 {
      GapPositive(n - 1, d, mx);
      SquareNonNegative(d.At((n - 1) as real - mx));
      if n == 2 {
        SquareNonNegative(d.At(0.0 - mx));
        TwoPoints(d, mx);
      }
    }
  }

  lemma {:induction false} NoGap(n: nat, mx: real)
    ensures Gap(n, Line(0.0, 0.0), mx) == 0.0
  {
    if n > 0 { NoGap(n - 1, mx); }
  }

  lemma SameLine(f: Line, l: Line, mx: real)
    ensures Distance(f, l, mx) == Line(0.0, 0.0) <==> f == l
  {}

  /** No line has a smaller residual sum than the fitted one, and no other line has as small a one. */
  lemma FitIsLeast(ys: seq<real>, l: Line)
    requires |ys| >= 2
    ensures Ssr(ys, Fit(ys)) <= Ssr(ys, l)
    ensures Ssr(ys, Fit(ys)) == Ssr(ys, l) <==> l == Fit(ys)
  {
    hide Fit, Ssr, Gap, Cross, SumE, SumEX, Distance;
    var f, mx := Fit(ys), MeanX(|ys|);
    var d := Distance(f, l, mx);
    SsrOfOther(ys, f, l, mx);
    CrossByMoments(ys, f, d, mx);
    NormalEquations(ys);
    TimesSum(d.intercept, 0.0, 0.0);
    TimesSum(d.slope, 0.0, 0.0);
    GapPositive(|ys|, d, mx);
    NoGap(|ys|, mx);
    SameLine(f, l, mx);
  }

  ghost predicate IsLinear(ys: seq<real>, l: Line) {
    forall i :: 0 <= i < |ys| ==> ys[i] == l.At(i as real)
  }

  lemma {:induction false} LinearHasNoResidual(ys: seq<real>, l: Line)
    requires IsLinear(ys, l)
    ensures Ssr(ys, l) == 0.0
  {
    hide Square;
    SquareNonNegative(0.0);
    if ys != [] { LinearHasNoResidual(ys[..|ys| - 1], l); }
  }

  lemma {:induction false} SsrNonNegative(ys: seq<real>, l: Line)
    ensures Ssr(ys, l) >= 0.0
  {
    hide Square;
    if ys != [] {
      var n := |ys| - 1;
      SsrNonNegative(ys[..n], l);
      SquareNonNegative(Residual(l, n, ys[n]));
    }
  }

  /** The fit of an exactly linear series is that line, with no residual. */
  lemma LinearSeriesIsFitted(ys: seq<real>, l: Line)
    requires |ys| >= 2 && IsLinear(ys, l)
    ensures Fit(ys) == l && Ssr(ys, Fit(ys)) == 0.0
  {
    LinearHasNoResidual(ys, l);
    FitIsLeast(ys, l);
    SsrNonNegative(ys, Fit(ys));
  }

  // ---- The forecast ----

  datatype Forecast =
    | Insufficient(needed: int, got: nat)
    /** Python raises ZeroDivisionError. */
    | Undefined
    | Forecast(values: seq<real>, lower: seq<real>, upper: seq<real>)

  function AtLeastZero(x: real): real { if x > 0.0 then x else 0.0 }

  /** The square root, by the two facts that are needed of it. */
  ghost predicate IsRoot(sqrt: real -> real) {
    sqrt(0.0) == 0.0 && forall x :: x >= 0.0 ==> sqrt(x) >= 0.0
  }

  function StandardError(ys: seq<real>, sqrt: real -> real): real
    requires |ys| >= 2
  {
    sqrt(Ssr(ys, Fit(ys)) / (if |ys| - 2 > 1 then |ys| - 2 else 1) as real)
  }

  /** Half the width of the band at `x`. */
  function Band(ys: seq<real>, sqrt: real -> real, x: int): real
    requires |ys| >= 2
  {
    var mx := MeanX(|ys|);
    SpreadPositive(|ys|, mx);
    1.96 * StandardError(ys, sqrt) * sqrt(1.0 + 1.0 / |ys| as real + Square(x as real - mx) / SumXX(|ys|, mx))
  }

  function Predicted(ys: seq<real>, x: int): real
    requires |ys| >= 2
  {
    AtLeastZero(Fit(ys).At(x as real))
  }

  /** A point of the forecast and its band: never negative, in order, and by the fitted line. */
  ghost predicate PointOk(ys: seq<real>, sqrt: real -> real, x: int, lower: real, value: real, upper: real) {
    && |ys| >= 2
    && value == Round2(Predicted(ys, x))
    && lower == Round2(AtLeastZero(Predicted(ys, x) - Band(ys, sqrt, x)))
       && upper == Round2(Predicted(ys, x) + Band(ys, sqrt, x))
    && 0.0 <= lower <= value <= upper
  }

  lemma Round2Monotone(x: real, y: real)
    requires x <= y
    ensures Round2(x) <= Round2(y) && Round2(0.0) == 0.0
  {
    RoundMonotone(x * 100.0, y * 100.0);
  }

  lemma PredictedNonNegative(ys: seq<real>, x: int)
    requires |ys| >= 2
    ensures Predicted(ys, x) >= 0.0
  {}

  lemma BandNonNegative(ys: seq<real>, sqrt: real -> real, x: int)
    requires |ys| >= 2 && IsRoot(sqrt)
    ensures Band(ys, sqrt, x) >= 0.0
  {
    hide Ssr, Fit, SumXX, MeanX;
    var mx, n := MeanX(|ys|), |ys| as real;
    SsrNonNegative(ys, Fit(ys));
    RealQuotient(Ssr(ys, Fit(ys)), (if |ys| - 2 > 1 then |ys| - 2 else 1) as real);
    SpreadPositive(|ys|, mx);
    SquareNonNegative(x as real - mx);
    RealQuotient(Square(x as real - mx), SumXX(|ys|, mx));
    RealQuotient(1.0, n);
    RealProduct(1.96 * StandardError(ys, sqrt), sqrt(1.0 + 1.0 / n + Square(x as real - mx) / SumXX(|ys|, mx)));
  }

  lemma BandHolds(ys: seq<real>, sqrt: real -> real, x: int)
    requires |ys| >= 2 && IsRoot(sqrt)
    ensures PointOk(ys, sqrt, x, Round2(AtLeastZero(Predicted(ys, x) - Band(ys, sqrt, x))), Round2(Predicted(ys, x)),
                    Round2(Predicted(ys, x) + Band(ys, sqrt, x)))
  {
    hide Predicted, Band, Round2;
    BandNonNegative(ys, sqrt, x);
    var p, b := Predicted(ys, x), Band(ys, sqrt, x);
    PredictedNonNegative(ys, x);
    Round2Monotone(0.0, AtLeastZero(p - b));
    Round2Monotone(AtLeastZero(p - b), p);
    Round2Monotone(p, p + b);
  }

  method ForecastLinear(ys: seq<real>, horizon: int, minPoints: int, sqrt: real -> real) returns (r: Forecast)
    requires IsRoot(sqrt)
    ensures r.Insufficient? <==> |ys| < minPoints
    ensures r.Undefined? <==> minPoints <= |ys| <= 1
    ensures r.Forecast? ==>
      && |r.values| == |r.lower| == |r.upper| == (if horizon > 0 then horizon else 0)
      && forall i :: 0 <= i < |r.values| ==> PointOk(ys, sqrt, |ys| + i, r.lower[i], r.values[i], r.upper[i])
  {
    hide Predicted, Band;
    var n := |ys|;
    if n < minPoints {
      return Insufficient(minPoints, n);
    }
    if n <= 1 {
      return Undefined;
    }
    var values: seq<real>, lower: seq<real>, upper: seq<real> := [], [], [];
    var h := 1;
    while h <= horizon
      invariant h >= 1 && h <= (if horizon >= 1 then horizon + 1 else 1) && |values| == |lower| == |upper| == h - 1
      invariant forall i :: 0 <= i < h - 1 ==> PointOk(ys, sqrt, n + i, lower[i], values[i], upper[i])
    {
      var x := n - 1 + h;
      var yhat, band := Predicted(ys, x), Band(ys, sqrt, x);
      BandHolds(ys, sqrt, x);
      values := values + [Round2(yhat)];
      lower := lower + [Round2(AtLeastZero(yhat - band))];
      upper := upper + [Round2(yhat + band)];
      h := h + 1;
    }
    r := Forecast.Forecast(values, lower, upper);
  }

  /** An exactly linear series is extrapolated along its line, cut off at zero, with a band of no width. */
  lemma LinearSeriesHasNoBand(ys: seq<real>, l: Line, sqrt: real -> real, x: int, lower: real, value: real, upper: real)
    requires IsLinear(ys, l) && IsRoot(sqrt) && PointOk(ys, sqrt, x, lower, value, upper)
    ensures lower == value == upper == Round2(AtLeastZero(l.At(x as real)))
  {
    hide Ssr, Fit, SumXX, MeanX, Round2;
    LinearSeriesIsFitted(ys, l);
    assert StandardError(ys, sqrt) == 0.0;
    assert Band(ys, sqrt, x) == 0.0;
    assert Predicted(ys, x) == AtLeastZero(l.At(x as real));
    assert AtLeastZero(Predicted(ys, x) - 0.0) == Predicted(ys, x);
  }
}
