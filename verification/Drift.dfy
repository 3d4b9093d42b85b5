/** Clock drift by least squares, and the clock that others are compared to (app/clocks.py:564-591, 948-950, 993-1035).
    Values are exact: they are those before rounding, and the variance stands for its square root. */
module Drift {
  import opened Collections

  datatype Obs = Obs(t: real, e: real)

  // ----- Sums

  function SumT(v: seq<Obs>): real {
    if v == [] then 0.0 else v[0].t + SumT(v[1..])
  }

  function SumE(v: seq<Obs>): real {
    if v == [] then 0.0 else v[0].e + SumE(v[1..])
  }

  function DevTT(o: Obs, tm: real): real {
    (o.t - tm) * (o.t - tm)
  }

  function DevTE(o: Obs, tm: real, em: real): real {
    (o.t - tm) * (o.e - em)
  }

  function Residual(o: Obs, tm: real, em: real, slope: real): real {
    o.e - (em + slope * (o.t - tm))
  }

  function DevRR(o: Obs, tm: real, em: real, slope: real): real {
    Residual(o, tm, em, slope) * Residual(o, tm, em, slope)
  }

  /** Spread of times around `tm`. */
  function Sxx(v: seq<Obs>, tm: real): real {
    if v == [] then 0.0 else DevTT(v[0], tm) + Sxx(v[1..], tm)
  }

  function Sxy(v: seq<Obs>, tm: real, em: real): real {
    if v == [] then 0.0 else DevTE(v[0], tm, em) + Sxy(v[1..], tm, em)
  }

  /** Sum of the squared distances to the line through (`tm`, `em`). */
  function Srr(v: seq<Obs>, tm: real, em: real, slope: real): real {
    if v == [] then 0.0 else DevRR(v[0], tm, em, slope) + Srr(v[1..], tm, em, slope)
  }

  function MeanT(v: seq<Obs>): real
    requires v != []
  {
    SumT(v) / |v| as real
  }

  function MeanE(v: seq<Obs>): real
    requires v != []
  {
    SumE(v) / |v| as real
  }

  function Spread(v: seq<Obs>): real
    requires v != []
  {
    Sxx(v, MeanT(v))
  }

  function Slope(v: seq<Obs>): real
    requires v != [] && Spread(v) > 0.0
  {
    Sxy(v, MeanT(v), MeanE(v)) / Spread(v)
  }

  function Variance(v: seq<Obs>): real
    requires v != [] && Spread(v) > 0.0
  {
    Srr(v, MeanT(v), MeanE(v), Slope(v)) / |v| as real
  }

  // ----- Drift of a history

  /** A measured point: its instant, the method of measure, and the gap when there is one. */
  datatype Point = Point(t: real, m: int, gap: Option<real>)

  datatype Fit = Fit(slope: real, variance: real)

  /** The method of the last measured point. */
  function Current(pts: seq<Point>): Option<int> {
    if pts == [] then None
    else if Current(pts[1..]).Some? then Current(pts[1..])
    else if pts[0].gap.Some? then Some(pts[0].m)
    else None
  }

  function Measured(pts: seq<Point>, m: Option<int>): seq<Obs> {
    if pts == [] then []
    else if pts[0].gap.Some? && Some(pts[0].m) == m then [Obs(pts[0].t, pts[0].gap.value)] + Measured(pts[1..], m)
    else Measured(pts[1..], m)
  }

  predicate LongEnough(v: seq<Obs>) {
    |v| >= 10 && v[|v| - 1].t - v[0].t >= 600.0
  }

  /** Drift per second and variance, or nothing when the window is too short. */
  function Derive(pts: seq<Point>): Option<Fit> {
    var v := Measured(pts, Current(pts));
    if !LongEnough(v) || Spread(v) <= 0.0 then None else Some(Fit(Slope(v), Variance(v)))
  }

  // ----- Adding a line to the gaps

  function Tilted(o: Obs, a: real, b: real): Obs {
    Obs(o.t, o.e + a + b * o.t)
  }

  function Tilt(v: seq<Obs>, a: real, b: real): seq<Obs> {
    if v == [] then [] else [Tilted(v[0], a, b)] + Tilt(v[1..], a, b)
  }

  lemma {:induction false} TiltSums(v: seq<Obs>, a: real, b: real)
    ensures |Tilt(v, a, b)| == |v| && SumT(Tilt(v, a, b)) == SumT(v)
    ensures SumE(Tilt(v, a, b)) == SumE(v) + |v| as real * a + b * SumT(v)
    ensures forall i :: 0 <= i < |v| ==> Tilt(v, a, b)[i].t == v[i].t
  {
    if v != [] {
      TiltSums(v[1..], a, b);
    }
  }

  lemma {:induction false} TiltSpreads(v: seq<Obs>, a: real, b: real, tm: real, em: real, em2: real, slope: real)
    requires em2 == em + a + b * tm
    ensures Sxx(Tilt(v, a, b), tm) == Sxx(v, tm)
    ensures Sxy(Tilt(v, a, b), tm, em2) == Sxy(v, tm, em) + b * Sxx(v, tm)
    ensures Srr(Tilt(v, a, b), tm, em2, slope + b) == Srr(v, tm, em, slope)
  {
    hide DevTT, DevTE, DevRR;
    if v != [] {
      var u := Tilted(v[0], a, b);
      var w := Tilt(v, a, b);
      assert w[0] == u && w[1..] == Tilt(v[1..], a, b);
      TiltSpreads(v[1..], a, b, tm, em, em2, slope);
      TiltTerm(v[0], u, a, b, tm, em, em2, slope);
      Distribute(b, DevTT(v[0], tm), Sxx(v[1..], tm));
    }
  }

  lemma {:induction false} Distribute(b: real, x: real, y: real)
    ensures b * (x + y) == b * x + b * y
  {
  }

  lemma {:induction false} TiltTerm(o: Obs, u: Obs, a: real, b: real, tm: real, em: real, em2: real, slope: real)
    requires em2 == em + a + b * tm && u.t == o.t && u.e == o.e + a + b * o.t
    ensures DevTT(u, tm) == DevTT(o, tm)
    ensures DevTE(u, tm, em2) == DevTE(o, tm, em) + b * DevTT(o, tm)
    ensures DevRR(u, tm, em2, slope + b) == DevRR(o, tm, em, slope)
  {
  }

  /** Adding a line to the gaps adds its slope to the drift and changes nothing to the variance. */
  lemma {:induction false} LineAddsSlope(v: seq<Obs>, a: real, b: real)
    requires v != [] && Spread(v) > 0.0
    ensures var w := Tilt(v, a, b);
            w != [] && Spread(w) == Spread(v) && Slope(w) == Slope(v) + b && Variance(w) == Variance(v)
  {
    hide Sxx, Sxy, Srr, SumT, SumE;
    var w := Tilt(v, a, b);
    TiltSums(v, a, b);
    MeanOfTilt(SumE(v), SumT(v), |v| as real, a, b);
    assert MeanT(w) == MeanT(v) && MeanE(w) == MeanE(v) + a + b * MeanT(v);
    TiltSpreads(v, a, b, MeanT(v), MeanE(v), MeanE(w), Slope(v));
    Quotient(Sxy(v, MeanT(v), MeanE(v)), b, Spread(v));
  }

  lemma {:induction false} MeanOfTilt(e: real, t: real, n: real, a: real, b: real)
    requires n > 0.0
    ensures (e + n * a + b * t) / n == e / n + a + b * (t / n)
  {
  }

  lemma {:induction false} Quotient(x: real, b: real, d: real)
    requires d > 0.0
    ensures (x + b * d) / d == x / d + b
  {
  }

  predicate OnLine(v: seq<Obs>, a: real, b: real) {
    v == [] || (v[0].e == a + b * v[0].t && OnLine(v[1..], a, b))
  }

  function Flat(v: seq<Obs>): seq<Obs> {
    if v == [] then [] else [Obs(v[0].t, 0.0)] + Flat(v[1..])
  }

  lemma {:induction false} LineIsTiltedFlat(v: seq<Obs>, a: real, b: real)
    requires OnLine(v, a, b)
    ensures v == Tilt(Flat(v), a, b)
  {
    hide Tilted;
    if v != [] {
      LineIsTiltedFlat(v[1..], a, b);
      TiltedZero(v[0], a, b);
      var w := Flat(v);
      assert w[0] == Obs(v[0].t, 0.0) && w[1..] == Flat(v[1..]);
      assert v == [v[0]] + v[1..];
    }
  }

  lemma {:induction false} TiltedZero(o: Obs, a: real, b: real)
    requires o.e == a + b * o.t
    ensures Tilted(Obs(o.t, 0.0), a, b) == o
  {
  }

  lemma {:induction false} FlatSums(v: seq<Obs>, tm: real)
    ensures |Flat(v)| == |v| && SumE(Flat(v)) == 0.0 && SumT(Flat(v)) == SumT(v)
    ensures Sxx(Flat(v), tm) == Sxx(v, tm) && Sxy(Flat(v), tm, 0.0) == 0.0 && Srr(Flat(v), tm, 0.0, 0.0) == 0.0
  {
    if v != [] {
      FlatSums(v[1..], tm);
      assert Flat(v)[0] == Obs(v[0].t, 0.0) && Flat(v)[1..] == Flat(v[1..]);
    }
  }

  /** Gaps that lie on a line give the slope of the line, with zero variance. */
  lemma {:induction false} LineIsExact(v: seq<Obs>, a: real, b: real)
    requires v != [] && Spread(v) > 0.0 && OnLine(v, a, b)
    ensures Slope(v) == b && Variance(v) == 0.0
  {
    hide Sxx, Sxy, Srr, SumT, SumE, Flat, OnLine, Tilt;
    LineIsTiltedFlat(v, a, b);
    FlatSums(v, MeanT(v));
    FlatSums(v, MeanT(Flat(v)));
    assert MeanE(Flat(v)) == 0.0 && Slope(Flat(v)) == 0.0;
    LineAddsSlope(Flat(v), a, b);
  }

  // ----- The least squares

  function Dev(o: Obs, tm: real): real {
    o.t - tm
  }

  function ResDev(o: Obs, tm: real, em: real, slope: real): real {
    Residual(o, tm, em, slope) * Dev(o, tm)
  }

  function SumDev(v: seq<Obs>, tm: real): real {
    if v == [] then 0.0 else Dev(v[0], tm) + SumDev(v[1..], tm)
  }

  function SumRes(v: seq<Obs>, tm: real, em: real, slope: real): real {
    if v == [] then 0.0 else Residual(v[0], tm, em, slope) + SumRes(v[1..], tm, em, slope)
  }

  function SumResDev(v: seq<Obs>, tm: real, em: real, slope: real): real {
    if v == [] then 0.0 else ResDev(v[0], tm, em, slope) + SumResDev(v[1..], tm, em, slope)
  }

  lemma {:induction false} CountTimes(n: real, x: real)
    ensures (n + 1.0) * x == n * x + x
  {
  }

  lemma {:induction false} SumOfDev(v: seq<Obs>, tm: real)
    ensures SumDev(v, tm) == SumT(v) - |v| as real * tm
  {
    if v != [] {
      SumOfDev(v[1..], tm);
      CountTimes(|v[1..]| as real, tm);
    }
  }

  lemma {:induction false} SumOfRes(v: seq<Obs>, tm: real, em: real, slope: real)
    ensures SumRes(v, tm, em, slope) == SumE(v) - |v| as real * em - slope * SumDev(v, tm)
  {
    if v != [] {
      SumOfRes(v[1..], tm, em, slope);
      CountTimes(|v[1..]| as real, em);
      Distribute(slope, Dev(v[0], tm), SumDev(v[1..], tm));
    }
  }

  lemma {:induction false} ResDevTerm(o: Obs, tm: real, em: real, slope: real)
    ensures ResDev(o, tm, em, slope) == DevTE(o, tm, em) - slope * DevTT(o, tm)
  {
  }

  lemma {:induction false} SumOfResDev(v: seq<Obs>, tm: real, em: real, slope: real)
    ensures SumResDev(v, tm, em, slope) == Sxy(v, tm, em) - slope * Sxx(v, tm)
  {
    hide ResDev, DevTT, DevTE;
    if v != [] {
      SumOfResDev(v[1..], tm, em, slope);
      ResDevTerm(v[0], tm, em, slope);
      Distribute(slope, DevTT(v[0], tm), Sxx(v[1..], tm));
    }
  }

  /** The residuals of the fit sum to nothing, and so do their products with the times. */
  lemma {:induction false} NormalEquations(v: seq<Obs>)
    requires v != [] && Spread(v) > 0.0
    ensures var tm, em, slope := MeanT(v), MeanE(v), Slope(v);
            SumDev(v, tm) == 0.0 && SumRes(v, tm, em, slope) == 0.0 && SumResDev(v, tm, em, slope) == 0.0
  {
    hide Sxx, Sxy, SumT, SumE, SumDev, SumRes, SumResDev;
    var tm, em, slope := MeanT(v), MeanE(v), Slope(v);
    SumOfDev(v, tm);
    SumOfRes(v, tm, em, slope);
    SumOfResDev(v, tm, em, slope);
    TimesQuotient(SumT(v), |v| as real);
    TimesQuotient(SumE(v), |v| as real);
    TimesQuotient(Sxy(v, tm, em), Spread(v));
  }

  lemma {:induction false} TimesQuotient(x: real, n: real)
    requires n > 0.0
    ensures n * (x / n) == x && (x / n) * n == x
  {
  }

  /** Moving the line by `c` at the mean and by `d` in slope; the other arguments name the coefficients. */
  lemma {:induction false} MovedTerm(o: Obs, tm: real, em: real, slope: real, em2: real, slope2: real,
                                     kr: real, kx: real, cc: real, cd: real, dd: real)
    requires kr == -2.0 * (em2 - em) && kx == -2.0 * (slope2 - slope) && cd == 2.0 * (em2 - em) * (slope2 - slope)
    requires cc == Sq(em2 - em) && dd == Sq(slope2 - slope)
    ensures DevRR(o, tm, em2, slope2)
            == DevRR(o, tm, em, slope) + kr * Residual(o, tm, em, slope) + kx * ResDev(o, tm, em, slope)
               + cc + cd * Dev(o, tm) + dd * DevTT(o, tm)
  {
    var r, x, c, d := Residual(o, tm, em, slope), Dev(o, tm), em2 - em, slope2 - slope;
    MovedResidual(o, tm, em, slope, em2, slope2);
    Square(r, c, d, x);
    hide Residual;
  }

  lemma {:induction false} MovedResidual(o: Obs, tm: real, em: real, slope: real, em2: real, slope2: real)
    ensures Residual(o, tm, em2, slope2) == Residual(o, tm, em, slope) - (em2 - em) - (slope2 - slope) * Dev(o, tm)
  {
  }

  lemma {:induction false} Square(r: real, c: real, d: real, x: real)
    ensures (r - c - d * x) * (r - c - d * x)
            == r * r + (-2.0 * c) * r + (-2.0 * d) * (r * x) + c * c + (2.0 * c * d) * x + (d * d) * (x * x)
  {
  }

  lemma {:induction false} MovedLine(v: seq<Obs>, tm: real, em: real, slope: real, em2: real, slope2: real,
                                     kr: real, kx: real, cc: real, cd: real, dd: real)
    requires kr == -2.0 * (em2 - em) && kx == -2.0 * (slope2 - slope) && cd == 2.0 * (em2 - em) * (slope2 - slope)
    requires cc == Sq(em2 - em) && dd == Sq(slope2 - slope)
    ensures Srr(v, tm, em2, slope2)
            == Srr(v, tm, em, slope) + kr * SumRes(v, tm, em, slope) + kx * SumResDev(v, tm, em, slope)
               + |v| as real * cc + cd * SumDev(v, tm) + dd * Sxx(v, tm)
  {
    hide DevRR, Residual, ResDev, Dev, DevTT, Sq;
    if v != [] {
      MovedLine(v[1..], tm, em, slope, em2, slope2, kr, kx, cc, cd, dd);
      MovedTerm(v[0], tm, em, slope, em2, slope2, kr, kx, cc, cd, dd);
      MovedSum(v, tm, em, slope, em2, slope2, kr, kx, cc, cd, dd);
    }
  }

  lemma {:induction false} MovedSum(v: seq<Obs>, tm: real, em: real, slope: real, em2: real, slope2: real,
                                    kr: real, kx: real, cc: real, cd: real, dd: real)
    requires v != []
    requires Srr(v[1..], tm, em2, slope2)
             == Srr(v[1..], tm, em, slope) + kr * SumRes(v[1..], tm, em, slope) + kx * SumResDev(v[1..], tm, em, slope)
                + |v[1..]| as real * cc + cd * SumDev(v[1..], tm) + dd * Sxx(v[1..], tm)
    requires DevRR(v[0], tm, em2, slope2)
             == DevRR(v[0], tm, em, slope) + kr * Residual(v[0], tm, em, slope) + kx * ResDev(v[0], tm, em, slope)
                + cc + cd * Dev(v[0], tm) + dd * DevTT(v[0], tm)
    ensures Srr(v, tm, em2, slope2)
            == Srr(v, tm, em, slope) + kr * SumRes(v, tm, em, slope) + kx * SumResDev(v, tm, em, slope)
               + |v| as real * cc + cd * SumDev(v, tm) + dd * Sxx(v, tm)
  {
    hide DevRR, Residual, ResDev, Dev, DevTT, Sq;
    CountTimes(|v[1..]| as real, cc);
    Distribute(kr, Residual(v[0], tm, em, slope), SumRes(v[1..], tm, em, slope));
    Distribute(kx, ResDev(v[0], tm, em, slope), SumResDev(v[1..], tm, em, slope));
    Distribute(cd, Dev(v[0], tm), SumDev(v[1..], tm));
    Distribute(dd, DevTT(v[0], tm), Sxx(v[1..], tm));
  }

  /** Sum of the squared distances to the line `q + p * t`. */
  function Loss(v: seq<Obs>, q: real, p: real): real {
    Srr(v, 0.0, q, p)
  }

  lemma {:induction false} SameLine(v: seq<Obs>, tm: real, q: real, p: real)
    ensures Loss(v, q, p) == Srr(v, tm, q + p * tm, p)
  {
    if v != [] {
      SameLine(v[1..], tm, q, p);
      assert Residual(v[0], 0.0, q, p) == Residual(v[0], tm, q + p * tm, p);
    }
  }

  /** The fit is the best line: any other line is strictly farther from the measured gaps. */
  lemma {:induction false} FitIsBest(v: seq<Obs>, q: real, p: real)
    requires v != [] && Spread(v) > 0.0
    ensures var best := |v| as real * Variance(v);
            && best <= Loss(v, q, p)
            && (best == Loss(v, q, p) <==> p == Slope(v) && q == MeanE(v) - Slope(v) * MeanT(v))
  {
    hide Sxx, Srr, SumDev, SumRes, SumResDev, Sq;
    var tm, em, slope := MeanT(v), MeanE(v), Slope(v);
    var c, d := q + p * tm - em, p - slope;
    SameLine(v, tm, q, p);
    NormalEquations(v);
    var cc, dd := Sq(c), Sq(d);
    MovedLine(v, tm, em, slope, q + p * tm, p, -2.0 * c, -2.0 * d, cc, 2.0 * c * d, dd);
    TimesQuotient(Srr(v, tm, em, slope), |v| as real);
    assert Loss(v, q, p) == Srr(v, tm, em, slope) + |v| as real * cc + dd * Spread(v);
    SquareSign(c);
    SquareSign(d);
    SumSign(|v| as real, cc, Spread(v), dd);
  }

  lemma {:induction false} SumSign(n: real, x: real, s: real, y: real)
    requires n > 0.0 && s > 0.0 && x >= 0.0 && y >= 0.0
    ensures n * x + y * s >= 0.0 && (n * x + y * s == 0.0 <==> x == 0.0 && y == 0.0)
  {
  }

  function Times(x: real, y: real): real {
    x * y
  }

  function Sq(x: real): real {
    Times(x, x)
  }

  lemma {:induction false} SquareSign(x: real)
    ensures Sq(x) >= 0.0 && (Sq(x) == 0.0 <==> x == 0.0)
  {
    hide Sq;
    ZeroSquare();
    if x > 0.0 {
      PositiveSquare(x);
    } else if x < 0.0 {
      PositiveSquare(-x);
      OppositeSquare(x, -x);
    }
  }

  lemma {:induction false} ZeroSquare()
    ensures Sq(0.0) == 0.0
  {
  }

  lemma {:induction false} PositiveSquare(x: real)
    requires x > 0.0
    ensures Sq(x) > 0.0
  {
    hide Times;
    PositiveProduct(x, x);
  }

  lemma {:induction false} PositiveProduct(x: real, y: real)
    requires x > 0.0 && y > 0.0
    ensures Times(x, y) > 0.0
  {
  }

  lemma {:induction false} OppositeSquare(x: real, y: real)
    requires y == -x
    ensures Sq(y) == Sq(x)
  {
  }

  // ----- Histories

  function WithGaps(pts: seq<Point>, a: real, b: real): seq<Point> {
    if pts == [] then [] else
    [if pts[0].gap.Some? then pts[0].(gap := Some(Tilted(Obs(pts[0].t, pts[0].gap.value), a, b).e)) else pts[0]]
    + WithGaps(pts[1..], a, b)
  }

  lemma {:induction false} MeasuredWithGaps(pts: seq<Point>, a: real, b: real, m: Option<int>)
    ensures Current(WithGaps(pts, a, b)) == Current(pts)
    ensures Measured(WithGaps(pts, a, b), m) == Tilt(Measured(pts, m), a, b)
  {
    hide Tilted;
    if pts != [] {
      MeasuredWithGaps(pts[1..], a, b, m);
      assert WithGaps(pts, a, b)[1..] == WithGaps(pts[1..], a, b);
      if pts[0].gap.Some? && Some(pts[0].m) == m {
        var o, rest := Obs(pts[0].t, pts[0].gap.value), Measured(pts[1..], m);
        SameInstant(o, a, b);
        assert ([o] + rest)[1..] == rest;
      }
    }
  }

  lemma {:induction false} SameInstant(o: Obs, a: real, b: real)
    ensures Obs(o.t, Tilted(o, a, b).e) == Tilted(o, a, b)
  {
  }

  /** A constant bias of the measure changes neither the drift nor the variance; a bias that grows linearly
      adds its slope to the drift. The drift is given for the same histories. */
  lemma {:induction false} DriftUnderBias(pts: seq<Point>, a: real, b: real)
    ensures Derive(WithGaps(pts, a, b))
            == match Derive(pts) case None => None case Some(f) => Some(Fit(f.slope + b, f.variance))
  {
    hide Spread, Slope, Variance, Tilt, Measured, Current;
    var v := Measured(pts, Current(pts));
    MeasuredWithGaps(pts, a, b, Current(pts));
    TiltSums(v, a, b);
    if LongEnough(v) {
      SameSpread(v, a, b);
      if Spread(v) > 0.0 {
        LineAddsSlope(v, a, b);
      }
    }
  }

  lemma {:induction false} SameSpread(v: seq<Obs>, a: real, b: real)
    requires v != []
    ensures Tilt(v, a, b) != [] && Spread(Tilt(v, a, b)) == Spread(v)
  {
    hide Sxx, Sxy, Srr, SumT, SumE;
    TiltSums(v, a, b);
    TiltSpreads(v, a, b, MeanT(v), 0.0, 0.0 + a + b * MeanT(v), 0.0);
  }

  // ----- Histories relative to a referent

  /** Gaps of a history by instant; the last one at an instant counts. */
  function Index(pts: seq<Point>): map<real, real> {
    if pts == [] then map[] else
    var p := pts[|pts| - 1];
    var before := Index(pts[..|pts| - 1]);
    if p.gap.Some? then before[p.t := p.gap.value] else before
  }

  function Relative(pts: seq<Point>, reference: map<real, real>): seq<Point> {
    if pts == [] then [] else
    (if pts[0].gap.Some? && pts[0].t in reference then [pts[0].(gap := Some(pts[0].gap.value - reference[pts[0].t]))]
     else [])
    + Relative(pts[1..], reference)
  }

  /** A bias of the controller, which may change with time, is part of everything that it measures. */
  function Biased(pts: seq<Point>, bias: real -> real): seq<Point> {
    if pts == [] then [] else
    Biased(pts[..|pts| - 1], bias) + [BiasedPoint(pts[|pts| - 1], bias)]
  }

  function BiasedPoint(p: Point, bias: real -> real): Point {
    if p.gap.Some? then p.(gap := Some(p.gap.value + bias(p.t))) else p
  }

  lemma {:induction false} BiasedAt(pts: seq<Point>, bias: real -> real)
    ensures |Biased(pts, bias)| == |pts|
    ensures forall i :: 0 <= i < |pts| ==> Biased(pts, bias)[i] == BiasedPoint(pts[i], bias)
  {
    if pts != [] {
      BiasedAt(pts[..|pts| - 1], bias);
    }
  }

  lemma {:induction false} BiasedIndex(pts: seq<Point>, bias: real -> real)
    ensures Index(Biased(pts, bias)).Keys == Index(pts).Keys
    ensures forall t :: t in Index(pts) ==> Index(Biased(pts, bias))[t] == Index(pts)[t] + bias(t)
  {
    if pts != [] {
      BiasedIndex(pts[..|pts| - 1], bias);
      var w := Biased(pts, bias);
      assert w[..|w| - 1] == Biased(pts[..|pts| - 1], bias);
    }
  }

  lemma {:induction false} RelativeUnbiased(pts: seq<Point>, w: seq<Point>, reference: map<real, real>,
                                            biased: map<real, real>,
                                            bias: real -> real)
    requires |w| == |pts| && forall i :: 0 <= i < |pts| ==> w[i] == BiasedPoint(pts[i], bias)
    requires biased.Keys == reference.Keys && forall t :: t in reference ==> biased[t] == reference[t] + bias(t)
    ensures Relative(w, biased) == Relative(pts, reference)
  {
    if pts != [] {
      assert w[0] == BiasedPoint(pts[0], bias);
      assert forall i :: 0 <= i < |pts[1..]| ==> w[1..][i] == w[i + 1] && pts[1..][i] == pts[i + 1];
      RelativeUnbiased(pts[1..], w[1..], reference, biased, bias);
    }
  }

  /** The drift of a node against the referent does not see the controller at all: any bias common to the
      measures of an instant, however it moves, cancels. */
  lemma {:induction false} ControllerCancels(pts: seq<Point>, referent: seq<Point>, bias: real -> real)
    ensures Derive(Relative(Biased(pts, bias), Index(Biased(referent, bias)))) == Derive(Relative(pts, Index(referent)))
  {
    BiasedAt(pts, bias);
    BiasedIndex(referent, bias);
    RelativeUnbiased(pts, Biased(pts, bias), Index(referent), Index(Biased(referent, bias)), bias);
  }

  // ----- The referent

  datatype Source = Engine | Ptp4l | Chrony | Timesyncd | NoSource

  datatype Clock = Clock(reachable: bool, source: Source, offset: Option<real>, gap: Option<real>)

  function Grade(s: Source): nat {
    match s
    case Engine => 3
    case Ptp4l => 3
    case Chrony => 2
    case Timesyncd => 1
    case NoSource => 0
  }

  function Abs(x: real): real {
    if x < 0.0 then -x else x
  }

  /** Distance of a clock to its own source; an unknown one counts for a second, and so does an exact zero. */
  function OwnError(c: Clock): real {
    if c.offset.Some? && c.offset.value != 0.0 then Abs(c.offset.value) else 1.0
  }

  predicate Candidate(c: Clock) {
    c.reachable && c.gap.Some?
  }

  /** Strictly better traced. */
  predicate Finer(a: Clock, b: Clock) {
    Grade(a.source) > Grade(b.source) || (Grade(a.source) == Grade(b.source) && OwnError(a) < OwnError(b))
  }

  /** The first of the best traced candidates among the first `n` clocks. */
  function Referent(clocks: seq<Clock>, n: nat): Option<nat>
    requires n <= |clocks|
  {
    if n == 0 then None else
    var best := Referent(clocks, n - 1);
    if Candidate(clocks[n - 1]) && (best.None? || (best.value < n - 1 && Finer(clocks[n - 1], clocks[best.value])))
    then Some(n - 1) else best
  }

  method ChooseReferent(clocks: seq<Clock>) returns (best: Option<nat>)
    ensures best == Referent(clocks, |clocks|)
  {
    best := None;
    var i := 0;
    while i < |clocks|
      invariant 0 <= i <= |clocks| && best == Referent(clocks, i) && (best.Some? ==> best.value < i)
    {
      if Candidate(clocks[i]) && (best.None? || Finer(clocks[i], clocks[best.value])) {
        best := Some(i);
      }
      i := i + 1;
    }
  }

  /** Some clock is the referent exactly when there is a candidate; nobody is better traced than the referent,
      and those before it are strictly less well traced. */
  lemma {:induction false} ReferentIsBest(clocks: seq<Clock>, n: nat)
    requires n <= |clocks|
    ensures var best := Referent(clocks, n);
            && (best.None? <==> forall i :: 0 <= i < n ==> !Candidate(clocks[i]))
            && (best.Some? ==>
                  && best.value < n && Candidate(clocks[best.value])
                  && (forall i :: 0 <= i < n && Candidate(clocks[i]) ==> !Finer(clocks[i], clocks[best.value]))
                  && (forall i :: 0 <= i < best.value && Candidate(clocks[i]) ==> Finer(clocks[best.value], clocks[i])))
  {
    if n > 0 {
      ReferentIsBest(clocks, n - 1);
    }
  }

  function RelativeGap(clocks: seq<Clock>, i: nat, referent: nat): Option<real>
    requires i < |clocks| && referent < |clocks| && clocks[referent].gap.Some?
  {
    if clocks[i].gap.Some? then Some(clocks[i].gap.value - clocks[referent].gap.value) else None
  }

  function Highest(clocks: seq<Clock>): Option<real> {
    if clocks == [] then None else
    var h := Highest(clocks[1..]);
    if Candidate(clocks[0]) && (h.None? || clocks[0].gap.value > h.value) then clocks[0].gap else h
  }

  function Lowest(clocks: seq<Clock>): Option<real> {
    if clocks == [] then None else
    var l := Lowest(clocks[1..]);
    if Candidate(clocks[0]) && (l.None? || clocks[0].gap.value < l.value) then clocks[0].gap else l
  }

  /** The largest gap between two clocks; nothing when there are fewer than two. */
  function MaxSpread(clocks: seq<Clock>): real {
    if Highest(clocks).Some? && Lowest(clocks).Some? then Highest(clocks).value - Lowest(clocks).value else 0.0
  }

  function Moved(clocks: seq<Clock>, c: real): seq<Clock> {
    if clocks == [] then [] else
    [if clocks[0].gap.Some? then clocks[0].(gap := Some(clocks[0].gap.value + c)) else clocks[0]]
        + Moved(clocks[1..], c)
  }

  lemma {:induction false} MovedAt(clocks: seq<Clock>, c: real)
    ensures |Moved(clocks, c)| == |clocks|
    ensures forall i :: 0 <= i < |clocks| ==>
              var a, b := clocks[i], Moved(clocks, c)[i];
              && b.reachable == a.reachable && b.source == a.source && b.offset == a.offset
              && b.gap == (if a.gap.Some? then Some(a.gap.value + c) else None)
  {
    if clocks != [] {
      MovedAt(clocks[1..], c);
    }
  }

  lemma {:induction false} MovedExtremes(clocks: seq<Clock>, c: real)
    ensures Highest(Moved(clocks, c)) == (if Highest(clocks).Some? then Some(Highest(clocks).value + c) else None)
    ensures Lowest(Moved(clocks, c)) == (if Lowest(clocks).Some? then Some(Lowest(clocks).value + c) else None)
  {
    if clocks != [] {
      MovedExtremes(clocks[1..], c);
      assert Moved(clocks, c)[1..] == Moved(clocks[1..], c);
    }
  }

  lemma {:induction false} MovedReferent(clocks: seq<Clock>, c: real, n: nat)
    requires n <= |clocks| == |Moved(clocks, c)|
    ensures Referent(Moved(clocks, c), n) == Referent(clocks, n)
  {
    hide OwnError, Grade;
    MovedAt(clocks, c);
    if n > 0 {
      MovedReferent(clocks, c, n - 1);
      SameTrace(clocks, c);
    }
  }

  lemma {:induction false} SameTrace(clocks: seq<Clock>, c: real)
    ensures |Moved(clocks, c)| == |clocks|
    ensures forall i :: 0 <= i < |clocks| ==>
              && OwnError(Moved(clocks, c)[i]) == OwnError(clocks[i])
              && Grade(Moved(clocks, c)[i].source) == Grade(clocks[i].source)
  {
    MovedAt(clocks, c);
  }

  /** A common bias of the controller changes neither the referent, nor any gap to it, nor the largest gap
      between clocks. */
  lemma {:induction false} BiasChangesNothing(clocks: seq<Clock>, c: real, i: nat)
    requires i < |clocks|
    ensures var moved := Moved(clocks, c);
            && |moved| == |clocks| && Referent(moved, |moved|) == Referent(clocks, |clocks|)
            && MaxSpread(moved) == MaxSpread(clocks)
            && (Referent(clocks, |clocks|).Some? ==>
                  var r := Referent(clocks, |clocks|).value;
                  && r < |clocks| && clocks[r].gap.Some? && moved[r].gap.Some?
                  && RelativeGap(moved, i, r) == RelativeGap(clocks, i, r) && RelativeGap(clocks, r, r) == Some(0.0))
  {
    hide Highest, Lowest, Moved, Referent, Finer;
    MovedAt(clocks, c);
    MovedExtremes(clocks, c);
    MovedReferent(clocks, c, |clocks|);
    ReferentIsBest(clocks, |clocks|);
  }

  /** No gap between two measured clocks is larger than the reported one, and some gap is that large. */
  lemma {:induction false} SpreadIsLargest(clocks: seq<Clock>)
    ensures forall i, j :: 0 <= i < |clocks| && 0 <= j < |clocks| && Candidate(clocks[i]) && Candidate(clocks[j]) ==>
              clocks[i].gap.value - clocks[j].gap.value <= MaxSpread(clocks)
    ensures (exists i :: 0 <= i < |clocks| && Candidate(clocks[i])) ==>
              exists i, j :: 0 <= i < |clocks| && 0 <= j < |clocks| && Candidate(clocks[i]) && Candidate(clocks[j])
                             && clocks[i].gap.value - clocks[j].gap.value == MaxSpread(clocks)
    ensures (forall i :: 0 <= i < |clocks| ==> !Candidate(clocks[i])) ==> MaxSpread(clocks) == 0.0
  {
    hide Highest, Lowest;
    forall i | 0 <= i < |clocks| && Candidate(clocks[i])
      ensures Highest(clocks).Some? && Lowest(clocks).Some?
      ensures Lowest(clocks).value <= clocks[i].gap.value <= Highest(clocks).value
    {
      Bounds(clocks, i);
    }
    BothOrNone(clocks);
    if Highest(clocks).Some? {
      var i, j := Attained(clocks);
    }
  }

  /** The clocks at the two ends. */
  lemma {:induction false} Attained(clocks: seq<Clock>) returns (i: nat, j: nat)
    requires Highest(clocks).Some? && Lowest(clocks).Some?
    ensures i < |clocks| && Candidate(clocks[i]) && clocks[i].gap == Highest(clocks)
    ensures j < |clocks| && Candidate(clocks[j]) && clocks[j].gap == Lowest(clocks)
  {
    i, j := 0, 0;
    BothOrNone(clocks[1..]);
    if Highest(clocks[1..]).Some? {
      var k, l := Attained(clocks[1..]);
      i := if Highest(clocks) == Highest(clocks[1..]) then k + 1 else 0;
      j := if Lowest(clocks) == Lowest(clocks[1..]) then l + 1 else 0;
    }
  }

  lemma {:induction false} Bounds(clocks: seq<Clock>, i: nat)
    requires i < |clocks| && Candidate(clocks[i])
    ensures Highest(clocks).Some? && Lowest(clocks).Some?
    ensures Lowest(clocks).value <= clocks[i].gap.value <= Highest(clocks).value
  {
    if i > 0 {
      Bounds(clocks[1..], i - 1);
      BothOrNone(clocks[1..]);
    } else {
      BothOrNone(clocks[1..]);
    }
  }

  lemma {:induction false} BothOrNone(clocks: seq<Clock>)
    ensures Highest(clocks).Some? <==> Lowest(clocks).Some?
    ensures Highest(clocks).Some? ==> Lowest(clocks).value <= Highest(clocks).value
  {
    if clocks != [] {
      BothOrNone(clocks[1..]);
    }
  }

  // ----- Is the referent the clock closest to its source?

  /** Candidates of the best grade. */
  function Top(clocks: seq<Clock>): (r: set<nat>)
    ensures forall i :: i in r ==> i < |clocks| && Candidate(clocks[i])
  {
    set i: nat | i < |clocks| && Candidate(clocks[i])
                 && forall j :: 0 <= j < |clocks| && Candidate(clocks[j]) ==>
                      Grade(clocks[j].source) <= Grade(clocks[i].source)
  }

  predicate Zero(c: Clock) {
    c.offset == Some(0.0)
  }

  predicate Within(c: Clock) {
    c.offset.Some? && c.offset.value != 0.0 && Abs(c.offset.value) < 1.0
  }

  /** Off by exactly one second. */
  predicate OneOff(c: Clock) {
    c.offset.Some? && Abs(c.offset.value) == 1.0
  }

  /** Of the best grade, and no other of that grade has a known offset closer to zero. */
  predicate Closest(clocks: seq<Clock>, i: nat) {
    && i in Top(clocks)
    && forall j :: j in Top(clocks) && clocks[j].offset.Some? ==>
         clocks[i].offset.Some? && Abs(clocks[i].offset.value) <= Abs(clocks[j].offset.value)
  }

  /** A clock of the best grade is exactly right, and another is off by less than a second, or is off by
      exactly one or unknown and comes before every exact one. */
  predicate ExactIsMissed(clocks: seq<Clock>) {
    && (exists z :: z in Top(clocks) && Zero(clocks[z]))
    && exists i :: i in Top(clocks)
         && (Within(clocks[i])
             || ((clocks[i].offset.None? || OneOff(clocks[i]))
                 && forall z :: z in Top(clocks) && Zero(clocks[z]) ==> i < z))
  }

  /** No clock of the best grade is exact or off by less than a second, some is known, and an unknown one comes
      before all those that are off by exactly one. */
  predicate UnknownIsTaken(clocks: seq<Clock>) {
    && (forall z :: z in Top(clocks) ==> !Zero(clocks[z]) && !Within(clocks[z]))
    && (exists j :: j in Top(clocks) && clocks[j].offset.Some?)
    && exists i :: i in Top(clocks) && clocks[i].offset.None?
         && forall j :: j in Top(clocks) && OneOff(clocks[j]) ==> i < j
  }

  lemma {:induction false} ReferentIsBestGraded(clocks: seq<Clock>, k: nat)
    requires Referent(clocks, |clocks|) == Some(k)
    ensures k in Top(clocks)
    ensures forall i :: i in Top(clocks) ==>
              && OwnError(clocks[k]) <= OwnError(clocks[i]) && (i < k ==> OwnError(clocks[k]) < OwnError(clocks[i]))
              && Grade(clocks[i].source) == Grade(clocks[k].source)
  {
    hide OwnError, Grade;
    ReferentIsBest(clocks, |clocks|);
    forall j | 0 <= j < |clocks| && Candidate(clocks[j])
      ensures Grade(clocks[j].source) <= Grade(clocks[k].source)
    {
      assert !Finer(clocks[j], clocks[k]);
    }
    forall i | i in Top(clocks)
      ensures OwnError(clocks[k]) <= OwnError(clocks[i]) && (i < k ==> OwnError(clocks[k]) < OwnError(clocks[i]))
      ensures Grade(clocks[i].source) == Grade(clocks[k].source)
    {
      assert !Finer(clocks[i], clocks[k]);
    }
  }

  /** The referent is the clock of the best grade that is closest to its source, unless an exact one is missed
      or an unknown one is taken: an exact zero, like an unknown offset, counts for a second. */
  lemma {:induction false} ReferentIsClosestExactly(clocks: seq<Clock>, k: nat)
    requires Referent(clocks, |clocks|) == Some(k)
    ensures Closest(clocks, k) <==> !ExactIsMissed(clocks) && !UnknownIsTaken(clocks)
  {
    hide Referent, Top;
    ReferentIsBestGraded(clocks, k);
    if !Closest(clocks, k) {
      var j :| j in Top(clocks) && clocks[j].offset.Some?
                    && !(clocks[k].offset.Some? && Abs(clocks[k].offset.value) <= Abs(clocks[j].offset.value));
      NotClosest(clocks, k, j);
    } else {
      ClosestIsRight(clocks, k);
    }
  }

  lemma {:induction false} NotClosest(clocks: seq<Clock>, k: nat, j: nat)
    requires k in Top(clocks) && j in Top(clocks) && clocks[j].offset.Some?
    requires clocks[k].offset.Some? ==> Abs(clocks[k].offset.value) > Abs(clocks[j].offset.value)
    requires forall i :: i in Top(clocks) ==>
               OwnError(clocks[k]) <= OwnError(clocks[i]) && (i < k ==> OwnError(clocks[k]) < OwnError(clocks[i]))
    ensures ExactIsMissed(clocks) || UnknownIsTaken(clocks)
  {
    hide Top;
    assert !Zero(clocks[k]);
    if z :| z in Top(clocks) && Zero(clocks[z]) {
      assert OwnError(clocks[k]) <= 1.0;
      assert ExactIsMissed(clocks);
    } else {
      assert clocks[k].offset.None?;
      assert UnknownIsTaken(clocks);
    }
  }

  lemma {:induction false} ClosestIsRight(clocks: seq<Clock>, k: nat)
    requires Closest(clocks, k)
    requires forall i :: i in Top(clocks) ==>
               OwnError(clocks[k]) <= OwnError(clocks[i]) && (i < k ==> OwnError(clocks[k]) < OwnError(clocks[i]))
    ensures !ExactIsMissed(clocks) && !UnknownIsTaken(clocks)
  {
    hide Top;
    if z :| z in Top(clocks) && Zero(clocks[z]) {
      assert Zero(clocks[k]);
    }
  }

  /** A clock that is exactly right loses to one that is off by half a second. */
  lemma {:induction false} ExactClockLoses()
    ensures var clocks := [Clock(true, Ptp4l, Some(0.0), Some(0.0)), Clock(true, Ptp4l, Some(0.5), Some(0.0))];
            Referent(clocks, 2) == Some(1) && Closest(clocks, 0) && !Closest(clocks, 1)
  {
    var clocks := [Clock(true, Ptp4l, Some(0.0), Some(0.0)), Clock(true, Ptp4l, Some(0.5), Some(0.0))];
    assert Referent(clocks, 0) == None;
    assert Referent(clocks, 1) == Some(0);
    assert 0 in Top(clocks) && 1 in Top(clocks);
    assert Abs(clocks[0].offset.value) == 0.0 && Abs(clocks[1].offset.value) == 0.5;
  }
}
