/** affine_fit of experiments/common.py over the reals: the least-squares line. */
module AffineFit {
  import opened Options

  function Sum(xs: seq<real>): real {
    if xs == [] then 0.0 else Sum(xs[..|xs| - 1]) + xs[|xs| - 1]
  }

  function Times(x: real, y: real): real { x * y }

  function Sq(x: real): real { Times(x, x) }

  /** Sum of f(x, y) over zip(xs, ys), which stops at the shorter list. */
  function Zip(xs: seq<real>, ys: seq<real>): (points: seq<(real, real)>)
    ensures |points| == if |xs| < |ys| then |xs| else |ys|
    ensures forall i | 0 <= i < |points| :: points[i] == (xs[i], ys[i])
  {
    seq(if |xs| < |ys| then |xs| else |ys|, i requires 0 <= i < |xs| && i < |ys| => (xs[i], ys[i]))
  }

  function Line(a: real, b: real, x: real): real { a + Times(b, x) }

  /** The sum of squared residuals of y = a + b x. */
  function Residuals(points: seq<(real, real)>, a: real, b: real): real {
    if points == [] then 0.0
    else
      var (x, y) := points[|points| - 1];
      Residuals(points[..|points| - 1], a, b) + Sq(y - Line(a, b, x))
  }

  /** The sum of (x - mx)(y - my). */
  function Products(points: seq<(real, real)>, mx: real, my: real): real {
    if points == [] then 0.0
    else
      var (x, y) := points[|points| - 1];
      Products(points[..|points| - 1], mx, my) + (x - mx) * (y - my)
  }

  function Spread(xs: seq<real>, m: real): real {
    if xs == [] then 0.0 else Spread(xs[..|xs| - 1], m) + Sq(xs[|xs| - 1] - m)
  }

  function Mean(xs: seq<real>): real
    requires |xs| > 0
  {
    Sum(xs) / |xs| as real
  }

  /** What affine_fit takes for the mean of the y values: it divides by the number of
      x values. */
  function Centre(xs: seq<real>, ys: seq<real>): real
    requires |xs| > 0
  {
    Sum(ys) / |xs| as real
  }

  datatype Fit = Fit(a: real, b: real, r2: real)

  /** The line affine_fit computes, when the x values are not all one. */
  predicate Fitted(xs: seq<real>, ys: seq<real>, a: real, b: real) {
    && |xs| > 0
    && Spread(xs, Mean(xs)) != 0.0
    && b == Slope(Zip(xs, ys), Mean(xs), Centre(xs, ys), Spread(xs, Mean(xs)))
    && a == Intercept(Mean(xs), Centre(xs, ys), b)
  }

  function Slope(points: seq<(real, real)>, mx: real, my: real, sxx: real): real
    requires sxx != 0.0
  {
    Products(points, mx, my) / sxx
  }

  function Intercept(mx: real, my: real, b: real): real { my - b * mx }

  /** The coefficient of determination of a line. */
  function Determination(points: seq<(real, real)>, ys: seq<real>, my: real, a: real, b: real): real {
    var ssRes := Residuals(points, a, b);
    var ssTot := Spread(ys, my);
    if ssTot != 0.0 then 1.0 - ssRes / ssTot else 1.0
  }

  function Affine(xs: seq<real>, ys: seq<real>): (fit: Option<Fit>)
    ensures fit.Some? ==> Fitted(xs, ys, fit.value.a, fit.value.b)
    ensures fit.Some? ==> fit.value.r2 == Determination(Zip(xs, ys), ys, Centre(xs, ys), fit.value.a, fit.value.b)
  {
    var n := |xs|;
    if n < 2 then None
    else
      var mx, my := Mean(xs), Centre(xs, ys);
      var sxx := Spread(xs, mx);
      if sxx == 0.0 then None
      else
        var points := Zip(xs, ys);
        var b := Slope(points, mx, my, sxx);
        var a := Intercept(mx, my, b);
        Some(Fit(a, b, Determination(points, ys, my, a, b)))
  }

  // ------------------------------------------------------------ sums about the mean

  function Xs(points: seq<(real, real)>): seq<real> { seq(|points|, i requires 0 <= i < |points| => points[i].0) }

  function Ys(points: seq<(real, real)>): seq<real> { seq(|points|, i requires 0 <= i < |points| => points[i].1) }

  lemma {:induction false} SpreadFromMean(xs: seq<real>, m: real)
    ensures Spread(xs, m) >= 0.0
    ensures Spread(xs, m) == 0.0 <==> forall i | 0 <= i < |xs| :: xs[i] == m
  {
    if xs != [] {
      var last := |xs| - 1;
      SpreadFromMean(xs[..last], m);
      SquareSign(xs[last] - m);
      if forall i | 0 <= i < last :: xs[..last][i] == m {
        assert forall i | 0 <= i < |xs| :: i < last ==> xs[i] == xs[..last][i];
      }
    }
  }

  lemma SquareSign(x: real)
    ensures Sq(x) >= 0.0 && (Sq(x) == 0.0 <==> x == 0.0)
  {
    if x != 0.0 {
      SameSignProduct(x, x);
    }
  }

  lemma SameSignProduct(x: real, y: real)
    requires (x > 0.0 && y > 0.0) || (x < 0.0 && y < 0.0)
    ensures Times(x, y) > 0.0
  {
  }

  lemma {:induction false} ResidualsSign(points: seq<(real, real)>, a: real, b: real)
    ensures Residuals(points, a, b) >= 0.0
    ensures Residuals(points, a, b) == 0.0 <==> forall i | 0 <= i < |points| :: points[i].1 == Line(a, b, points[i].0)
  {
    if points != [] {
      var last := |points| - 1;
      ResidualsSign(points[..last], a, b);
      SquareSign(points[last].1 - Line(a, b, points[last].0));
      assert forall i | 0 <= i < last :: points[..last][i] == points[i];
    }
  }

  /** Sum of the deviations from m. */
  function Deviations(xs: seq<real>, m: real): real {
    if xs == [] then 0.0 else Deviations(xs[..|xs| - 1], m) + (xs[|xs| - 1] - m)
  }

  lemma {:induction false} DeviationsSum(xs: seq<real>, m: real)
    ensures Deviations(xs, m) == Sum(xs) - |xs| as real * m
  {
    if xs != [] {
      DeviationsSum(xs[..|xs| - 1], m);
    }
  }

  /** Deviations from the mean cancel. */
  lemma MeanCancels(xs: seq<real>)
    requires |xs| > 0
    ensures Deviations(xs, Mean(xs)) == 0.0
  {
    DeviationsSum(xs, Mean(xs));
  }

  /** The sums a residual sum is made of, about a centre (mx, my). */
  datatype Moments = Moments(n: real, yy: real, xy: real, xx: real, y: real, x: real)

  function Plus(m: Moments, k: Moments): Moments {
    Moments(m.n + k.n, m.yy + k.yy, m.xy + k.xy, m.xx + k.xx, m.y + k.y, m.x + k.x)
  }

  function MomentsAbout(points: seq<(real, real)>, mx: real, my: real): Moments {
    Moments(|points| as real, Spread(Ys(points), my), Products(points, mx, my), Spread(Xs(points), mx),
            Deviations(Ys(points), my), Deviations(Xs(points), mx))
  }

  function MomentsOfPoint(x: real, y: real, mx: real, my: real): Moments {
    Moments(1.0, Sq(y - my), (x - mx) * (y - my), Sq(x - mx), y - my, x - mx)
  }

  lemma MomentsSnoc(points: seq<(real, real)>, mx: real, my: real)
    requires points != []
    ensures var last := |points| - 1;
      MomentsAbout(points, mx, my) == Plus(MomentsAbout(points[..last], mx, my), MomentsOfPoint(points[last].0, points[last].1, mx, my))
  {
    var last := |points| - 1;
    assert Xs(points)[..last] == Xs(points[..last]) && Ys(points)[..last] == Ys(points[..last]);
  }

  /** The residuals of the line of slope b that misses the centre by d. */
  function FromMoments(m: Moments, b: real, d: real): real {
    m.yy - Times(2.0 * b, m.xy) + Times(Sq(b), m.xx) + Times(m.n, Sq(d)) - Times(2.0 * d, m.y) + Times(2.0 * d * b, m.x)
  }

  /** One residual, written around a point (mx, my) the line may miss by d. */
  lemma ResidualAround(x: real, y: real, mx: real, my: real, b: real, d: real)
    ensures Sq(y - Line(my - b * mx + d, b, x)) == FromMoments(MomentsOfPoint(x, y, mx, my), b, d)
  {
    var u, v := x - mx, y - my;
    assert y - (my - b * mx + d + b * x) == v - b * u - d by {
      assert b * x == b * u + b * mx;
    }
    SquareOfThree(v, b * u, d);
    assert Sq(b * u) == Sq(b) * Sq(u);
    assert v * (b * u) == b * (u * v);
    assert (b * u) * d == d * b * u;
  }

  lemma SquareOfThree(v: real, w: real, d: real)
    ensures Sq(v - w - d) == Sq(v) - 2.0 * (v * w) + Sq(w) + Sq(d) - 2.0 * (d * v) + 2.0 * (w * d)
  {
  }

  lemma FromMomentsAdds(m: Moments, k: Moments, b: real, d: real)
    ensures FromMoments(Plus(m, k), b, d) == FromMoments(m, b, d) + FromMoments(k, b, d)
  {
    Distribute(2.0 * b, m.xy, k.xy);
    Distribute(Sq(b), m.xx, k.xx);
    Distribute(Sq(d), m.n, k.n);
    assert Times(m.n + k.n, Sq(d)) == Times(m.n, Sq(d)) + Times(k.n, Sq(d));
    Distribute(2.0 * d, m.y, k.y);
    Distribute(2.0 * d * b, m.x, k.x);
  }

  /** The residuals of any line, about any centre (mx, my). */
  lemma {:induction false} ResidualsAround(points: seq<(real, real)>, mx: real, my: real, b: real, d: real)
    ensures Residuals(points, my - b * mx + d, b) == FromMoments(MomentsAbout(points, mx, my), b, d)
  {
    if points != [] {
      var last := |points| - 1;
      var (x, y) := points[last];
      ResidualsAround(points[..last], mx, my, b, d);
      ResidualAround(x, y, mx, my, b, d);
      MomentsSnoc(points, mx, my);
      FromMomentsAdds(MomentsAbout(points[..last], mx, my), MomentsOfPoint(x, y, mx, my), b, d);
    }
  }

  lemma Distribute(k: real, u: real, v: real)
    ensures Times(k, u + v) == Times(k, u) + Times(k, v)
  {
  }

  /** The same sum when the centre is at the means, where deviations cancel. */
  function FromCentredMoments(m: Moments, b: real, d: real): real {
    m.yy - Times(2.0 * b, m.xy) + Times(Sq(b), m.xx) + Times(m.n, Sq(d))
  }

  lemma Centred(m: Moments, b: real, d: real)
    requires m.x == 0.0 && m.y == 0.0
    ensures FromMoments(m, b, d) == FromCentredMoments(m, b, d)
  {
  }

  /** By how much a line misses the centre. */
  function Miss(mx: real, my: real, a: real, b: real): real { a - (my - b * mx) }

  lemma MissMakesUp(mx: real, my: real, a: real, b: real)
    ensures my - b * mx + Miss(mx, my, a, b) == a
  {
  }

  /** The centre is where deviations cancel. */
  predicate Central(points: seq<(real, real)>, mx: real, my: real) {
    Deviations(Xs(points), mx) == 0.0 && Deviations(Ys(points), my) == 0.0
  }

  /** The residuals of any line, by how far it is from passing through the means. */
  lemma ResidualsAboutMeans(points: seq<(real, real)>, mx: real, my: real, a: real, b: real)
    requires Central(points, mx, my)
    ensures Residuals(points, a, b) == FromCentredMoments(MomentsAbout(points, mx, my), b, Miss(mx, my, a, b))
  {
    var d := Miss(mx, my, a, b);
    MissMakesUp(mx, my, a, b);
    ResidualsAround(points, mx, my, b, d);
    Centred(MomentsAbout(points, mx, my), b, d);
  }

  /** A line of slope b2 against the one of slope b = p / s through the means. */
  lemma CompleteSquare(m: Moments, b: real, b2: real, d: real)
    requires m.xy == Times(b, m.xx)
    ensures FromCentredMoments(m, b2, d) == FromCentredMoments(m, b, 0.0) + Times(m.xx, Sq(b2 - b)) + Times(m.n, Sq(d))
    ensures FromCentredMoments(m, b, 0.0) == m.yy - Times(m.xx, Sq(b))
  {
    SlopeTerms(m.xx, b, b2);
    SlopeTerms(m.xx, b, b);
  }

  lemma SlopeTerms(s: real, b: real, b2: real)
    ensures Times(Sq(b2), s) - Times(2.0 * b2, b * s) == Times(s, Sq(b2 - b)) - Times(s, Sq(b))
  {
  }

  // ------------------------------------------------------------ the best line

  /** No line has a smaller sum of squared residuals. */
  ghost predicate Best(points: seq<(real, real)>, a: real, b: real) {
    forall c, d :: Residuals(points, a, b) <= Residuals(points, c, d)
  }

  /** The same for the line of slope b that misses the centre by d, from the moments. */
  ghost predicate LeastMoments(m: Moments, b: real) {
    forall e, d :: FromMoments(m, b, 0.0) <= FromMoments(m, e, d)
  }

  /** How fast the sum grows with the slope and with the miss, at the line of slope b
      through the centre. */
  function SlopeGain(m: Moments, b: real): real { Times(b, m.xx) - m.xy }

  function MissGain(m: Moments, b: real): real { Times(b, m.x) - m.y }

  /** The part of the sum that does not depend on y. */
  function Curve(m: Moments, e: real, d: real): real {
    Times(Sq(e), m.xx) + Times(m.n, Sq(d)) + Times(2.0 * d * e, m.x)
  }

  lemma GainsAndCurve(m: Moments, b: real, e: real, d: real)
    ensures FromMoments(m, b + e, d)
         == FromMoments(m, b, 0.0) + Times(2.0 * e, SlopeGain(m, b)) + Times(2.0 * d, MissGain(m, b)) + Curve(m, e, d)
  {
    SlopePart(m.xy, m.xx, b, e);
    MissPart(m.x, m.y, b, e, d);
  }

  lemma SlopePart(xy: real, xx: real, b: real, e: real)
    ensures Times(Sq(b + e), xx) - Times(2.0 * (b + e), xy)
         == Times(Sq(b), xx) - Times(2.0 * b, xy) + Times(2.0 * e, Times(b, xx) - xy) + Times(Sq(e), xx)
  {
    assert Sq(b + e) == Sq(b) + 2.0 * (b * e) + Sq(e);
    assert Times(Sq(b + e), xx) == Times(Sq(b), xx) + 2.0 * (b * e) * xx + Times(Sq(e), xx);
    assert Times(2.0 * e, Times(b, xx) - xy) == 2.0 * (b * e) * xx - 2.0 * e * xy;
  }

  lemma MissPart(x: real, y: real, b: real, e: real, d: real)
    ensures Times(2.0 * d * (b + e), x) - Times(2.0 * d, y)
         == Times(2.0 * d, Times(b, x) - y) + Times(2.0 * d * e, x)
  {
    assert Times(2.0 * d, Times(b, x) - y) == 2.0 * d * b * x - 2.0 * d * y;
    assert Times(2.0 * d * (b + e), x) == 2.0 * d * b * x + 2.0 * d * e * x;
  }

  /** A sum that grows at rate g and curves by k has its minimum at the start only
      when g is zero. */
  lemma StepDown(g: real, k: real) returns (e: real)
    requires g != 0.0 && k >= 0.0
    ensures Times(2.0 * e, g) + Times(Sq(e), k) < 0.0
  {
    var c := k + 1.0;
    e := -(g / c);
    var q := g / c;
    SquareSign(q);
    assert g == Times(q, c);
    StepValue(q, c, k);
    ProductSign(c + 1.0, q);
  }

  lemma StepValue(q: real, c: real, k: real)
    requires c == k + 1.0
    ensures Times(2.0 * -q, Times(q, c)) + Times(Sq(-q), k) == -Times(c + 1.0, Sq(q))
  {
    assert Times(2.0 * -q, Times(q, c)) == -2.0 * Sq(q) * c;
    assert Sq(-q) == Sq(q);
  }

  /** The line of slope b through the centre is the best one exactly when both rates
      are zero. */
  lemma BestExactlyWithoutGains(m: Moments, b: real)
    requires m.xx >= 0.0 && m.n >= 0.0 && forall e, d :: Curve(m, e, d) >= 0.0
    ensures LeastMoments(m, b) <==> SlopeGain(m, b) == 0.0 && MissGain(m, b) == 0.0
  {
    if SlopeGain(m, b) == 0.0 && MissGain(m, b) == 0.0 {
      forall e, d ensures FromMoments(m, b, 0.0) <= FromMoments(m, e, d) {
        GainsAndCurve(m, b, e - b, d);
        assert Curve(m, e - b, d) >= 0.0;
      }
    } else if SlopeGain(m, b) != 0.0 {
      var e := StepDown(SlopeGain(m, b), m.xx);
      GainsAndCurve(m, b, e, 0.0);
      assert FromMoments(m, b + e, 0.0) < FromMoments(m, b, 0.0);
    } else {
      var d := StepDown(MissGain(m, b), m.n);
      GainsAndCurve(m, b, 0.0, d);
      assert Curve(m, 0.0, d) == Times(m.n, Sq(d));
      assert FromMoments(m, b + 0.0, d) < FromMoments(m, b, 0.0);
    }
  }

  /** The curve is itself a sum of squares: of the residuals of points all at the height
      of the centre. */
  lemma {:induction false} CurveIsPositive(points: seq<(real, real)>, mx: real, my: real, e: real, d: real)
    ensures Curve(MomentsAbout(points, mx, my), e, d) >= 0.0
  {
    var flat := Flat(points, my);
    FlatMoments(points, mx, my);
    ResidualsAround(flat, mx, my, e, d);
    ResidualsSign(flat, my - e * mx + d, e);
  }

  function Flat(points: seq<(real, real)>, my: real): (flat: seq<(real, real)>)
    ensures |flat| == |points|
  {
    if points == [] then [] else Flat(points[..|points| - 1], my) + [(points[|points| - 1].0, my)]
  }

  lemma {:induction false} FlatMoments(points: seq<(real, real)>, mx: real, my: real)
    ensures var m := MomentsAbout(points, mx, my);
      MomentsAbout(Flat(points, my), mx, my) == Moments(m.n, 0.0, 0.0, m.xx, 0.0, m.x)
  {
    if points != [] {
      var last := |points| - 1;
      FlatMoments(points[..last], mx, my);
      MomentsSnoc(points, mx, my);
      MomentsSnoc(Flat(points, my), mx, my);
      assert Flat(points, my)[..last] == Flat(points[..last], my);
    }
  }

  lemma BestFromMoments(points: seq<(real, real)>, mx: real, my: real, a: real, b: real)
    requires a == my - b * mx
    ensures Best(points, a, b) <==> LeastMoments(MomentsAbout(points, mx, my), b)
  {
    var m := MomentsAbout(points, mx, my);
    ResidualsAround(points, mx, my, b, 0.0);
    assert Residuals(points, a, b) == FromMoments(m, b, 0.0);
    if Best(points, a, b) {
      forall e, d ensures FromMoments(m, b, 0.0) <= FromMoments(m, e, d) {
        ResidualsAround(points, mx, my, e, d);
        assert Residuals(points, a, b) <= Residuals(points, my - e * mx + d, e);
      }
    }
    if LeastMoments(m, b) {
      forall c, e ensures Residuals(points, a, b) <= Residuals(points, c, e) {
        ResidualsAround(points, mx, my, e, c - (my - e * mx));
        assert FromMoments(m, b, 0.0) <= FromMoments(m, e, c - (my - e * mx));
      }
    }
  }

  lemma ZipColumns(xs: seq<real>, ys: seq<real>)
    ensures var k := |Zip(xs, ys)|; Xs(Zip(xs, ys)) == xs[..k] && Ys(Zip(xs, ys)) == ys[..k]
  {
  }

  lemma ZipPairs(xs: seq<real>, ys: seq<real>)
    requires |xs| == |ys|
    ensures Xs(Zip(xs, ys)) == xs && Ys(Zip(xs, ys)) == ys
  {
    ZipColumns(xs, ys);
  }

  /** The line through the means with slope Sxy / Sxx against any other line. */
  lemma BestLine(points: seq<(real, real)>, mx: real, my: real, fa: real, fb: real, a: real, b: real)
    requires |points| > 0 && Central(points, mx, my) && Spread(Xs(points), mx) > 0.0
    requires Products(points, mx, my) == Times(fb, Spread(Xs(points), mx)) && fa == Intercept(mx, my, fb)
    ensures Residuals(points, fa, fb) <= Residuals(points, a, b)
    ensures Residuals(points, a, b) == Residuals(points, fa, fb) <==> a == fa && b == fb
  {
    ResidualsAboutMeans(points, mx, my, a, b);
    ResidualsAboutMeans(points, mx, my, fa, fb);
    MissNothing(mx, my, fa, fb);
    BestMoments(MomentsAbout(points, mx, my), fb, b, Miss(mx, my, a, b));
    SameLine(mx, my, fa, fb, a, b);
  }

  lemma MissNothing(mx: real, my: real, a: real, b: real)
    requires a == Intercept(mx, my, b)
    ensures Miss(mx, my, a, b) == 0.0
  {
  }

  lemma BestMoments(m: Moments, b: real, b2: real, d: real)
    requires m.xx > 0.0 && m.n > 0.0 && m.xy == Times(b, m.xx)
    ensures FromCentredMoments(m, b, 0.0) <= FromCentredMoments(m, b2, d)
    ensures FromCentredMoments(m, b, 0.0) == FromCentredMoments(m, b2, d) <==> b2 == b && d == 0.0
  {
    CompleteSquare(m, b, b2, d);
    ProductSign(m.xx, b2 - b);
    ProductSign(m.n, d);
  }

  lemma SameLine(mx: real, my: real, fa: real, fb: real, a: real, b: real)
    requires fa == Intercept(mx, my, fb)
    ensures b == fb && Miss(mx, my, a, b) == 0.0 <==> a == fa && b == fb
  {
  }

  /** Over all lines, the fit has the least sum of squared residuals, and no other
      line has it. */
  lemma FitIsTheMinimum(xs: seq<real>, ys: seq<real>, a: real, b: real)
    requires |xs| == |ys| && Affine(xs, ys).Some?
    ensures var fit := Affine(xs, ys).value; var points := Zip(xs, ys);
      && Residuals(points, fit.a, fit.b) <= Residuals(points, a, b)
      && (Residuals(points, a, b) == Residuals(points, fit.a, fit.b) <==> a == fit.a && b == fit.b)
  {
    FittedIsTheMinimum(xs, ys, Affine(xs, ys).value.a, Affine(xs, ys).value.b, a, b);
  }

  lemma FittedIsTheMinimum(xs: seq<real>, ys: seq<real>, fa: real, fb: real, a: real, b: real)
    requires |xs| == |ys| && Fitted(xs, ys, fa, fb)
    ensures Residuals(Zip(xs, ys), fa, fb) <= Residuals(Zip(xs, ys), a, b)
    ensures Residuals(Zip(xs, ys), a, b) == Residuals(Zip(xs, ys), fa, fb) <==> a == fa && b == fb
  {
    ZipPairs(xs, ys);
    SpreadFromMean(xs, Mean(xs));
    MeanCancels(xs);
    MeanCancels(ys);
    QuotientTimes(fb, Products(Zip(xs, ys), Mean(xs), Mean(ys)), Spread(xs, Mean(xs)));
    BestLine(Zip(xs, ys), Mean(xs), Mean(ys), fa, fb, a, b);
  }

  lemma ProductSign(k: real, x: real)
    requires k > 0.0
    ensures Times(k, Sq(x)) >= 0.0 && (Times(k, Sq(x)) == 0.0 <==> x == 0.0)
  {
    SquareSign(x);
    if x != 0.0 {
      SameSignProduct(k, Sq(x));
    }
  }

  /** What the fit leaves of the spread of the y values it used. */
  lemma ResidualOfFit(xs: seq<real>, ys: seq<real>, a: real, b: real)
    requires Fitted(xs, ys, a, b)
    ensures var points := Zip(xs, ys);
      Residuals(points, a, b)
      == Spread(Ys(points), Centre(xs, ys)) - Times(2.0 * Spread(xs, Mean(xs)) - Spread(Xs(points), Mean(xs)), Sq(b))
  {
    ResidualValue(Zip(xs, ys), Mean(xs), Centre(xs, ys), a, b, Spread(xs, Mean(xs)));
  }

  lemma NothingLeftExactly(xs: seq<real>, ys: seq<real>, fit: Fit)
    ensures Residuals(Zip(xs, ys), fit.a, fit.b) >= 0.0
    ensures Residuals(Zip(xs, ys), fit.a, fit.b) == 0.0 <==> OnLine(xs, ys, fit)
  {
    var points := Zip(xs, ys);
    ResidualsSign(points, fit.a, fit.b);
    assert forall i | 0 <= i < |points| :: points[i] == (xs[i], ys[i]);
  }

  lemma ResidualValue(points: seq<(real, real)>, mx: real, my: real, a: real, b: real, sxx: real)
    requires sxx != 0.0 && a == my - b * mx && b == Products(points, mx, my) / sxx
    ensures Residuals(points, a, b) == Spread(Ys(points), my) - Times(2.0 * sxx - Spread(Xs(points), mx), Sq(b))
  {
    var m := MomentsAbout(points, mx, my);
    ResidualsAround(points, mx, my, b, 0.0);
    QuotientTimes(b, m.xy, sxx);
    FitResidual(m, b, sxx);
  }

  lemma FitResidual(m: Moments, b: real, sxx: real)
    requires m.xy == Times(b, sxx)
    ensures FromMoments(m, b, 0.0) == m.yy - Times(2.0 * sxx - m.xx, Sq(b))
  {
    assert Times(2.0 * b, Times(b, sxx)) == 2.0 * Sq(b) * sxx;
  }

  predicate OnLine(xs: seq<real>, ys: seq<real>, fit: Fit) {
    forall i | 0 <= i < |xs| && i < |ys| :: ys[i] == Line(fit.a, fit.b, xs[i])
  }

  /** What the residuals leave of the whole spread: never negative. */
  lemma Explained(xs: seq<real>, ys: seq<real>, a: real, b: real) returns (gap: real)
    requires Fitted(xs, ys, a, b)
    ensures gap == Spread(ys, Centre(xs, ys)) - Residuals(Zip(xs, ys), a, b) && gap >= 0.0
    ensures gap == 0.0 <==> b == 0.0 && forall i | |xs| <= i < |ys| :: ys[i] == Centre(xs, ys)
  {
    var k, mx, my := |Zip(xs, ys)|, Mean(xs), Centre(xs, ys);
    var curve, rest := Spread(xs, mx) + Spread(xs[k..], mx), Spread(ys[k..], my);
    ResidualOfFit(xs, ys, a, b);
    gap := Spread(ys, my) - Residuals(Zip(xs, ys), a, b);
    ZipColumns(xs, ys);
    SpreadSplits(xs, k, mx);
    SpreadSplits(ys, k, my);
    SpreadFromMean(xs, mx);
    SpreadFromMean(xs[k..], mx);
    ProductSign(curve, b);
    SurplusAtCentre(xs, ys);
    assert gap == rest + Times(curve, Sq(b));
  }

  lemma SurplusAtCentre(xs: seq<real>, ys: seq<real>)
    requires |xs| > 0
    ensures var k, my := |Zip(xs, ys)|, Centre(xs, ys);
      && Spread(ys[k..], my) >= 0.0
      && (Spread(ys[k..], my) == 0.0 <==> forall i | |xs| <= i < |ys| :: ys[i] == my)
  {
    var k, my := |Zip(xs, ys)|, Centre(xs, ys);
    var rest := ys[k..];
    SpreadFromMean(rest, my);
    assert forall i | 0 <= i < |rest| :: rest[i] == ys[k + i];
    assert forall i | k <= i < |ys| :: ys[i] == rest[i - k];
  }

  /** The coefficient of determination, for lists of any lengths: between 0 and 1; 1
      exactly when the line passes through every point or the y values do not vary
      about the centre, and 0 exactly when they do and the line is flat and misses none
      of the surplus. */
  lemma DeterminationRange(xs: seq<real>, ys: seq<real>)
    requires Affine(xs, ys).Some?
    ensures var fit, my := Affine(xs, ys).value, Centre(xs, ys);
      && 0.0 <= fit.r2 <= 1.0
      && (fit.r2 == 1.0 <==> OnLine(xs, ys, fit) || forall i | 0 <= i < |ys| :: ys[i] == my)
      && (fit.r2 == 0.0 <==>
            && fit.b == 0.0
            && (forall i | |xs| <= i < |ys| :: ys[i] == my)
            && exists i | 0 <= i < |ys| :: ys[i] != my)
  {
    var fit := Affine(xs, ys).value;
    var res := Residuals(Zip(xs, ys), fit.a, fit.b);
    var gap := Explained(xs, ys, fit.a, fit.b);
    NothingLeftExactly(xs, ys, fit);
    var syy := Spread(ys, Centre(xs, ys));
    SpreadFromMean(ys, Centre(xs, ys));
    if syy != 0.0 {
      QuotientRange(res, syy);
    }
  }

  /** With lists of one length: 1 exactly when the line passes through every point, and
      0 exactly when the y values vary but the best line is flat. */
  lemma DeterminationOfPairs(xs: seq<real>, ys: seq<real>)
    requires |xs| == |ys| && Affine(xs, ys).Some?
    ensures var fit := Affine(xs, ys).value;
      && (fit.r2 == 1.0 <==> forall i | 0 <= i < |xs| :: ys[i] == Line(fit.a, fit.b, xs[i]))
      && (fit.r2 == 0.0 <==> fit.b == 0.0 && exists i, j | 0 <= i < j < |ys| :: ys[i] != ys[j])
  {
    DeterminationRange(xs, ys);
    var fit := Affine(xs, ys).value;
    var gap := Explained(xs, ys, fit.a, fit.b);
    NothingLeftExactly(xs, ys, fit);
    SpreadFromMean(ys, Mean(ys));
    ConstantExactlyWithoutSpread(ys);
  }

  /** What r2 falls short of 1 is the share of the spread that the residuals are. */
  lemma DeterminationOfLine(points: seq<(real, real)>, ys: seq<real>, my: real, a: real, b: real)
    ensures Spread(ys, my) != 0.0 ==>
      Times(1.0 - Determination(points, ys, my, a, b), Spread(ys, my)) == Residuals(points, a, b)
    ensures Spread(ys, my) == 0.0 ==> Determination(points, ys, my, a, b) == 1.0
  {
    var res, tot := Residuals(points, a, b), Spread(ys, my);
    if tot != 0.0 {
      QuotientTimes(res / tot, res, tot);
    }
  }

  /** r2 is 1 less the share of the spread left in the residuals, and 1 without spread. */
  predicate IsDetermination(r2: real, points: seq<(real, real)>, ys: seq<real>, my: real, a: real, b: real) {
    if forall i | 0 <= i < |ys| :: ys[i] == my then r2 == 1.0
    else Times(1.0 - r2, Spread(ys, my)) == Residuals(points, a, b)
  }

  lemma DeterminationIs(points: seq<(real, real)>, ys: seq<real>, my: real, a: real, b: real)
    ensures IsDetermination(Determination(points, ys, my, a, b), points, ys, my, a, b)
  {
    SpreadFromMean(ys, my);
    DeterminationOfLine(points, ys, my, a, b);
  }

  /** The value of r2, for lists of any lengths: when the y values vary about the centre
      it is 1 less the share of their spread left in the residuals, and 1 otherwise. */
  lemma DeterminationValue(xs: seq<real>, ys: seq<real>)
    requires Affine(xs, ys).Some?
    ensures var fit := Affine(xs, ys).value;
      IsDetermination(fit.r2, Zip(xs, ys), ys, Centre(xs, ys), fit.a, fit.b)
  {
    DeterminationIs(Zip(xs, ys), ys, Centre(xs, ys), Affine(xs, ys).value.a, Affine(xs, ys).value.b);
  }

  /** For lists of one length r2 is the square of the correlation. */
  lemma DeterminationIsCorrelation(xs: seq<real>, ys: seq<real>)
    requires |xs| == |ys| && Affine(xs, ys).Some? && exists i | 0 <= i < |ys| :: ys[i] != Mean(ys)
    ensures Times(Affine(xs, ys).value.r2, Times(Spread(xs, Mean(xs)), Spread(ys, Mean(ys))))
         == Sq(Products(Zip(xs, ys), Mean(xs), Mean(ys)))
  {
    DeterminationValue(xs, ys);
    var fit := Affine(xs, ys).value;
    CorrelationOfLine(xs, ys, fit.a, fit.b, fit.r2);
  }

  lemma CorrelationOfLine(xs: seq<real>, ys: seq<real>, a: real, b: real, r2: real)
    requires |xs| == |ys| && Fitted(xs, ys, a, b)
    requires Times(1.0 - r2, Spread(ys, Mean(ys))) == Residuals(Zip(xs, ys), a, b)
    ensures Times(r2, Times(Spread(xs, Mean(xs)), Spread(ys, Mean(ys)))) == Sq(Products(Zip(xs, ys), Mean(xs), Mean(ys)))
  {
    ResidualOfFit(xs, ys, a, b);
    ZipPairs(xs, ys);
    QuotientTimes(b, Products(Zip(xs, ys), Mean(xs), Mean(ys)), Spread(xs, Mean(xs)));
    SquaredCorrelation(r2, Residuals(Zip(xs, ys), a, b), b, Spread(xs, Mean(xs)), Spread(ys, Mean(ys)),
      Products(Zip(xs, ys), Mean(xs), Mean(ys)));
  }

  lemma SquaredCorrelation(r2: real, res: real, b: real, sxx: real, syy: real, sxy: real)
    requires Times(1.0 - r2, syy) == res && res == syy - Times(2.0 * sxx - sxx, Sq(b)) && sxy == Times(b, sxx)
    ensures Times(r2, Times(sxx, syy)) == Sq(sxy)
  {
    var explained := Times(sxx, Sq(b));
    assert Times(r2, syy) == explained;
    Swapped(r2, sxx, syy);
    SquareOfProduct(b, sxx);
  }

  lemma Swapped(x: real, y: real, z: real)
    ensures Times(x, Times(y, z)) == Times(Times(x, z), y)
  {
  }

  lemma SquareOfProduct(b: real, s: real)
    ensures Sq(Times(b, s)) == Times(Times(s, Sq(b)), s)
  {
  }

  lemma QuotientRange(r: real, t: real)
    requires 0.0 <= r <= t && t > 0.0
    ensures 0.0 <= r / t <= 1.0
    ensures r / t == 0.0 <==> r == 0.0
    ensures r / t == 1.0 <==> r == t
  {
  }

  lemma ConstantExactlyWithoutSpread(ys: seq<real>)
    requires |ys| > 0
    ensures Spread(ys, Mean(ys)) != 0.0 <==> exists i, j | 0 <= i < j < |ys| :: ys[i] != ys[j]
  {
    SpreadFromMean(ys, Mean(ys));
    if forall i, j | 0 <= i < j < |ys| :: ys[i] == ys[j] {
      forall i | 0 <= i < |ys| ensures ys[i] == ys[0] {
      }
      ConstantMean(ys, ys[0]);
    }
  }

  lemma {:induction false} ConstantSum(ys: seq<real>, c: real)
    requires forall i | 0 <= i < |ys| :: ys[i] == c
    ensures Sum(ys) == |ys| as real * c
  {
    if ys != [] {
      ConstantSum(ys[..|ys| - 1], c);
    }
  }

  lemma ConstantMean(ys: seq<real>, c: real)
    requires |ys| > 0 && forall i | 0 <= i < |ys| :: ys[i] == c
    ensures Mean(ys) == c
  {
    ConstantSum(ys, c);
  }

  /** When there is a fit at all: at least two x values, not all equal. */
  lemma FitExists(xs: seq<real>, ys: seq<real>)
    ensures Affine(xs, ys).Some? <==> exists i, j | 0 <= i < j < |xs| :: xs[i] != xs[j]
  {
    if |xs| >= 1 {
      ConstantExactlyWithoutSpread(xs);
    }
  }

  /** Where the sums cancel: the surplus y values add to nothing; or, with a surplus of
      x values, the y values add to nothing, and either the products do as well or the
      surplus is all at the mean. */
  predicate Cancels(xs: seq<real>, ys: seq<real>) {
    if |xs| <= |ys| then Sum(ys[|xs|..]) == 0.0
    else
      && Sum(ys) == 0.0
      && (Products(Zip(xs, ys), 0.0, 0.0) == 0.0 || SurplusAtMean(xs, |ys|))
  }

  /** affine_fit does not check that the lists have one length.  For lists of any
      lengths, the line it returns is a least-squares line of the points it used exactly
      when the sums cancel; lists of one length have no surplus. */
  lemma FitIsBestExactly(xs: seq<real>, ys: seq<real>)
    requires Affine(xs, ys).Some?
    ensures Best(Zip(xs, ys), Affine(xs, ys).value.a, Affine(xs, ys).value.b) <==> Cancels(xs, ys)
    ensures |xs| == |ys| ==> Cancels(xs, ys)
  {
    FittedIsBestExactly(xs, ys, Affine(xs, ys).value.a, Affine(xs, ys).value.b);
    if |xs| == |ys| {
      assert ys[|xs|..] == [];
    }
  }

  lemma FittedIsBestExactly(xs: seq<real>, ys: seq<real>, a: real, b: real)
    requires Fitted(xs, ys, a, b)
    ensures Best(Zip(xs, ys), a, b) <==> Cancels(xs, ys)
  {
    var m := MomentsAbout(Zip(xs, ys), Mean(xs), Centre(xs, ys));
    BestByGains(Zip(xs, ys), Mean(xs), Centre(xs, ys), a, b);
    QuotientTimes(b, m.xy, Spread(xs, Mean(xs)));
    if |xs| <= |ys| {
      SurplusOfY(xs, ys, m, b);
    } else {
      SurplusOfX(xs, ys, m, b);
    }
  }

  lemma BestByGains(points: seq<(real, real)>, mx: real, my: real, a: real, b: real)
    requires a == my - b * mx
    ensures var m := MomentsAbout(points, mx, my);
      Best(points, a, b) <==> SlopeGain(m, b) == 0.0 && MissGain(m, b) == 0.0
  {
    var m := MomentsAbout(points, mx, my);
    BestFromMoments(points, mx, my, a, b);
    SpreadFromMean(Xs(points), mx);
    forall e, d ensures Curve(m, e, d) >= 0.0 {
      CurveIsPositive(points, mx, my, e, d);
    }
    BestExactlyWithoutGains(m, b);
  }

  lemma QuotientTimes(q: real, x: real, s: real)
    requires s != 0.0 && q == x / s
    ensures x == Times(q, s)
    ensures q == 0.0 <==> x == 0.0
  {
  }

  lemma SurplusOfY(xs: seq<real>, ys: seq<real>, m: Moments, b: real)
    requires 0 < |xs| <= |ys| && m.xy == Times(b, Spread(xs, Mean(xs)))
    requires m == MomentsAbout(Zip(xs, ys), Mean(xs), Centre(xs, ys))
    ensures SlopeGain(m, b) == 0.0 && MissGain(m, b) == Sum(ys[|xs|..])
  {
    var n, my := |xs|, Centre(xs, ys);
    ZipColumns(xs, ys);
    assert xs[..n] == xs;
    MeanCancels(xs);
    DeviationsSum(ys[..n], my);
    SumSplits(ys, n);
    QuotientTimes(my, Sum(ys), n as real);
    assert Times(b, 0.0) == 0.0;
  }

  predicate SurplusAtMean(xs: seq<real>, k: nat)
    requires k < |xs|
  {
    forall i | k <= i < |xs| :: xs[i] == Mean(xs)
  }

  lemma SurplusOfX(xs: seq<real>, ys: seq<real>, m: Moments, b: real)
    requires |ys| < |xs| && Spread(xs, Mean(xs)) != 0.0 && m.xy == Times(b, Spread(xs, Mean(xs)))
    requires b == 0.0 <==> m.xy == 0.0
    requires m == MomentsAbout(Zip(xs, ys), Mean(xs), Centre(xs, ys))
    ensures SlopeGain(m, b) == 0.0 && MissGain(m, b) == 0.0 <==> Cancels(xs, ys)
  {
    SlopeGainWithSurplus(xs, ys, m, b);
    if b == 0.0 || SurplusAtMean(xs, |ys|) {
      MissGainWithSurplus(xs, ys, m, b);
    }
    if Sum(ys) == 0.0 {
      ProductsWithoutCentre(xs, ys);
    }
  }

  lemma SlopeGainWithSurplus(xs: seq<real>, ys: seq<real>, m: Moments, b: real)
    requires |ys| < |xs| && m.xy == Times(b, Spread(xs, Mean(xs)))
    requires m == MomentsAbout(Zip(xs, ys), Mean(xs), Centre(xs, ys))
    ensures SlopeGain(m, b) == 0.0 <==> b == 0.0 || SurplusAtMean(xs, |ys|)
  {
    var k, mx := |ys|, Mean(xs);
    ZipColumns(xs, ys);
    SpreadSplits(xs, k, mx);
    SlopeGainOfSurplus(m.xx, m.xy, b, Spread(xs, mx), Spread(xs[k..], mx));
    AtTheMean(xs, k);
  }

  lemma MissGainWithSurplus(xs: seq<real>, ys: seq<real>, m: Moments, b: real)
    requires |ys| < |xs| && m == MomentsAbout(Zip(xs, ys), Mean(xs), Centre(xs, ys))
    requires b == 0.0 || SurplusAtMean(xs, |ys|)
    ensures MissGain(m, b) == 0.0 <==> Sum(ys) == 0.0
  {
    var x, y := DeviationsOfSurplus(xs, ys);
    OnlyMiss(b, x, y);
  }

  lemma DeviationsOfSurplus(xs: seq<real>, ys: seq<real>) returns (x: real, y: real)
    requires |ys| < |xs|
    ensures var m := MomentsAbout(Zip(xs, ys), Mean(xs), Centre(xs, ys)); x == m.x && y == m.y
    ensures SurplusAtMean(xs, |ys|) ==> x == 0.0
    ensures y == 0.0 <==> Sum(ys) == 0.0
  {
    x, y := Deviations(xs[..|ys|], Mean(xs)), Deviations(ys, Centre(xs, ys));
    ZipColumns(xs, ys);
    assert ys[..|ys|] == ys;
    if SurplusAtMean(xs, |ys|) {
      DeviationsWithout(xs, |ys|);
    }
    MissOfSurplus(xs, ys);
  }

  lemma OnlyMiss(b: real, x: real, y: real)
    requires b == 0.0 || x == 0.0
    ensures Times(b, x) - y == 0.0 <==> y == 0.0
  {
  }

  /** The slope is too steep or not steep enough by what the surplus adds to the spread. */
  lemma SlopeGainOfSurplus(xx: real, xy: real, b: real, sxx: real, rest: real)
    requires xy == Times(b, sxx) && sxx == xx + rest
    ensures Times(b, xx) - xy == -Times(b, rest)
    ensures Times(b, xx) - xy == 0.0 <==> b == 0.0 || rest == 0.0
  {
    Distribute(b, xx, rest);
    if b != 0.0 && rest != 0.0 {
      NoZeroProduct(b, rest);
    }
  }

  lemma NoZeroProduct(x: real, y: real)
    requires x != 0.0 && y != 0.0
    ensures Times(x, y) != 0.0
  {
  }

  lemma AtTheMean(xs: seq<real>, k: nat)
    requires k < |xs|
    ensures Spread(xs[k..], Mean(xs)) == 0.0 <==> SurplusAtMean(xs, k)
  {
    var rest := xs[k..];
    SpreadFromMean(rest, Mean(xs));
    assert forall i | 0 <= i < |rest| :: rest[i] == xs[k + i];
    assert forall i | k <= i < |xs| :: xs[i] == rest[i - k];
  }

  /** A surplus at the mean leaves the other deviations to cancel. */
  lemma DeviationsWithout(xs: seq<real>, k: nat)
    requires k < |xs| && SurplusAtMean(xs, k)
    ensures Deviations(xs[..k], Mean(xs)) == 0.0
  {
    var mx, rest := Mean(xs), xs[k..];
    ConstantSum(rest, mx);
    SumSplits(xs, k);
    DeviationsSum(xs[..k], mx);
    QuotientTimes(mx, Sum(xs), |xs| as real);
    Distribute(mx, k as real, |rest| as real);
  }

  lemma MissOfSurplus(xs: seq<real>, ys: seq<real>)
    requires |ys| < |xs|
    ensures Deviations(ys, Centre(xs, ys)) == 0.0 <==> Sum(ys) == 0.0
  {
    DeviationsSum(ys, Centre(xs, ys));
    ShareOfSurplus(Sum(ys), |xs| as real, |ys| as real);
  }

  lemma ProductsWithoutCentre(xs: seq<real>, ys: seq<real>)
    requires |ys| < |xs| && Sum(ys) == 0.0
    ensures Centre(xs, ys) == 0.0
    ensures Products(Zip(xs, ys), Mean(xs), 0.0) == Products(Zip(xs, ys), 0.0, 0.0)
  {
    ProductsShift(Zip(xs, ys), Mean(xs));
    ZipColumns(xs, ys);
    assert ys[..|ys|] == ys;
  }

  lemma ShareOfSurplus(sum: real, n: real, k: real)
    requires 0.0 <= k < n
    ensures sum - k * (sum / n) == 0.0 <==> sum == 0.0
  {
    var q := sum / n;
    assert sum == q * n;
    assert sum - k * q == q * (n - k);
  }

  lemma {:induction false} ProductsShift(points: seq<(real, real)>, mx: real)
    ensures Products(points, mx, 0.0) == Products(points, 0.0, 0.0) - Times(mx, Sum(Ys(points)))
  {
    if points != [] {
      var last := |points| - 1;
      ProductsShift(points[..last], mx);
      assert Ys(points)[..last] == Ys(points[..last]);
      Distribute(mx, Sum(Ys(points[..last])), points[last].1);
    }
  }

  lemma {:induction false} SumSplits(xs: seq<real>, k: nat)
    requires k <= |xs|
    ensures Sum(xs) == Sum(xs[..k]) + Sum(xs[k..])
  {
    if k == |xs| {
      assert xs[..k] == xs;
    } else {
      var last := |xs| - 1;
      SumSplits(xs[..last], k);
      assert xs[..last][..k] == xs[..k] && xs[..last][k..] == xs[k..][..last - k];
    }
  }

  lemma {:induction false} SpreadSplits(xs: seq<real>, k: nat, m: real)
    requires k <= |xs|
    ensures Spread(xs, m) == Spread(xs[..k], m) + Spread(xs[k..], m)
  {
    if k == |xs| {
      assert xs[..k] == xs;
    } else {
      var last := |xs| - 1;
      SpreadSplits(xs[..last], k, m);
      assert xs[..last][..k] == xs[..k] && xs[..last][k..] == xs[k..][..last - k];
    }
  }

  /** Points on one line, and a fit that is not best: that line is better. */
  lemma LineThroughAllIsBetter(xs: seq<real>, ys: seq<real>, c: real, d: real)
    requires Affine(xs, ys).Some? && !Cancels(xs, ys)
    requires forall i | 0 <= i < |xs| && i < |ys| :: ys[i] == Line(c, d, xs[i])
    ensures Residuals(Zip(xs, ys), Affine(xs, ys).value.a, Affine(xs, ys).value.b) > Residuals(Zip(xs, ys), c, d)
  {
    var fit, points := Affine(xs, ys).value, Zip(xs, ys);
    FitIsBestExactly(xs, ys);
    ResidualsSign(points, c, d);
    var e, f :| Residuals(points, fit.a, fit.b) > Residuals(points, e, f);
    ResidualsSign(points, e, f);
  }

  /** Two inputs whose sums do not cancel, one for each surplus, both with all their
      points on y = x, and one whose sums do cancel. */
  lemma UnequalLengthsMisfit(xs: seq<real>, ys: seq<real>)
    requires (xs == [0.0, 2.0] && ys == [0.0, 2.0, 4.0]) || (xs == [0.0, 2.0, 4.0] && ys == [0.0, 2.0])
    ensures Affine(xs, ys).Some?
    ensures Residuals(Zip(xs, ys), Affine(xs, ys).value.a, Affine(xs, ys).value.b) > Residuals(Zip(xs, ys), 0.0, 1.0)
  {
    assert xs[0] != xs[1];
    FitExists(xs, ys);
    if |xs| == 2 {
      SumOfOne(ys[2..]);
    } else {
      SumSplits(ys, 1);
      SumOfOne(ys[..1]);
      SumOfOne(ys[1..]);
    }
    LineThroughAllIsBetter(xs, ys, 0.0, 1.0);
  }

  lemma UnequalLengthsFit(xs: seq<real>, ys: seq<real>)
    requires xs == [0.0, 2.0] && ys == [0.0, 2.0, 0.0]
    ensures Affine(xs, ys).Some? && Best(Zip(xs, ys), Affine(xs, ys).value.a, Affine(xs, ys).value.b)
  {
    assert xs[0] != xs[1];
    FitExists(xs, ys);
    SumOfOne(ys[2..]);
    FitIsBestExactly(xs, ys);
  }

  lemma SumOfOne(xs: seq<real>)
    requires |xs| == 1
    ensures Sum(xs) == xs[0]
  {
    assert xs[..0] == [];
  }
}
