/** The straight line through a set of points that leaves the least sum of squares. */
module LeastSquares {
  import opened Folds
  import opened Arithmetic

  datatype Point = Point(x: real, y: real)

  datatype Line = Line(slope: real, intercept: real)
  {
    function At(x: real): real { intercept + slope * x }

    function Residual(p: Point): real { p.y - At(p.x) }
  }

  const XOf: Point -> real := (p: Point) => p.x
  const YOf: Point -> real := (p: Point) => p.y

  function ResidualTo(l: Line): Point -> real { (p: Point) => l.Residual(p) }
  function SquareTo(l: Line): Point -> real { (p: Point) => Square(l.Residual(p)) }
  function SquareFromMean(mx: real): Point -> real { (p: Point) => Square(p.x - mx) }
  function CrossFromMean(mx: real, my: real): Point -> real { (p: Point) => (p.x - mx) * (p.y - my) }

  function MeanX(s: seq<Point>): real requires s != [] { Sum(s, XOf) / |s| as real }
  function MeanY(s: seq<Point>): real requires s != [] { Sum(s, YOf) / |s| as real }
  function Sxx(s: seq<Point>): real requires s != [] { Sum(s, SquareFromMean(MeanX(s))) }
  function Sxy(s: seq<Point>): real requires s != [] { Sum(s, CrossFromMean(MeanX(s), MeanY(s))) }
  function SumOfSquares(s: seq<Point>, l: Line): real { Sum(s, SquareTo(l)) }

  /** Whether a line can be fitted: three points, not all at one place. */
  predicate Fittable(s: seq<Point>) {
    |s| >= 3 && Sxx(s) > 0.0
  }

  function Fitted(s: seq<Point>): Line
    requires Fittable(s)
  {
    var slope := Sxy(s) / Sxx(s);
    Line(slope, MeanY(s) - slope * MeanX(s))
  }

  // ---- it is the best line -----------------------------------------------------------------------

  lemma FittedIs(s: seq<Point>)
    requires Fittable(s)
    ensures Fitted(s).intercept == MeanY(s) - Fitted(s).slope * MeanX(s)
    ensures Fitted(s).slope * Sxx(s) == Sxy(s)
  {
  }

  lemma MeanTimesCount(s: seq<Point>)
    requires s != []
    ensures MeanX(s) * |s| as real == Sum(s, XOf) && MeanY(s) * |s| as real == Sum(s, YOf)
  {
  }

  function HeightOf(l: Line): Point -> real { (p: Point) => l.At(p.x) }

  /** What the fit leaves sums to nothing. */
  lemma ResidualsCancel(s: seq<Point>)
    requires Fittable(s)
    ensures Sum(s, ResidualTo(Fitted(s))) == 0.0
  {
    hide Fitted, Sum, Times, Line.At;
    var l := Fitted(s);
    HeightsSum(s, l);
    HeightsOfTheFit(s);
    SumAdd(s, ResidualTo(l), HeightOf(l), YOf);
  }

  lemma HeightsSum(s: seq<Point>, l: Line)
    ensures Sum(s, HeightOf(l)) == Times(l.slope, Sum(s, XOf)) + Times(l.intercept, |s| as real)
  {
    hide Sum;
    var sloped, base := (p: Point) => l.slope * p.x, (p: Point) => l.intercept;
    SumScale(s, l.slope, XOf, sloped);
    SumConstant(s, l.intercept, base);
    SumAdd(s, sloped, base, HeightOf(l));
  }

  lemma HeightsOfTheFit(s: seq<Point>)
    requires Fittable(s)
    ensures Times(Fitted(s).slope, Sum(s, XOf)) + Times(Fitted(s).intercept, |s| as real) == Sum(s, YOf)
  {
    FittedIs(s);
    MeanTimesCount(s);
    hide Fitted, MeanX, MeanY, Sxx, Sxy, Sum;
    CancelOut(Sum(s, XOf), Sum(s, YOf), MeanX(s), MeanY(s), |s| as real, Fitted(s).slope, Fitted(s).intercept);
  }

  lemma CancelOut(sx: real, sy: real, mx: real, my: real, n: real, slope: real, intercept: real)
    requires mx * n == sx && my * n == sy && intercept == my - slope * mx
    ensures Times(slope, sx) + Times(intercept, n) == sy
  {
    assert intercept * n == my * n - slope * mx * n;
    assert slope * mx * n == slope * (mx * n);
  }

  function ResidualFromMean(l: Line, mx: real): Point -> real {
    (p: Point) => (p.x - mx) * l.Residual(p)
  }

  lemma CrossIs(p: Point, l: Line, mx: real, my: real)
    requires l.intercept == my - l.slope * mx
    ensures (p.x - mx) * (p.y - my) == (p.x - mx) * l.Residual(p) + l.slope * ((p.x - mx) * (p.x - mx))
  {
    var dx := p.x - mx;
    assert l.Residual(p) == (p.y - my) - l.slope * dx;
    Distribute(dx, p.y - my, l.slope * dx);
    assert dx * (l.slope * dx) == l.slope * (dx * dx);
  }

  /** Nor does it lean with `x`. */
  lemma ResidualsDoNotLean(s: seq<Point>)
    requires Fittable(s)
    ensures Sum(s, ResidualFromMean(Fitted(s), MeanX(s))) == 0.0
  {
    FittedIs(s);
    hide Fitted, MeanX, MeanY, Sum, Line.Residual, Line.At;
    var l, mx, my := Fitted(s), MeanX(s), MeanY(s);
    hide Times;
    var leaning := (p: Point) => l.slope * SquareFromMean(mx)(p);
    SumScale(s, l.slope, SquareFromMean(mx), leaning);
    forall p | p in s
      ensures CrossFromMean(mx, my)(p) == ResidualFromMean(l, mx)(p) + leaning(p)
    {
      CrossIs(p, l, mx, my);
    }
    SumAdd(s, ResidualFromMean(l, mx), leaning, CrossFromMean(mx, my));
  }

  /** How far another line is from the fitted one, at a point. */
  function Apart(l: Line, m: Line): Point -> real { (p: Point) => l.At(p.x) - m.At(p.x) }

  function CrossApart(l: Line, m: Line): Point -> real { (p: Point) => l.Residual(p) * (l.At(p.x) - m.At(p.x)) }
  function SquareApart(l: Line, m: Line): Point -> real {
    (p: Point) => Square(l.At(p.x) - m.At(p.x))
  }

  lemma CrossApartIs(p: Point, l: Line, m: Line, mx: real)
    ensures CrossApart(l, m)(p)
            == (l.At(mx) - m.At(mx)) * l.Residual(p) + (l.slope - m.slope) * ((p.x - mx) * l.Residual(p))
  {
    var r, c, d, dx := l.Residual(p), l.At(mx) - m.At(mx), l.slope - m.slope, p.x - mx;
    assert l.At(p.x) - m.At(p.x) == c + d * dx by {
      Distribute(d, p.x, mx);
    }
    Distribute(r, c, d * dx);
    assert r * (d * dx) == d * (dx * r);
  }

  lemma CrossApartCancels(s: seq<Point>, m: Line)
    requires Fittable(s)
    ensures Sum(s, CrossApart(Fitted(s), m)) == 0.0
  {
    hide Fitted, MeanX, MeanY, Sum, Sxx;
    var l, mx := Fitted(s), MeanX(s);
    var c, d := l.At(mx) - m.At(mx), l.slope - m.slope;
    var level := (p: Point) => c * l.Residual(p);
    var lean := (p: Point) => d * ((p.x - mx) * l.Residual(p));
    SumScale(s, c, ResidualTo(l), level);
    SumScale(s, d, ResidualFromMean(l, mx), lean);
    forall p | p in s
      ensures CrossApart(l, m)(p) == level(p) + lean(p)
    {
      CrossApartIs(p, l, m, mx);
    }
    SumAdd(s, level, lean, CrossApart(l, m));
    ResidualsCancel(s);
    ResidualsDoNotLean(s);
  }

  lemma SquareIs(p: Point, l: Line, m: Line)
    ensures SquareTo(m)(p) == SquareTo(l)(p) + (2.0 * CrossApart(l, m)(p) + SquareApart(l, m)(p))
  {
    var r, q := l.Residual(p), l.At(p.x) - m.At(p.x);
    assert m.Residual(p) == r + q;
    assert (r + q) * (r + q) == r * r + (2.0 * (r * q) + q * q);
  }

  /** No line at all leaves a smaller sum of squares: any other leaves more, by the squares of its own
      distance from the fitted one. */
  lemma FittedIsLeast(s: seq<Point>, m: Line)
    requires Fittable(s)
    ensures SumOfSquares(s, m) == SumOfSquares(s, Fitted(s)) + Sum(s, SquareApart(Fitted(s), m))
    ensures SumOfSquares(s, Fitted(s)) <= SumOfSquares(s, m)
  {
    hide Fitted, Sum, Sxx;
    var l := Fitted(s);
    var cross := (p: Point) => 2.0 * CrossApart(l, m)(p);
    var rest := (p: Point) => 2.0 * CrossApart(l, m)(p) + SquareApart(l, m)(p);
    SumScale(s, 2.0, CrossApart(l, m), cross);
    CrossApartCancels(s, m);
    SumAdd(s, cross, SquareApart(l, m), rest);
    forall p | p in s
      ensures SquareTo(m)(p) == SquareTo(l)(p) + rest(p)
    {
      SquareIs(p, l, m);
    }
    SumAdd(s, SquareTo(l), rest, SquareTo(m));
    forall p | p in s
      ensures SquareApart(l, m)(p) >= 0.0
    {
      SquareNonNegative(l.At(p.x) - m.At(p.x));
    }
    SumNonNegative(s, SquareApart(l, m));
  }

  // ---- points on a line --------------------------------------------------------------------------

  ghost predicate OnLine(s: seq<Point>, m: Line) {
    forall p :: p in s ==> p.y == m.At(p.x)
  }

  lemma TwoPlaces(s: seq<Point>)
    requires s != [] && Sxx(s) > 0.0
    ensures exists p, q :: p in s && q in s && p.x != q.x
  {
    if forall p, q :: p in s && q in s ==> p.x == q.x {
      var x := s[0].x;
      assert forall p :: p in s ==> p.x == x;
      SumConstant(s, x, XOf);
      QuotientOf(x, |s| as real);
      assert MeanX(s) == x;
      SumConstant(s, 0.0, SquareFromMean(x));
      assert false;
    }
  }

  lemma LeavesNothing(s: seq<Point>, l: Line)
    requires SumOfSquares(s, l) <= 0.0
    ensures forall p :: p in s ==> l.Residual(p) == 0.0
  {
    hide Sum, Line.Residual, Times;
    forall p | p in s
      ensures SquareTo(l)(p) >= 0.0
    {
      SquareNonNegative(l.Residual(p));
    }
    SumNonNegative(s, SquareTo(l));
    forall p | p in s
      ensures l.Residual(p) == 0.0
    {
      assert SquareTo(l)(p) == 0.0;
      SquareNonNegative(l.Residual(p));
    }
  }

  /** Through points on a line the fit is that line, exactly. */
  lemma FitsALineExactly(s: seq<Point>, m: Line)
    requires Fittable(s) && OnLine(s, m)
    ensures Fitted(s) == m
    ensures forall p :: p in s ==> Fitted(s).Residual(p) == 0.0
  {
    FittedIsLeast(s, m);
    TwoPlaces(s);
    hide Sum, Fitted, Sxx, Line.At;
    SumConstant(s, 0.0, SquareTo(m));
    LeavesNothing(s, Fitted(s));
    var p, q :| p in s && q in s && p.x != q.x;
    SameLine(Fitted(s), m, p.x, q.x);
  }

  lemma SameLine(l: Line, m: Line, x: real, y: real)
    requires x != y && l.At(x) == m.At(x) && l.At(y) == m.At(y)
    ensures l == m
  {
    assert (l.slope - m.slope) * (x - y) == 0.0;
  }
}
