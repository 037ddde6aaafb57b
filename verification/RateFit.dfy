/** The offset's rate: a line fitted twice, the second time without what lies far from the first, and
    how far a slow wander of the path could have tilted it. */
module RateFit {
  import opened Folds
  import opened Medians
  import opened LeastSquares
  import opened Arithmetic

  const MAD_TO_SIGMA := 1.4826
  const MIN_SIGMA := 0.0001

  datatype Tuning = Tuning(
    levelWindow: real, minLevelSamples: int, rateWindow: real, minRateSpan: real, minRateSamples: int,
    blockSec: real, minBlockSamples: int, minBlocks: int, holdJitterSpikes: bool)

  /** The windows are durations, a block has a length, and the counts are those a scatter needs. */
  predicate ValidTuning(t: Tuning) {
    && t.levelWindow >= 0.0 && t.rateWindow >= 0.0
    && t.blockSec > 0.0 && t.minBlockSamples >= 1 && t.minBlocks >= 3
  }

  datatype Fit = Fit(ok: bool, line: Line, slopeDoubt: real, sigma: real, span: real, kept: nat)

  const NoFit := Fit(false, Line(0.0, 0.0), 0.0, 0.0, 0.0, 0)

  function MinX(s: seq<Point>): (x: real)
    requires s != []
    ensures (forall p :: p in s ==> x <= p.x) && exists p :: p in s && p.x == x
  {
    var init, p := s[..|s| - 1], s[|s| - 1];
    assert s == init + [p];
    if init == [] then p.x else Min(MinX(init), p.x)
  }

  function MaxX(s: seq<Point>): (x: real)
    requires s != []
    ensures (forall p :: p in s ==> p.x <= x) && exists p :: p in s && p.x == x
  {
    var init, p := s[..|s| - 1], s[|s| - 1];
    assert s == init + [p];
    if init == [] then p.x else Max(MaxX(init), p.x)
  }

  function Span(s: seq<Point>): (x: real)
    requires s != []
    ensures x >= 0.0
  {
    MaxX(s) - MinX(s)
  }

  // ---- trimming ----------------------------------------------------------------------------------

  function Residuals(s: seq<Point>, l: Line): seq<real> {
    Map(s, ResidualTo(l))
  }

  function DistanceFrom(m: real): real -> real { (x: real) => Abs(x - m) }

  /** The scatter of some figures about their median: the median distance, as a standard deviation. */
  function Scatter(v: seq<real>): real
    requires v != []
  {
    MAD_TO_SIGMA * Median(Map(v, DistanceFrom(Median(v))))
  }

  function Near(l: Line, m: real, limit: real): Point -> bool {
    (p: Point) => Abs(l.Residual(p) - m) <= limit
  }

  /** The points whose residual to the first line is no more than five sigma off the median residual. */
  function Trimmed(pts: seq<Point>): seq<Point>
    requires Fittable(pts)
  {
    TrimmedAbout(pts, Fitted(pts))
  }

  function TrimmedAbout(pts: seq<Point>, l: Line): seq<Point>
    requires pts != []
  {
    var res := Residuals(pts, l);
    Filter(pts, Near(l, Median(res), 5.0 * Max(Scatter(res), MIN_SIGMA)))
  }

  lemma NoResiduals(pts: seq<Point>, l: Line)
    requires pts != [] && forall p :: p in pts ==> l.Residual(p) == 0.0
    ensures Median(Residuals(pts, l)) == 0.0
  {
    var res := Residuals(pts, l);
    forall x | x in res
      ensures 0.0 <= x <= 0.0
    {
      var i :| 0 <= i < |res| && res[i] == x;
      assert pts[i] in pts;
    }
    MedianInHull(res, 0.0, 0.0);
  }

  lemma TrimsNothing(pts: seq<Point>, l: Line, med: real, limit: real)
    requires med == 0.0 && limit >= 0.0 && forall p :: p in pts ==> l.Residual(p) == 0.0
    ensures Filter(pts, Near(l, med, limit)) == pts
  {
    hide Filter;
    forall p | p in pts
      ensures Near(l, med, limit)(p)
    {
      assert l.Residual(p) == 0.0;
    }
    FilterAll(pts, Near(l, med, limit));
  }

  /** Points on one line are all kept. */
  lemma LineIsNotTrimmed(pts: seq<Point>, m: Line)
    requires Fittable(pts) && OnLine(pts, m)
    ensures Trimmed(pts) == pts
  {
    hide Fitted, TrimmedAbout, Sxx;
    FitsALineExactly(pts, m);
    NothingTrimmed(pts, Fitted(pts));
  }

  lemma NothingTrimmed(pts: seq<Point>, l: Line)
    requires pts != [] && forall p :: p in pts ==> l.Residual(p) == 0.0
    ensures TrimmedAbout(pts, l) == pts
  {
    hide Median, Scatter, Filter, Line.Residual, Near;
    NoResiduals(pts, l);
    TrimsNothing(pts, l, Median(Residuals(pts, l)), 5.0 * Max(Scatter(Residuals(pts, l)), MIN_SIGMA));
  }

  function ResidualIn(l: Line, lo: real, hi: real): Point -> bool {
    (p: Point) => lo <= l.Residual(p) <= hi
  }

  /** Where most of the residuals lie bounds what is kept: nothing further from that than five times the
      scatter it allows, a tenth of a millisecond at the least; and what is within half a millisecond of
      all of it always is. */
  lemma TrimmingIsBounded(pts: seq<Point>, lo: real, hi: real, p: Point)
    requires Fittable(pts) && 2 * Count(pts, ResidualIn(Fitted(pts), lo, hi)) > |pts|
    ensures
      var w := 5.0 * Max(1.4826 * (hi - lo), 0.0001);
      p in Trimmed(pts) ==> p in pts && lo - w <= Fitted(pts).Residual(p) <= hi + w
    ensures p in pts && hi - 0.0005 <= Fitted(pts).Residual(p) <= lo + 0.0005 ==> p in Trimmed(pts)
  {
    hide Fitted, Sxx, Count, Median, Filter, Scatter, Line.Residual;
    MedianOfMost(pts, ResidualTo(Fitted(pts)), ResidualIn(Fitted(pts), lo, hi), lo, hi);
    ScatterOfMost(pts, Fitted(pts), lo, hi);
  }

  lemma ScatterOfMost(pts: seq<Point>, l: Line, lo: real, hi: real)
    requires pts != [] && 2 * Count(pts, ResidualIn(l, lo, hi)) > |pts|
    ensures 0.0 <= Scatter(Residuals(pts, l)) <= MAD_TO_SIGMA * (hi - lo)
  {
    hide Count, Scatter, Line.Residual;
    CountMapped(pts, ResidualTo(l), ResidualIn(l, lo, hi), Inside(lo, hi));
    ScatterIsLess(Residuals(pts, l), lo, hi);
  }

  function FurtherThan(m: real, d: real): real -> bool { (x: real) => Abs(x - m) > d }

  /** And where most of the figures are further than so much from their median, the scatter is more than that
      much's worth. */
  lemma ScatterIsMore(v: seq<real>, d: real)
    requires v != [] && 2 * Count(v, FurtherThan(Median(v), d)) > |v|
    ensures Scatter(v) > 1.4826 * d
  {
    var m := Median(v);
    CountMapped(v, DistanceFrom(m), FurtherThan(m, d), Past(d, true));
    MedianBeyond(Map(v, DistanceFrom(m)), d, true);
    hide Median, Count;
  }

  /** Where most lie bounds it. */
  lemma ScatterIsLess(v: seq<real>, lo: real, hi: real)
    requires v != [] && 2 * Count(v, Inside(lo, hi)) > |v|
    ensures 0.0 <= Scatter(v) <= 1.4826 * (hi - lo)
  {
    hide Count, Median;
    CountSame(v, Inside(lo, hi), (x: real) => lo <= x <= hi);
    MedianOfMajority(v, lo, hi);
    var m := Median(v);
    forall x | x in v && Inside(lo, hi)(x)
      ensures 0.0 <= DistanceFrom(m)(x) <= hi - lo
    {
      assert DistanceFrom(m)(x) == Abs(x - m);
    }
    MedianOfMost(v, DistanceFrom(m), Inside(lo, hi), 0.0, hi - lo);
  }

  function Inside(lo: real, hi: real): real -> bool { (x: real) => lo <= x <= hi }

  // ---- blocks ------------------------------------------------------------------------------------

  /** Which block a point falls in; the last one takes what is left over. */
  function BlockOf(t: Tuning, xmin: real, n: int): Point -> int
    requires t.blockSec > 0.0
  {
    (p: Point) => var b := ((p.x - xmin) / t.blockSec).Floor; if n - 1 < b then n - 1 else b
  }

  function InBlock(which: Point -> int, b: int): Point -> bool { (p: Point) => which(p) == b }
  function ShareOf(which: Point -> int, b: int, l: Line): Point -> real {
    (p: Point) => if which(p) == b then l.Residual(p) else 0.0
  }

  /** The mean residual of a block. */
  function BlockMean(s: seq<Point>, which: Point -> int, l: Line, b: int): real {
    var n := Count(s, InBlock(which, b));
    if n == 0 then 0.0 else Sum(s, ShareOf(which, b, l)) / n as real
  }

  /** How many of the first `n` blocks hold enough points, and the squares of their means. */
  function BlockTotals(s: seq<Point>, t: Tuning, which: Point -> int, l: Line, n: nat): (nat, real) {
    if n == 0 then (0, 0.0)
    else
      Added(BlockTotals(s, t, which, l, n - 1),
            Count(s, InBlock(which, n - 1)) >= t.minBlockSamples, BlockMean(s, which, l, n - 1))
  }

  /** One more block, if it holds enough. */
  function Added(totals: (nat, real), enough: bool, mean: real): (nat, real) {
    if enough then (totals.0 + 1, totals.1 + Square(mean)) else totals
  }

  function Blocks(t: Tuning, span: real): (n: nat)
    requires t.blockSec > 0.0 && span >= 0.0
    ensures n >= 1
  {
    QuotientAtLeast(span, t.blockSec, 0.0);
    (span / t.blockSec).Floor + 1
  }

  /** As many blocks as it takes for the last to reach past the span. */
  predicate CoverSpan(t: Tuning, span: real, n: nat) {
    n >= 1 && (n - 1) as real * t.blockSec <= span < n as real * t.blockSec
  }

  /** The points of block `b`, the first of them beginning at `xmin`. */
  function WithinBlock(t: Tuning, xmin: real, b: nat): Point -> bool {
    (p: Point) => b as real * t.blockSec <= p.x - xmin < (b + 1) as real * t.blockSec
  }

  function MeanResidual(s: seq<Point>, l: Line): real {
    if s == [] then 0.0 else Sum(s, ResidualTo(l)) / |s| as real
  }

  /** How many of the first `n` blocks hold points enough, and the squares of what the line leaves of each on
      the mean. */
  function FilledBlocks(s: seq<Point>, t: Tuning, xmin: real, l: Line, n: nat): (nat, real) {
    if n == 0 then (0, 0.0)
    else
      var block := Filter(s, WithinBlock(t, xmin, n - 1));
      Added(FilledBlocks(s, t, xmin, l, n - 1), |block| >= t.minBlockSamples, MeanResidual(block, l))
  }

  lemma BlocksCoverSpan(t: Tuning, span: real, n: nat)
    requires t.blockSec > 0.0 && span >= 0.0
    ensures CoverSpan(t, span, n) <==> n == Blocks(t, span)
  {
    var q := span / t.blockSec;
    assert q * t.blockSec == span;
    FloorIsBetween(q, span, t.blockSec, n - 1);
  }

  lemma FloorIsBetween(q: real, x: real, w: real, b: int)
    requires w > 0.0 && q * w == x
    ensures q.Floor == b <==> b as real * w <= x < (b + 1) as real * w
  {
    Reaches(q, x, w, b as real);
    Reaches(q, x, w, (b + 1) as real);
  }

  lemma Reaches(q: real, x: real, w: real, c: real)
    requires w > 0.0 && q * w == x
    ensures c <= q <==> c * w <= x
  {
    Distribute(w, q, c);
    ProductSign(q - c, w);
  }

  lemma BlockIs(t: Tuning, xmin: real, n: nat, b: nat, p: Point)
    requires t.blockSec > 0.0 && n >= 1 && b < n && p.x - xmin < n as real * t.blockSec
    ensures BlockOf(t, xmin, n)(p) == b <==> WithinBlock(t, xmin, b)(p)
  {
    var q := (p.x - xmin) / t.blockSec;
    assert q * t.blockSec == p.x - xmin;
    FloorIsBetween(q, p.x - xmin, t.blockSec, b);
    FloorIsBetween(q, p.x - xmin, t.blockSec, q.Floor);
    if q.Floor > n - 1 {
      Ordered(t.blockSec, n as real, q.Floor as real);
    }
  }

  lemma {:induction false} SumFiltered(s: seq<Point>, p: Point -> bool, f: Point -> real, g: Point -> real)
    requires forall x :: x in s ==> g(x) == if p(x) then f(x) else 0.0
    ensures Sum(Filter(s, p), f) == Sum(s, g)
  {
    if s != [] {
      var init, x := s[..|s| - 1], s[|s| - 1];
      assert s == init + [x];
      SumFiltered(init, p, f, g);
      FilterOne(init, x, p);
      SumOne(init, x, g);
      SumMaybe(Filter(init, p), x, p(x), f);
      hide Filter, Sum;
    }
  }

  /** The points that are put in block `b` are those that fall in it. */
  ghost predicate Sorts(s: seq<Point>, which: Point -> int, within: Point -> bool, b: nat) {
    forall p :: p in s ==> (which(p) == b <==> within(p))
  }

  lemma BlocksAre(s: seq<Point>, t: Tuning, n: nat, b: nat)
    requires ValidTuning(t) && s != [] && CoverSpan(t, Span(s), n) && b < n
    ensures Sorts(s, BlockOf(t, MinX(s), n), WithinBlock(t, MinX(s), b), b)
  {
    hide BlockOf, WithinBlock, MinX, MaxX;
    forall p | p in s
      ensures BlockOf(t, MinX(s), n)(p) == b <==> WithinBlock(t, MinX(s), b)(p)
    {
      BlockIs(t, MinX(s), n, b, p);
    }
  }

  lemma BlockMeanIs(s: seq<Point>, which: Point -> int, l: Line, b: nat, within: Point -> bool)
    requires Sorts(s, which, within, b)
    ensures Count(s, InBlock(which, b)) == |Filter(s, within)| && BlockMean(s, which, l, b) == MeanResidual(Filter(s, within), l)
  {
    CountSame(s, InBlock(which, b), within);
    SumFiltered(s, within, ResidualTo(l), ShareOf(which, b, l));
    hide Sum, Count;
  }

  lemma {:induction false} TotalsAgree(s: seq<Point>, t: Tuning, l: Line, which: Point -> int, xmin: real, n: nat)
    requires forall b: nat :: b < n ==> Sorts(s, which, WithinBlock(t, xmin, b), b)
    ensures BlockTotals(s, t, which, l, n) == FilledBlocks(s, t, xmin, l, n)
  {
    hide *;
    OneBlock(s, t, which, xmin, l, n);
    if n > 0 {
      TotalsAgree(s, t, l, which, xmin, n - 1);
      BlockMeanIs(s, which, l, n - 1, WithinBlock(t, xmin, n - 1));
    }
  }

  lemma OneBlock(s: seq<Point>, t: Tuning, which: Point -> int, xmin: real, l: Line, n: nat)
    ensures n == 0 ==> BlockTotals(s, t, which, l, n) == FilledBlocks(s, t, xmin, l, n)
    ensures n > 0 ==>
              && BlockTotals(s, t, which, l, n)
                 == Added(BlockTotals(s, t, which, l, n - 1),
                          Count(s, InBlock(which, n - 1)) >= t.minBlockSamples, BlockMean(s, which, l, n - 1))
              && var block := Filter(s, WithinBlock(t, xmin, n - 1));
                 FilledBlocks(s, t, xmin, l, n)
                 == Added(FilledBlocks(s, t, xmin, l, n - 1), |block| >= t.minBlockSamples, MeanResidual(block, l))
  {
  }

  /** The sums kept block by block are those of the points that fall in each. */
  lemma BlockTotalsAre(s: seq<Point>, t: Tuning, l: Line, n: nat)
    requires ValidTuning(t) && s != [] && CoverSpan(t, Span(s), n)
    ensures BlockTotals(s, t, BlockOf(t, MinX(s), n), l, n) == FilledBlocks(s, t, MinX(s), l, n)
  {
    hide BlockOf, WithinBlock, MinX, Span, CoverSpan, Sorts, BlockTotals, FilledBlocks;
    forall b: nat | b < n
      ensures Sorts(s, BlockOf(t, MinX(s), n), WithinBlock(t, MinX(s), b), b)
    {
      BlocksAre(s, t, n, b);
    }
    TotalsAgree(s, t, l, BlockOf(t, MinX(s), n), MinX(s), n);
  }

  // ---- the whole fit -----------------------------------------------------------------------------

  /** The slope's doubt: the larger of the textbook figure and of what a wander the size of the scatter of
      the blocks does to a slope over the span. */
  function Doubt(t: Tuning, textbook: real, count: nat, ss: real, span: real, sqrt: real -> real): real {
    if count >= t.minBlocks && span > 0.0 && count > 2
    then Max(textbook, sqrt(12.0) * sqrt(ss / (count - 2) as real) / span)
    else textbook
  }

  /** The fit from what is kept. */
  function FitFrom(s: seq<Point>, t: Tuning, sqrt: real -> real): Fit
    requires ValidTuning(t) && Fittable(s)
  {
    var l := Fitted(s);
    var variance := SumOfSquares(s, l) / (|s| - 2) as real;
    var (count, ss) := BlockTotals(s, t, BlockOf(t, MinX(s), Blocks(t, Span(s))), l, Blocks(t, Span(s)));
    Fit(|s| >= t.minRateSamples && Span(s) >= t.minRateSpan && count >= t.minBlocks,
        l, Doubt(t, sqrt(variance / Sxx(s)), count, ss, Span(s), sqrt), sqrt(variance), Span(s), |s|)
  }

  function FitOf(pts: seq<Point>, t: Tuning, sqrt: real -> real): Fit
    requires ValidTuning(t)
  {
    if |pts| < t.minRateSamples || !Fittable(pts) then NoFit
    else if !Fittable(Trimmed(pts)) then NoFit
    else FitFrom(Trimmed(pts), t, sqrt)
  }

  lemma FitFromIs(s: seq<Point>, t: Tuning, sqrt: real -> real, count: nat, ss: real)
    requires ValidTuning(t) && Fittable(s)
    requires (count, ss) == BlockTotals(s, t, BlockOf(t, MinX(s), Blocks(t, Span(s))), Fitted(s), Blocks(t, Span(s)))
    ensures
      var f, variance := FitFrom(s, t, sqrt), SumOfSquares(s, Fitted(s)) / (|s| - 2) as real;
      && f.line == Fitted(s) && f.span == Span(s) && f.kept == |s|
      && (f.ok <==> |s| >= t.minRateSamples && Span(s) >= t.minRateSpan && count >= t.minBlocks)
      && f.sigma == sqrt(variance) && f.slopeDoubt == Doubt(t, sqrt(variance / Sxx(s)), count, ss, Span(s), sqrt)
  {
    hide Fitted, SumOfSquares, BlockTotals, Sxx, Span, MinX, Doubt, Blocks;
  }

  /** The standard deviation of what is left, with so many degrees of freedom. */
  predicate IsSigma(sigma: real, n: real, left: real) {
    sigma >= 0.0 && sigma * sigma * n == left
  }

  /** No less than the standard error of a slope over points so spread. */
  predicate CoversSquares(doubt: real, sxx: real, n: real, left: real) {
    doubt >= 0.0 && doubt * doubt * sxx * n >= left
  }

  /** What the scatter of the blocks' means does to a slope over the span. */
  predicate CoversBlocks(doubt: real, span: real, count: nat, ss: real, sqrt: real -> real)
    requires count > 2
  {
    doubt * span >= sqrt(12.0) * sqrt(ss / (count - 2) as real)
  }

  /** The doubt in the slope is never below the textbook one, by what the line leaves of the squares; nor,
      with blocks enough, below what the scatter of their means does over the span. */
  lemma DoubtCovers(s: seq<Point>, t: Tuning, sqrt: real -> real, n: nat, count: nat, ss: real)
    requires ValidTuning(t) && Fittable(s) && IsSquareRoot(sqrt) && CoverSpan(t, Span(s), n)
    requires (count, ss) == FilledBlocks(s, t, MinX(s), Fitted(s), n)
    ensures
      var f, left := FitFrom(s, t, sqrt), SumOfSquares(s, Fitted(s));
      IsSigma(f.sigma, (|s| - 2) as real, left) && CoversSquares(f.slopeDoubt, Sxx(s), (|s| - 2) as real, left)
    ensures count >= t.minBlocks && Span(s) > 0.0 ==> CoversBlocks(FitFrom(s, t, sqrt).slopeDoubt, Span(s), count, ss, sqrt)
  {
    SquaresLeft(s, Fitted(s));
    BlocksCoverSpan(t, Span(s), n);
    BlockTotalsAre(s, t, Fitted(s), n);
    FitFromIs(s, t, sqrt, count, ss);
    var free, left := (|s| - 2) as real, SumOfSquares(s, Fitted(s));
    assert Sxx(s) > 0.0 && free > 0.0;
    hide *;
    DoubtAtLeast(t, sqrt(left / free / Sxx(s)), count, ss, Span(s), sqrt);
    RootsOf(left, free, Sxx(s), sqrt, FitFrom(s, t, sqrt).slopeDoubt);
  }

  lemma DoubtAtLeast(t: Tuning, textbook: real, count: nat, ss: real, span: real, sqrt: real -> real)
    requires ValidTuning(t)
    ensures Doubt(t, textbook, count, ss, span, sqrt) >= textbook
    ensures count >= t.minBlocks && span > 0.0 ==> CoversBlocks(Doubt(t, textbook, count, ss, span, sqrt), span, count, ss, sqrt)
  {
    if count >= t.minBlocks && span > 0.0 {
      var a, b := sqrt(12.0), sqrt(ss / (count - 2) as real);
      assert Doubt(t, textbook, count, ss, span, sqrt) == Max(textbook, a * b / span);
      QuotientCovers(a * b, span, Max(textbook, a * b / span));
    }
  }

  lemma QuotientCovers(bound: real, span: real, d: real)
    requires span > 0.0 && d >= bound / span
    ensures d * span >= bound
  {
    assert bound / span * span == bound;
    Ordered(span, bound / span, d);
  }

  lemma RootsOf(left: real, n: real, sxx: real, sqrt: real -> real, doubt: real)
    requires IsSquareRoot(sqrt) && left >= 0.0 && n > 0.0 && sxx > 0.0 && doubt >= sqrt(left / n / sxx)
    ensures IsSigma(sqrt(left / n), n, left) && CoversSquares(doubt, sxx, n, left)
  {
    var variance := left / n;
    QuotientAtLeast(left, n, 0.0);
    QuotientAtLeast(variance, sxx, 0.0);
    var textbook := sqrt(variance / sxx);
    assert Square(sqrt(variance)) == variance && Square(textbook) == variance / sxx && variance * n == left;
    SquaresOrdered(textbook, doubt);
    hide IsSquareRoot;
    ScaledUp(Square(doubt), variance, sxx, n);
  }

  lemma SquaresLeft(s: seq<Point>, l: Line)
    ensures SumOfSquares(s, l) >= 0.0
  {
    forall p | p in s
      ensures SquareTo(l)(p) >= 0.0
    {
      SquareNonNegative(l.Residual(p));
    }
    SumNonNegative(s, SquareTo(l));
  }

  lemma SquaresOrdered(x: real, y: real)
    requires 0.0 <= x <= y
    ensures Square(x) <= Square(y)
  {
    Ordered(x, x, y);
    Ordered(y, x, y);
  }

  lemma ScaledUp(d: real, variance: real, sxx: real, n: real)
    requires sxx > 0.0 && n > 0.0 && d >= variance / sxx
    ensures d * sxx * n >= variance * n
  {
    Ordered(sxx, variance / sxx, d);
    assert variance / sxx * sxx == variance;
    Ordered(n, variance, d * sxx);
  }

  /** A fit stands exactly when what is kept of the points is enough: in number, in span, and in the blocks
      it fills. */
  lemma StandsExactly(pts: seq<Point>, t: Tuning, sqrt: real -> real, n: nat)
    requires ValidTuning(t) && Fittable(pts) && Fittable(Trimmed(pts)) && CoverSpan(t, Span(Trimmed(pts)), n)
    ensures
      var s := Trimmed(pts);
      FitOf(pts, t, sqrt).ok
      <==> |s| >= t.minRateSamples && Span(s) >= t.minRateSpan && FilledBlocks(s, t, MinX(s), Fitted(s), n).0 >= t.minBlocks
  {
    TrimmedFewer(pts);
    hide Trimmed, Fitted, Sxx, MinX, Span, BlockTotals, FilledBlocks, CoverSpan, FitFrom;
    var s := Trimmed(pts);
    BlocksCoverSpan(t, Span(s), n);
    BlockTotalsAre(s, t, Fitted(s), n);
    var (count, ss) := FilledBlocks(s, t, MinX(s), Fitted(s), n);
    FitFromIs(s, t, sqrt, count, ss);
  }

  lemma TrimmedFewer(pts: seq<Point>)
    requires Fittable(pts)
    ensures |Trimmed(pts)| <= |pts|
  {
    hide Median, Scatter, Fitted, Sxx;
  }

  /** Points enough, over span enough, filling blocks enough, `n` blocks covering it. */
  predicate Enough(pts: seq<Point>, t: Tuning, n: nat, m: Line) {
    && Fittable(pts) && |pts| >= t.minRateSamples && Span(pts) >= t.minRateSpan
    && FilledBlocks(pts, t, MinX(pts), m, n).0 >= t.minBlocks
  }

  lemma {:induction false} NothingLeftOver(s: seq<Point>, f: Point -> real)
    requires forall p :: p in s ==> f(p) == 0.0
    ensures Sum(s, f) == 0.0
  {
    if s != [] {
      NothingLeftOver(s[..|s| - 1], f);
    }
  }

  lemma {:induction false} BlocksLevel(s: seq<Point>, t: Tuning, xmin: real, l: Line, n: nat)
    requires forall p :: p in s ==> l.Residual(p) == 0.0
    ensures FilledBlocks(s, t, xmin, l, n).1 == 0.0
  {
    hide Filter, MeanResidual, WithinBlock, Line.Residual;
    if n > 0 {
      BlocksLevel(s, t, xmin, l, n - 1);
      NothingLeftOnAverage(Filter(s, WithinBlock(t, xmin, n - 1)), l);
    }
  }

  lemma NothingLeftOnAverage(s: seq<Point>, l: Line)
    requires forall p :: p in s ==> l.Residual(p) == 0.0
    ensures MeanResidual(s, l) == 0.0
  {
    NothingLeftOver(s, ResidualTo(l));
  }

  lemma RootOfNothing(sqrt: real -> real)
    requires IsSquareRoot(sqrt)
    ensures sqrt(0.0) == 0.0
  {
    assert Square(sqrt(0.0)) == sqrt(0.0) * sqrt(0.0) == 0.0;
    hide Square, IsSquareRoot;
    SquareNonNegative(sqrt(0.0));
  }

  lemma NoSquaresLeft(s: seq<Point>, l: Line)
    requires forall p :: p in s ==> l.Residual(p) == 0.0
    ensures SumOfSquares(s, l) == 0.0
  {
    NothingLeftOver(s, SquareTo(l));
  }

  lemma NoDoubt(t: Tuning, sxx: real, free: real, count: nat, span: real, sqrt: real -> real)
    requires IsSquareRoot(sqrt) && sxx > 0.0 && free > 0.0
    ensures sqrt(0.0 / free) == 0.0 && Doubt(t, sqrt(0.0 / free / sxx), count, 0.0, span, sqrt) == 0.0
  {
    RootOfNothing(sqrt);
    hide IsSquareRoot;
    assert 0.0 / free == 0.0 && 0.0 / sxx == 0.0;
    assert count > 2 ==> 0.0 / (count - 2) as real == 0.0;
  }

  /** A fit of points on a line stands exactly when there are enough of them, and then with no doubt at all. */
  lemma LineStandsExactly(pts: seq<Point>, t: Tuning, sqrt: real -> real, m: Line, n: nat)
    requires ValidTuning(t) && OnLine(pts, m) && IsSquareRoot(sqrt) && pts != [] && CoverSpan(t, Span(pts), n)
    ensures FitOf(pts, t, sqrt).ok <==> Enough(pts, t, n, m)
    ensures FitOf(pts, t, sqrt).ok ==> FitOf(pts, t, sqrt).slopeDoubt == FitOf(pts, t, sqrt).sigma == 0.0
  {
    hide Fitted, Sxx, MinX, Span, FilledBlocks, CoverSpan, FitFrom, Trimmed, SumOfSquares, IsSquareRoot, Line.Residual;
    if Fittable(pts) {
      LineIsNotTrimmed(pts, m);
      FitsALineExactly(pts, m);
      StandsExactly(pts, t, sqrt, n);
      BlocksCoverSpan(t, Span(pts), n);
      BlockTotalsAre(pts, t, m, n);
      BlocksLevel(pts, t, MinX(pts), m, n);
      NoSquaresLeft(pts, m);
      var (count, ss) := FilledBlocks(pts, t, MinX(pts), m, n);
      FitFromIs(pts, t, sqrt, count, ss);
      NoDoubt(t, Sxx(pts), (|pts| - 2) as real, count, Span(pts), sqrt);
    }
  }

  /** Of points on a line the fit, if it is one at all, is that line. */
  lemma FitOfALine(pts: seq<Point>, t: Tuning, sqrt: real -> real, m: Line)
    requires ValidTuning(t) && OnLine(pts, m) && FitOf(pts, t, sqrt).ok
    ensures FitOf(pts, t, sqrt).line == m
  {
    LineIsNotTrimmed(pts, m);
    FitsALineExactly(pts, m);
  }

  // ---- as it is computed ---------------------------------------------------------------------------

  /** The points marked to keep. */
  function Select(p: seq<Point>, keep: seq<bool>): seq<Point>
    requires |keep| == |p|
  {
    if p == [] then []
    else Select(p[..|p| - 1], keep[..|p| - 1]) + if keep[|p| - 1] then [p[|p| - 1]] else []
  }

  lemma SelectNext(p: seq<Point>, keep: seq<bool>, i: nat)
    requires |keep| == |p| && i < |p|
    ensures Select(p[..i + 1], keep[..i + 1]) == Select(p[..i], keep[..i]) + if keep[i] then [p[i]] else []
  {
    assert p[..i + 1][..i] == p[..i] && keep[..i + 1][..i] == keep[..i];
  }

  lemma {:induction false} SelectIsFilter(p: seq<Point>, keep: seq<bool>, q: Point -> bool)
    requires |keep| == |p| && forall i :: 0 <= i < |p| ==> keep[i] == q(p[i])
    ensures Select(p, keep) == Filter(p, q)
  {
    if p != [] {
      SelectIsFilter(p[..|p| - 1], keep[..|p| - 1], q);
    }
  }

  /** Adding an element to a sum, or leaving it out. */
  lemma SumMaybe(s: seq<Point>, x: Point, keep: bool, f: Point -> real)
    ensures Sum(s + (if keep then [x] else []), f) == Sum(s, f) + if keep then f(x) else 0.0
  {
    if keep {
      SumOne(s, x, f);
    } else {
      assert s + [] == s;
    }
  }

  method SumKept(p: seq<Point>, keep: seq<bool>, f: Point -> real) returns (total: real)
    requires |keep| == |p|
    ensures total == Sum(Select(p, keep), f)
  {
    total := 0.0;
    for i := 0 to |p|
      invariant total == Sum(Select(p[..i], keep[..i]), f)
    {
      SelectNext(p, keep, i);
      SumMaybe(Select(p[..i], keep[..i]), p[i], keep[i], f);
      if keep[i] {
        total := total + f(p[i]);
      }
    }
    assert p[..|p|] == p && keep[..|p|] == keep;
  }

  method Extent(p: seq<Point>, keep: seq<bool>) returns (n: nat, xmin: real, xmax: real)
    requires |keep| == |p|
    ensures n == |Select(p, keep)|
    ensures n > 0 ==> xmin == MinX(Select(p, keep)) && xmax == MaxX(Select(p, keep))
  {
    n, xmin, xmax := 0, 0.0, 0.0;
    for i := 0 to |p|
      invariant n == |Select(p[..i], keep[..i])|
      invariant n > 0 ==> xmin == MinX(Select(p[..i], keep[..i])) && xmax == MaxX(Select(p[..i], keep[..i]))
    {
      SelectNext(p, keep, i);
      if keep[i] {
        ghost var before := Select(p[..i], keep[..i]);
        assert (before + [p[i]])[..n] == before;
        xmin := if n == 0 then p[i].x else Min(xmin, p[i].x);
        xmax := if n == 0 then p[i].x else Max(xmax, p[i].x);
        n := n + 1;
      }
    }
    assert p[..|p|] == p && keep[..|p|] == keep;
  }

  /** Ordinary least squares through the points kept. */
  method Ols(p: seq<Point>, keep: seq<bool>)
      returns (ok: bool, l: Line, n: nat, span: real, xmin: real, ss: real, sxx: real)
    requires |keep| == |p|
    ensures
      var s := Select(p, keep);
      && ok == Fittable(s)
      && (ok ==> l == Fitted(s) && n == |s| && span == Span(s) && xmin == MinX(s) && ss == SumOfSquares(s, l) && sxx == Sxx(s))
  {
    hide Sum, Select, MinX, MaxX, SquareFromMean, CrossFromMean, SquareTo, XOf, YOf;
    ok, l, span, ss, sxx := false, Line(0.0, 0.0), 0.0, 0.0, 0.0;
    var xmax;
    n, xmin, xmax := Extent(p, keep);
    if n < 3 {
      return;
    }
    var mx := SumKept(p, keep, XOf);
    var my := SumKept(p, keep, YOf);
    mx, my := mx / n as real, my / n as real;
    sxx := SumKept(p, keep, SquareFromMean(mx));
    var sxy := SumKept(p, keep, CrossFromMean(mx, my));
    if !(sxx > 0.0) {
      return;
    }
    var slope := sxy / sxx;
    l := Line(slope, my - slope * mx);
    ss := SumKept(p, keep, SquareTo(l));
    ok, span := true, xmax - xmin;
  }

  lemma IntoBlock(s: seq<Point>, i: nat, which: Point -> int, l: Line, b: int)
    requires i < |s|
    ensures Sum(s[..i + 1], ShareOf(which, b, l))
            == Sum(s[..i], ShareOf(which, b, l)) + if which(s[i]) == b then l.Residual(s[i]) else 0.0
    ensures Count(s[..i + 1], InBlock(which, b))
            == Count(s[..i], InBlock(which, b)) + if which(s[i]) == b then 1 else 0
  {
    Extend(s, i);
  }

  /** The sums and counts of the residuals that fall in each block. */
  method BlockSums(s: seq<Point>, which: Point -> int, l: Line, n: nat) returns (br: array<real>, bn: array<int>)
    requires forall p :: p in s ==> 0 <= which(p) < n
    ensures br.Length == n && bn.Length == n && fresh(br) && fresh(bn)
    ensures forall b :: 0 <= b < n ==> br[b] == Sum(s, ShareOf(which, b, l)) && bn[b] == Count(s, InBlock(which, b))
  {
    br, bn := new real[n](_ => 0.0), new int[n](_ => 0);
    for i := 0 to |s|
      invariant forall b :: 0 <= b < n ==> br[b] == Sum(s[..i], ShareOf(which, b, l))
      invariant forall b :: 0 <= b < n ==> bn[b] == Count(s[..i], InBlock(which, b))
    {
      hide Sum, Count, ShareOf, InBlock, Line.Residual;
      var b := which(s[i]);
      forall k | 0 <= k < n
        ensures Sum(s[..i + 1], ShareOf(which, k, l))
                == Sum(s[..i], ShareOf(which, k, l)) + if b == k then l.Residual(s[i]) else 0.0
        ensures Count(s[..i + 1], InBlock(which, k)) == Count(s[..i], InBlock(which, k)) + if b == k then 1 else 0
      {
        IntoBlock(s, i, which, l, k);
      }
      br[b] := br[b] + l.Residual(s[i]);
      bn[b] := bn[b] + 1;
    }
    assert s[..|s|] == s;
  }

  /** The mean residual of each block long enough to have one: how many there are, and their squares. */
  method BlockScatter(s: seq<Point>, t: Tuning, l: Line, xmin: real, n: nat) returns (count: nat, ss: real)
    requires ValidTuning(t) && n >= 1 && forall p :: p in s ==> xmin <= p.x
    ensures (count, ss) == BlockTotals(s, t, BlockOf(t, xmin, n), l, n)
  {
    hide BlockOf, Sum, Count, ShareOf, InBlock, Times;
    var which := BlockOf(t, xmin, n);
    forall p | p in s
      ensures 0 <= which(p) < n
    {
      InRange(t, xmin, n, p);
    }
    var br, bn := BlockSums(s, which, l, n);
    count, ss := 0, 0.0;
    for b := 0 to n
      invariant (count, ss) == BlockTotals(s, t, which, l, b)
    {
      if bn[b] >= t.minBlockSamples {
        var mean := br[b] / bn[b] as real;
        assert mean == BlockMean(s, which, l, b);
        count, ss := count + 1, ss + Square(mean);
      }
    }
  }

  lemma InRange(t: Tuning, xmin: real, n: nat, p: Point)
    requires t.blockSec > 0.0 && n >= 1 && xmin <= p.x
    ensures 0 <= BlockOf(t, xmin, n)(p) < n
  {
    QuotientAtLeast(p.x - xmin, t.blockSec, 0.0);
  }

  method JudgeFit(s: seq<Point>, l: Line, n: nat, span: real, xmin: real, ss: real, sxx: real, t: Tuning, sqrt: real -> real)
      returns (f: Fit)
    requires ValidTuning(t) && Fittable(s)
    requires l == Fitted(s) && n == |s| && span == Span(s) && xmin == MinX(s) && ss == SumOfSquares(s, l) && sxx == Sxx(s)
    ensures f == FitFrom(s, t, sqrt)
  {
    hide Fitted, SumOfSquares, BlockTotals, BlockOf, Doubt, Span;
    var variance := ss / (n - 2) as real;
    var count, squares := BlockScatter(s, t, l, xmin, Blocks(t, span));
    f := Fit(n >= t.minRateSamples && span >= t.minRateSpan && count >= t.minBlocks,
             l, Doubt(t, sqrt(variance / sxx), count, squares, span, sqrt), sqrt(variance), span, n);
  }

  /** Which points lie within five sigma of the first line. */
  method KeepNear(pts: seq<Point>, first: Line) returns (keep: seq<bool>)
    requires Fittable(pts) && first == Fitted(pts)
    ensures |keep| == |pts| && Select(pts, keep) == Trimmed(pts)
  {
    hide Fitted, Median, Scatter, Filter, Select;
    var res := Map(pts, ResidualTo(first));
    var med := Median(res);
    var limit := 5.0 * Max(Scatter(res), MIN_SIGMA);
    keep := seq(|pts|, i requires 0 <= i < |pts| => Near(first, med, limit)(pts[i]));
    SelectIsFilter(pts, keep, Near(first, med, limit));
  }

  method FitLine(pts: seq<Point>, t: Tuning, sqrt: real -> real) returns (f: Fit)
    requires ValidTuning(t)
    ensures f == FitOf(pts, t, sqrt)
  {
    hide Fitted, Sxx, SumOfSquares, Median, Scatter, Filter, Select, FitFrom, Span, MinX, Abs, Max;
    if |pts| < t.minRateSamples {
      return NoFit;
    }
    var keep := seq(|pts|, i => true);
    SelectIsFilter(pts, keep, _ => true);
    FilterAll(pts, _ => true);
    var ok, first, n, span, xmin, ss, sxx := Ols(pts, keep);
    if !ok {
      return NoFit;
    }
    keep := KeepNear(pts, first);
    hide Trimmed;
    var l;
    ok, l, n, span, xmin, ss, sxx := Ols(pts, keep);
    if !ok {
      return NoFit;
    }
    f := JudgeFit(Trimmed(pts), l, n, span, xmin, ss, sxx, t, sqrt);
  }
}
