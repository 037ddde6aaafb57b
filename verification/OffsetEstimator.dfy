/** How far a source is from the daemon clock: a rate from a long window, a level from a short one, and
    the level held while the jitter spikes. */
module OffsetEstimator {
  import opened Folds
  import opened Arithmetic
  import opened Medians
  import opened LeastSquares
  import opened RateFit
  import opened SpikeHold

  const UNMEASURED_RATE := 0.00005
  const MAX_MEASURED_DOUBT := 0.000025
  const MAX_RATE := 0.0005
  const STEP_FLOOR_SEC := 0.010

  datatype Sample = Sample(at: real, offset: real)

  /** The system's rate, lent to a source that cannot measure its own. */
  datatype Prior = Prior(known: bool, rate: real, doubt: real)

  datatype OffsetEstimate = OffsetEstimate(
    valid: bool, samples: nat, at: real, offset: real, jitter: real,
    rateMeasured: bool, rateFromPrior: bool, rate: real, rateDoubt: real, rateSpan: real, rateSamples: nat,
    rateTerm: real, levelShifts: nat,
    liveOffset: real, held: bool, rejoinGap: real, holds: nat, timedOut: nat)
  {
    /** The live level, held or not, carried along the rate. */
    function LiveAt(t: real): real { liveOffset + rate * (t - at) }
  }

  const NoEstimate :=
    OffsetEstimate(false, 0, 0.0, 0.0, 0.0, false, false, 0.0, 0.0, 0.0, 0, 0.0, 0, 0.0, false, 0.0, 0, 0)

  function NotBefore(cutoff: real): Sample -> bool { (s: Sample) => s.at >= cutoff }

  /** What is left once the samples before `cutoff` are dropped from the front. */
  function Trim(samples: seq<Sample>, cutoff: real): (r: seq<Sample>)
    ensures r != [] ==> r[0].at >= cutoff
    ensures forall s :: s in r ==> s in samples
    ensures forall s :: s in samples && s.at >= cutoff ==> s in r
  {
    if samples != [] && samples[0].at < cutoff then
      assert samples == [samples[0]] + samples[1..];
      Trim(samples[1..], cutoff)
    else samples
  }

  ghost predicate Sorted(samples: seq<Sample>) {
    forall i, j :: 0 <= i < j < |samples| ==> samples[i].at <= samples[j].at
  }

  /** On samples in time order, trimming the front keeps exactly what is in the window. */
  lemma {:induction false} TrimIsTheWindow(samples: seq<Sample>, cutoff: real)
    requires Sorted(samples)
    ensures Trim(samples, cutoff) == Filter(samples, NotBefore(cutoff))
  {
    if samples != [] && samples[0].at < cutoff {
      var first, rest := samples[0], samples[1..];
      assert samples == [first] + rest;
      FilterFirst(first, rest, NotBefore(cutoff));
      TrimIsTheWindow(rest, cutoff);
    } else {
      FilterAll(samples, NotBefore(cutoff));
    }
  }

  // ---- the rate ------------------------------------------------------------------------------------

  function PointAt(ref: real): Sample -> Point { (s: Sample) => Point(s.at - ref, s.offset) }

  function Points(samples: seq<Sample>, ref: real): seq<Point> { Map(samples, PointAt(ref)) }

  predicate Older(samples: seq<Sample>, cutoff: real) {
    exists s :: s in samples && s.at < cutoff
  }

  function Within(window: real): Point -> bool { (p: Point) => p.x >= -window }

  /** Some sample is the newest. */
  ghost predicate HasNewest(samples: seq<Sample>, ref: real) {
    && (exists s :: s in samples && s.at == ref)
    && (forall s :: s in samples ==> s.at <= ref)
  }

  function ShortResiduals(samples: seq<Sample>, ref: real, window: real, l: Line): (r: seq<real>)
    requires HasNewest(samples, ref) && window >= 0.0
    ensures r != []
  {
    ghost var i :| 0 <= i < |samples| && samples[i].at == ref;
    assert Points(samples, ref)[i] in Points(samples, ref);
    Map(Filter(Points(samples, ref), Within(window)), ResidualTo(l))
  }

  lemma RootOfCount(sqrt: real -> real, n: nat)
    requires IsSquareRoot(sqrt) && n > 0
    ensures sqrt(n as real) > 0.0
  {
    assert sqrt(n as real) * sqrt(n as real) == n as real;
  }

  /** How far the short window may sit from the long line before that is a step. */
  function StepLimit(sigma: real, n: nat, sqrt: real -> real): (limit: real)
    requires IsSquareRoot(sqrt) && n > 0
    ensures limit >= STEP_FLOOR_SEC
  {
    RootOfCount(sqrt, n);
    Max(STEP_FLOOR_SEC, 4.0 * sigma / sqrt(n as real))
  }

  /** The fit has found a step: its slope is no crystal's, or the short window's median residual is too large. */
  predicate Stepped(fit: Fit, samples: seq<Sample>, ref: real, t: Tuning, sqrt: real -> real)
    requires HasNewest(samples, ref) && ValidTuning(t) && IsSquareRoot(sqrt)
  {
    && fit.ok && Older(samples, ref - t.levelWindow)
    && var short := ShortResiduals(samples, ref, t.levelWindow, fit.line);
       !(Abs(fit.line.slope) <= MAX_RATE && Abs(Median(short)) <= StepLimit(fit.sigma, |short|, sqrt))
  }

  function Since(samples: seq<Sample>, cutoff: real): seq<Sample> { Filter(samples, NotBefore(cutoff)) }

  /** The fit that stands, and the samples left: a step drops all before the short window. */
  function Fitting(samples: seq<Sample>, ref: real, t: Tuning, sqrt: real -> real): (Fit, seq<Sample>)
    requires HasNewest(samples, ref) && ValidTuning(t) && IsSquareRoot(sqrt)
  {
    var fit := FitOf(Points(samples, ref), t, sqrt);
    if Stepped(fit, samples, ref, t, sqrt) then
      var kept := Since(samples, ref - t.levelWindow);
      (FitOf(Points(kept, ref), t, sqrt), kept)
    else
      (fit, samples)
  }

  /** How often history is dropped for a step: once at the most. */
  function Shifts(samples: seq<Sample>, ref: real, t: Tuning, sqrt: real -> real): nat
    requires HasNewest(samples, ref) && ValidTuning(t) && IsSquareRoot(sqrt)
  {
    if Stepped(FitOf(Points(samples, ref), t, sqrt), samples, ref, t, sqrt) then 1 else 0
  }

  /** How far a sample lies above a line through the points. */
  function OffLine(l: Line, ref: real): Sample -> real {
    (s: Sample) => s.offset - (l.intercept + l.slope * (s.at - ref))
  }

  /** More than `limit` off the line, to the side named. */
  function WellOff(l: Line, ref: real, limit: real, above: bool): Sample -> bool {
    (s: Sample) => if above then OffLine(l, ref)(s) > limit else OffLine(l, ref)(s) < -limit
  }

  function NoFurther(l: Line, ref: real, limit: real): Sample -> bool {
    (s: Sample) => -limit <= OffLine(l, ref)(s) <= limit
  }

  lemma ShortPoints(samples: seq<Sample>, ref: real, window: real)
    ensures Filter(Points(samples, ref), Within(window)) == Map(Since(samples, ref - window), PointAt(ref))
  {
    hide Filter, Map;
    FilterMapped(samples, PointAt(ref), Within(window), NotBefore(ref - window));
  }

  lemma ResidualsAre(w: seq<Sample>, ref: real, l: Line)
    ensures Map(Map(w, PointAt(ref)), ResidualTo(l)) == Map(w, OffLine(l, ref))
  {
    var v := Map(Map(w, PointAt(ref)), ResidualTo(l));
    forall i | 0 <= i < |w|
      ensures v[i] == Map(w, OffLine(l, ref))[i]
    {
      assert Map(w, PointAt(ref))[i] == PointAt(ref)(w[i]);
    }
  }

  lemma ShortAre(samples: seq<Sample>, ref: real, window: real, l: Line)
    requires HasNewest(samples, ref) && window >= 0.0
    ensures ShortResiduals(samples, ref, window, l) == Map(Since(samples, ref - window), OffLine(l, ref)) != []
  {
    ShortPoints(samples, ref, window);
    ResidualsAre(Since(samples, ref - window), ref, l);
    hide HasNewest, Points, Since, Map, Filter;
  }

  /** A fit that stands, with samples older than the short window for a step to be behind. */
  predicate CanStep(fit: Fit, samples: seq<Sample>, ref: real, t: Tuning) {
    fit.ok && exists s :: s in samples && s.at < ref - t.levelWindow
  }

  lemma MedianWellOff(w: seq<Sample>, l: Line, ref: real, limit: real, above: bool)
    requires 2 * Count(w, WellOff(l, ref, limit, above)) > |w| && limit >= 0.0
    ensures w != [] && Abs(Median(Map(w, OffLine(l, ref)))) > limit
  {
    var bound := if above then limit else -limit;
    CountMapped(w, OffLine(l, ref), WellOff(l, ref, limit, above), Past(bound, above));
    hide Median, Count;
    MedianBeyond(Map(w, OffLine(l, ref)), bound, above);
  }

  /** How far the median of the short window may be off the line before that is a step. */
  ghost predicate IsLimit(limit: real, sigma: real, n: nat, sqrt: real -> real) {
    n > 0 && sqrt(n as real) > 0.0 && limit == Max(STEP_FLOOR_SEC, 4.0 * sigma / sqrt(n as real))
  }

  lemma LimitIs(limit: real, sigma: real, n: nat, sqrt: real -> real)
    requires IsSquareRoot(sqrt) && IsLimit(limit, sigma, n, sqrt)
    ensures StepLimit(sigma, n, sqrt) == limit >= 0.0
  {
  }

  /** By the median of the short window. */
  lemma SteppedIs(fit: Fit, samples: seq<Sample>, ref: real, t: Tuning, sqrt: real -> real, w: seq<Sample>, limit: real)
    requires HasNewest(samples, ref) && ValidTuning(t) && IsSquareRoot(sqrt)
    requires w == Since(samples, ref - t.levelWindow) && IsLimit(limit, fit.sigma, |w|, sqrt)
    ensures w != []
    ensures Stepped(fit, samples, ref, t, sqrt)
            <==> CanStep(fit, samples, ref, t)
                 && !(-MAX_RATE <= fit.line.slope <= MAX_RATE && Abs(Median(Map(w, OffLine(fit.line, ref)))) <= limit)
  {
    ShortAre(samples, ref, t.levelWindow, fit.line);
    LimitIs(limit, fit.sigma, |w|, sqrt);
    hide Median, HasNewest, IsSquareRoot, ShortResiduals, Since, Map, IsLimit, StepLimit;
  }

  lemma FittingIs(samples: seq<Sample>, ref: real, t: Tuning, sqrt: real -> real, fit: Fit, w: seq<Sample>)
    requires HasNewest(samples, ref) && ValidTuning(t) && IsSquareRoot(sqrt)
    requires fit == FitOf(Points(samples, ref), t, sqrt) && w == Since(samples, ref - t.levelWindow)
    ensures Fitting(samples, ref, t, sqrt)
            == if Stepped(fit, samples, ref, t, sqrt) then (FitOf(Points(w, ref), t, sqrt), w) else (fit, samples)
    ensures Shifts(samples, ref, t, sqrt) == if Stepped(fit, samples, ref, t, sqrt) then 1 else 0
  {
    hide FitOf, Points, HasNewest, IsSquareRoot, Stepped, Since;
  }

  /** If most of the short window lies too far to one side of the line fitted through everything, or the
      line is steeper than any crystal's, exactly the short window is kept, and one step is counted. */
  lemma StepIsFound(samples: seq<Sample>, ref: real, t: Tuning, sqrt: real -> real, fit: Fit, w: seq<Sample>,
                    limit: real, above: bool)
    requires HasNewest(samples, ref) && ValidTuning(t) && IsSquareRoot(sqrt)
    requires fit == FitOf(Points(samples, ref), t, sqrt) && w == Since(samples, ref - t.levelWindow)
    requires CanStep(fit, samples, ref, t) && IsLimit(limit, fit.sigma, |w|, sqrt)
    requires 2 * Count(w, WellOff(fit.line, ref, limit, above)) > |w| || fit.line.slope > MAX_RATE || fit.line.slope < -MAX_RATE
    ensures Fitting(samples, ref, t, sqrt) == (FitOf(Points(w, ref), t, sqrt), w) && Shifts(samples, ref, t, sqrt) == 1
  {
    LimitIs(limit, fit.sigma, |w|, sqrt);
    SteppedIs(fit, samples, ref, t, sqrt, w, limit);
    FittingIs(samples, ref, t, sqrt, fit, w);
    hide *;
    if 2 * Count(w, WellOff(fit.line, ref, limit, above)) > |w| {
      MedianWellOff(w, fit.line, ref, limit, above);
    }
  }

  /** If most of it lies no further off than that, and the line is one a crystal can have, everything is
      kept. */
  lemma NoStepIsFound(samples: seq<Sample>, ref: real, t: Tuning, sqrt: real -> real, fit: Fit, w: seq<Sample>, limit: real)
    requires HasNewest(samples, ref) && ValidTuning(t) && IsSquareRoot(sqrt)
    requires fit == FitOf(Points(samples, ref), t, sqrt) && w == Since(samples, ref - t.levelWindow)
    requires IsLimit(limit, fit.sigma, |w|, sqrt)
    requires -MAX_RATE <= fit.line.slope <= MAX_RATE && 2 * Count(w, NoFurther(fit.line, ref, limit)) > |w|
    ensures Fitting(samples, ref, t, sqrt) == (fit, samples) && Shifts(samples, ref, t, sqrt) == 0
  {
    SteppedIs(fit, samples, ref, t, sqrt, w, limit);
    FittingIs(samples, ref, t, sqrt, fit, w);
    MedianNoFurther(w, fit.line, ref, limit);
    hide *;
  }

  lemma MedianNoFurther(w: seq<Sample>, l: Line, ref: real, limit: real)
    requires 2 * Count(w, NoFurther(l, ref, limit)) > |w|
    ensures w != [] && Abs(Median(Map(w, OffLine(l, ref)))) <= limit
  {
    MedianOfMost(w, OffLine(l, ref), NoFurther(l, ref, limit), -limit, limit);
    hide Median, Count, Map;
  }

  /** So it is kept when no fit stands, or nothing is older than the short window. */
  lemma NothingToStepFrom(samples: seq<Sample>, ref: real, t: Tuning, sqrt: real -> real, fit: Fit)
    requires HasNewest(samples, ref) && ValidTuning(t) && IsSquareRoot(sqrt)
    requires fit == FitOf(Points(samples, ref), t, sqrt) && !CanStep(fit, samples, ref, t)
    ensures Fitting(samples, ref, t, sqrt) == (fit, samples) && Shifts(samples, ref, t, sqrt) == 0
  {
    hide FitOf, Points, HasNewest, IsSquareRoot, Median, ShortResiduals;
  }

  lemma RecentKeepsNewest(samples: seq<Sample>, ref: real, window: real)
    requires HasNewest(samples, ref) && window >= 0.0
    ensures HasNewest(Since(samples, ref - window), ref)
    ensures !Older(Since(samples, ref - window), ref - window)
  {
    var s :| s in samples && s.at == ref;
    assert s in Since(samples, ref - window);
  }

  lemma FittingKeepsNewest(samples: seq<Sample>, ref: real, t: Tuning, sqrt: real -> real)
    requires HasNewest(samples, ref) && ValidTuning(t) && IsSquareRoot(sqrt)
    ensures HasNewest(Fitting(samples, ref, t, sqrt).1, ref) && Fitting(samples, ref, t, sqrt).1 != []
  {
    RecentKeepsNewest(samples, ref, t.levelWindow);
  }

  predicate Measured(fit: Fit) {
    fit.ok && Abs(fit.line.slope) <= MAX_RATE && fit.slopeDoubt <= MAX_MEASURED_DOUBT
  }

  function RateUsed(fit: Fit, prior: Prior): real {
    if Measured(fit) then fit.line.slope else if prior.known then prior.rate else 0.0
  }

  function DoubtUsed(fit: Fit, prior: Prior): real {
    if Measured(fit) then fit.slopeDoubt else if prior.known then prior.doubt else UNMEASURED_RATE
  }

  /** The fit's own rate counts as measured if it is one a crystal can have and well enough known; failing
      that the rate lent stands in for it, and failing both the drift is taken for none, and little known. */
  lemma RateUsedExactly(fit: Fit, prior: Prior)
    ensures
      var measured := fit.ok && -0.0005 <= fit.line.slope <= 0.0005 && fit.slopeDoubt <= 0.000025;
      && (Measured(fit) <==> measured)
      && (RateUsed(fit, prior), DoubtUsed(fit, prior))
         == if measured then (fit.line.slope, fit.slopeDoubt)
            else if prior.known then (prior.rate, prior.doubt)
            else (0.0, 0.00005)
  {
  }

  // ---- the level -----------------------------------------------------------------------------------

  function Carried(rate: real, ref: real): Sample -> real { (s: Sample) => s.offset + rate * (ref - s.at) }
  function Distance(ref: real): Sample -> real { (s: Sample) => ref - s.at }

  /** The short window's samples. */
  function Window(samples: seq<Sample>, ref: real, t: Tuning): (w: seq<Sample>)
    requires HasNewest(samples, ref) && ValidTuning(t)
    ensures w != []
  {
    RecentKeepsNewest(samples, ref, t.levelWindow);
    Since(samples, ref - t.levelWindow)
  }

  /** The median of the short window, each sample carried to the newest along the rate. */
  function Level(samples: seq<Sample>, ref: real, t: Tuning, rate: real): real
    requires HasNewest(samples, ref) && ValidTuning(t)
  {
    Median(Map(Window(samples, ref, t), Carried(rate, ref)))
  }

  /** The estimate before any hold. */
  function Live(fit: Fit, samples: seq<Sample>, ref: real, t: Tuning, prior: Prior, shifts: nat, holds: nat, timedOut: nat)
      : (e: OffsetEstimate)
    requires HasNewest(samples, ref) && ValidTuning(t)
  {
    var rate, doubt := RateUsed(fit, prior), DoubtUsed(fit, prior);
    var w := Window(samples, ref, t);
    var level := Level(samples, ref, t, rate);
    OffsetEstimate(|w| >= t.minLevelSamples, |w|, ref, level, Scatter(Map(w, Carried(rate, ref))),
             Measured(fit), !Measured(fit) && prior.known, rate, doubt,
             if fit.ok then fit.span else 0.0, if fit.ok then fit.kept else 0,
             doubt * (Sum(w, Distance(ref)) / |w| as real), shifts,
             level, false, 0.0, holds, timedOut)
  }

  /** What is said of the fit, and of the short window: the samples in it, and whether they are enough; and how
      far they scatter once carried, which most of them bound from above and from below. */
  lemma LiveSays(fit: Fit, samples: seq<Sample>, ref: real, t: Tuning, prior: Prior, shifts: nat, holds: nat, timedOut: nat,
                 lo: real, hi: real, d: real)
    requires HasNewest(samples, ref) && ValidTuning(t)
    ensures
      var e := Live(fit, samples, ref, t, prior, shifts, holds, timedOut);
      var v := Map(Window(samples, ref, t), Carried(e.rate, ref));
      && (if fit.ok then e.rateSamples == fit.kept && e.rateSpan == fit.span else e.rateSamples == 0 && e.rateSpan == 0.0)
      && (e.rateFromPrior <==> !e.rateMeasured && prior.known)
      && e.samples == Count(samples, NotBefore(ref - t.levelWindow)) && (e.valid <==> e.samples >= t.minLevelSamples)
      && (2 * Count(v, Inside(lo, hi)) > |v| ==> lo <= e.offset <= hi && 0.0 <= e.jitter <= 1.4826 * (hi - lo))
      && (2 * Count(v, FurtherThan(e.offset, d)) > |v| ==> e.jitter > 1.4826 * d)
  {
    hide Median, Count, Scatter, RateUsed, DoubtUsed, HasNewest, Measured;
    var e := Live(fit, samples, ref, t, prior, shifts, holds, timedOut);
    var v := Map(Window(samples, ref, t), Carried(e.rate, ref));
    if 2 * Count(v, Inside(lo, hi)) > |v| {
      ScatterIsLess(v, lo, hi);
      CountSame(v, Inside(lo, hi), (x: real) => lo <= x <= hi);
      MedianOfMajority(v, lo, hi);
    }
    if 2 * Count(v, FurtherThan(Median(v), d)) > |v| {
      ScatterIsMore(v, d);
    }
  }

  // ---- how good the level is -----------------------------------------------------------------------

  /** How far a sample is from the straight line a + b * t. */
  function Deviation(s: Sample, a: real, b: real): real { s.offset - (a + b * s.at) }

  /** Within `eps` of that line. */
  function Close(a: real, b: real, eps: real): Sample -> bool {
    (s: Sample) => Abs(Deviation(s, a, b)) <= eps
  }

  function OnLineAt(a: real, b: real, t: real): real { a + b * t }

  /** How far a sample within `eps` of a line of slope `b` can be off it once carried across the window. */
  function LevelDoubt(eps: real, rate: real, b: real, window: real): real { eps + Abs(rate - b) * window }

  /** A sample near the line is carried near it: the error is the rate's, over how far it was carried. */
  lemma CarriedError(s: Sample, ref: real, window: real, rate: real, a: real, b: real, eps: real)
    requires ref - window <= s.at <= ref && Close(a, b, eps)(s)
    ensures Abs(Carried(rate, ref)(s) - OnLineAt(a, b, ref)) <= LevelDoubt(eps, rate, b, window)
  {
    assert OnLineAt(a, b, ref) == a + Times(b, ref) && LevelDoubt(eps, rate, b, window) == eps + Times(Abs(rate - b), window);
    assert Abs(s.offset - (a + Times(b, s.at))) <= eps && Carried(rate, ref)(s) == s.offset + Times(rate, ref - s.at);
    hide Times, OnLineAt, LevelDoubt, Carried, Close;
    RateError(s.at, ref, window, rate, b);
    MovedTogether(s.offset, a, Times(b, ref), Times(b, s.at), Times(rate, ref - s.at), eps, Times(Abs(rate - b), window));
  }

  lemma RateError(at: real, ref: real, window: real, rate: real, b: real)
    requires ref - window <= at <= ref
    ensures Abs(Times(rate, ref - at) - (Times(b, ref) - Times(b, at))) <= Times(Abs(rate - b), window)
  {
    Relined(rate, b, at, ref);
    ProductBound(rate - b, ref - at);
    Ordered(Abs(rate - b), ref - at, window);
  }

  lemma MovedTogether(offset: real, a: real, p: real, q: real, r: real, eps: real, bound: real)
    requires Abs(offset - (a + q)) <= eps && Abs(r - (p - q)) <= bound
    ensures Abs(offset + r - (a + p)) <= eps + bound
  {
  }

  lemma Relined(rate: real, b: real, at: real, ref: real)
    ensures rate * (ref - at) == b * ref - b * at + (rate - b) * (ref - at)
  {
  }

  lemma ProductBound(x: real, d: real)
    requires d >= 0.0
    ensures Abs(x * d) <= Abs(x) * d
  {
    NonNegativeProduct(Abs(x), d);
  }

  lemma MajorityCarried(w: seq<Sample>, ref: real, window: real, rate: real, a: real, b: real, eps: real)
    requires forall s :: s in w ==> ref - window <= s.at <= ref
    requires 2 * Count(w, Close(a, b, eps)) > |w|
    ensures w != [] && Abs(Median(Map(w, Carried(rate, ref))) - OnLineAt(a, b, ref)) <= LevelDoubt(eps, rate, b, window)
  {
    var c, bound := OnLineAt(a, b, ref), LevelDoubt(eps, rate, b, window);
    hide OnLineAt, LevelDoubt, Close, Carried, Median, Count;
    forall s | s in w && Close(a, b, eps)(s)
      ensures c - bound <= Carried(rate, ref)(s) <= c + bound
    {
      CarriedError(s, ref, window, rate, a, b, eps);
    }
    MedianOfMost(w, Carried(rate, ref), Close(a, b, eps), c - bound, c + bound);
  }

  lemma LevelNear(samples: seq<Sample>, ref: real, t: Tuning, rate: real, a: real, b: real, eps: real)
    requires HasNewest(samples, ref) && ValidTuning(t)
    requires 2 * Count(Window(samples, ref, t), Close(a, b, eps)) > |Window(samples, ref, t)|
    ensures Abs(Level(samples, ref, t, rate) - OnLineAt(a, b, ref)) <= LevelDoubt(eps, rate, b, t.levelWindow)
  {
    hide Median, Count, Close, OnLineAt, LevelDoubt;
    MajorityCarried(Window(samples, ref, t), ref, t.levelWindow, rate, a, b, eps);
  }

  /** Whichever rate is used, and however wrong the rest of the short window is: when a strict majority
      of it lies within `eps` of a line, the level is within `eps` of that line plus what the error of
      the rate can do across the window. */
  lemma LevelError(samples: seq<Sample>, ref: real, t: Tuning, rate: real, a: real, b: real, eps: real)
    requires HasNewest(samples, ref) && ValidTuning(t)
    requires 2 * Count(Window(samples, ref, t), Close(a, b, eps)) > |Window(samples, ref, t)|
    ensures Abs(Level(samples, ref, t, rate) - (a + b * ref)) <= eps + Abs(rate - b) * t.levelWindow
  {
    hide Level, Window, HasNewest, Count, Close;
    LevelNear(samples, ref, t, rate, a, b, eps);
  }

  ghost predicate OnTrack(samples: seq<Sample>, a: real, b: real) {
    forall s :: s in samples ==> Close(a, b, 0.0)(s)
  }

  function TrackLine(a: real, b: real, ref: real): Line { Line(b, a + b * ref) }

  lemma OnTheLine(s: Sample, ref: real, a: real, b: real)
    requires Close(a, b, 0.0)(s)
    ensures TrackLine(a, b, ref).Residual(PointAt(ref)(s)) == 0.0
  {
    NoDeviation(s, a, b);
    Distribute(b, s.at, ref);
    var p, q, moved := b * s.at, b * ref, b * (s.at - ref);
    assert s.offset == a + q + moved;
  }

  lemma NoDeviation(s: Sample, a: real, b: real)
    requires Close(a, b, 0.0)(s)
    ensures Deviation(s, a, b) == 0.0
  {
    hide Deviation;
  }

  lemma PointsOnTrack(samples: seq<Sample>, ref: real, a: real, b: real)
    requires OnTrack(samples, a, b)
    ensures OnLine(Points(samples, ref), TrackLine(a, b, ref))
  {
    var pts := Points(samples, ref);
    forall p | p in pts
      ensures TrackLine(a, b, ref).Residual(p) == 0.0
    {
      var i :| 0 <= i < |pts| && pts[i] == p;
      assert samples[i] in samples;
      hide Line.Residual, Close;
      OnTheLine(samples[i], ref, a, b);
    }
  }

  /** On samples that move as a crystal does no history is dropped, and a rate fitted is the crystal's. */
  lemma FittingOnTrack(samples: seq<Sample>, ref: real, t: Tuning, sqrt: real -> real, a: real, b: real)
    requires HasNewest(samples, ref) && ValidTuning(t) && IsSquareRoot(sqrt) && OnTrack(samples, a, b)
    ensures Abs(b) <= MAX_RATE ==> Fitting(samples, ref, t, sqrt).1 == samples && Shifts(samples, ref, t, sqrt) == 0
    ensures OnTrack(Fitting(samples, ref, t, sqrt).1, a, b)
    ensures Fitting(samples, ref, t, sqrt).0.ok ==> Fitting(samples, ref, t, sqrt).0.line == TrackLine(a, b, ref)
  {
    hide FitOf, Median, OnLine, Line.Residual, HasNewest, Points;
    var kept := Since(samples, ref - t.levelWindow);
    PointsOnTrack(samples, ref, a, b);
    PointsOnTrack(kept, ref, a, b);
    var fit := FitOf(Points(samples, ref), t, sqrt);
    if fit.ok {
      FitOfALine(Points(samples, ref), t, sqrt, TrackLine(a, b, ref));
      ShortOnTrack(samples, ref, t.levelWindow, a, b);
    }
    if FitOf(Points(kept, ref), t, sqrt).ok {
      FitOfALine(Points(kept, ref), t, sqrt, TrackLine(a, b, ref));
    }
  }

  /** And a rate is measured on them exactly when it is one a crystal can have and they are enough. */
  lemma MeasuredOnTrackExactly(samples: seq<Sample>, ref: real, t: Tuning, sqrt: real -> real, a: real, b: real, n: nat)
    requires HasNewest(samples, ref) && ValidTuning(t) && IsSquareRoot(sqrt) && OnTrack(samples, a, b)
    requires samples != [] && CoverSpan(t, Span(Points(samples, ref)), n)
    ensures Measured(Fitting(samples, ref, t, sqrt).0)
            <==> Abs(b) <= MAX_RATE && Enough(Points(samples, ref), t, n, TrackLine(a, b, ref))
  {
    PointsOnTrack(samples, ref, a, b);
    FittingOnTrack(samples, ref, t, sqrt, a, b);
    LineStandsExactly(Points(samples, ref), t, sqrt, TrackLine(a, b, ref), n);
    var fit := FitOf(Points(samples, ref), t, sqrt);
    FittingIs(samples, ref, t, sqrt, fit, Since(samples, ref - t.levelWindow));
    hide Fitting, FitOf, HasNewest, Points, Stepped, OnLine, Enough, CoverSpan, Span, IsSquareRoot, Since;
  }

  lemma ShortOnTrack(samples: seq<Sample>, ref: real, window: real, a: real, b: real)
    requires HasNewest(samples, ref) && window >= 0.0 && OnLine(Points(samples, ref), TrackLine(a, b, ref))
    ensures Median(ShortResiduals(samples, ref, window, TrackLine(a, b, ref))) == 0.0
  {
    var short := Filter(Points(samples, ref), Within(window));
    assert ShortResiduals(samples, ref, window, TrackLine(a, b, ref)) == Map(short, ResidualTo(TrackLine(a, b, ref)));
    assert short != [];
    NoResiduals(short, TrackLine(a, b, ref));
  }

  /** The live level is on the line but for what the error of the rate can do across the window; and if
      the rate is measured there is no such error, so it is on the line at every instant. */
  ghost predicate Follows(e: OffsetEstimate, window: real, a: real, b: real) {
    && Abs(e.liveOffset - (a + b * e.at)) <= Abs(e.rate - b) * window
    && (e.rateMeasured ==> e.rate == b && forall t :: e.LiveAt(t) == a + b * t)
  }

  lemma LiveOnTrack(samples: seq<Sample>, ref: real, t: Tuning, sqrt: real -> real, prior: Prior,
                    shifts: nat, holds: nat, timedOut: nat, a: real, b: real)
    requires HasNewest(samples, ref) && ValidTuning(t) && IsSquareRoot(sqrt) && OnTrack(samples, a, b)
    requires HasNewest(Fitting(samples, ref, t, sqrt).1, ref)
    ensures
      var (fit, kept) := Fitting(samples, ref, t, sqrt);
      var e := Live(fit, kept, ref, t, prior, shifts, holds, timedOut);
      Follows(e, t.levelWindow, a, b)
  {
    hide Fitting, FitOf, Level, HasNewest, Live, OnTrack, ValidTuning, IsSquareRoot, Abs, Measured, Follows;
    var (fit, kept) := Fitting(samples, ref, t, sqrt);
    FittingOnTrack(samples, ref, t, sqrt, a, b);
    var rate := RateUsed(fit, prior);
    LiveFields(fit, kept, ref, t, prior, shifts, holds, timedOut);
    LevelOnTrack(kept, ref, t, rate, a, b);
    if Measured(fit) {
      MeasuredIsOk(fit);
    }
    var e := Live(fit, kept, ref, t, prior, shifts, holds, timedOut);
    LevelFollows(e, ref, rate, t.levelWindow, a, b);
  }

  lemma LevelFollows(e: OffsetEstimate, ref: real, rate: real, window: real, a: real, b: real)
    requires e.at == ref && e.rate == rate && (e.rateMeasured ==> rate == b)
    requires Abs(e.liveOffset - (a + b * ref)) <= Abs(rate - b) * window
    requires rate == b ==> e.liveOffset == a + b * ref
    ensures Follows(e, window, a, b)
  {
    forall t | e.rateMeasured
      ensures e.LiveAt(t) == a + b * t
    {
      Distribute(b, t, e.at);
    }
  }

  lemma MeasuredIsOk(fit: Fit)
    requires Measured(fit)
    ensures fit.ok
  {
  }

  lemma LiveFields(fit: Fit, samples: seq<Sample>, ref: real, t: Tuning, prior: Prior, shifts: nat, holds: nat, timedOut: nat)
    requires HasNewest(samples, ref) && ValidTuning(t)
    ensures
      var e := Live(fit, samples, ref, t, prior, shifts, holds, timedOut);
      && e.at == ref && e.liveOffset == e.offset == Level(samples, ref, t, e.rate)
      && e.rate == RateUsed(fit, prior) && e.rateMeasured == Measured(fit)
  {
    hide Level, HasNewest, Window, Scatter, Sum, Measured;
  }

  lemma LevelOnTrack(samples: seq<Sample>, ref: real, t: Tuning, rate: real, a: real, b: real)
    requires HasNewest(samples, ref) && ValidTuning(t) && OnTrack(samples, a, b)
    ensures Abs(Level(samples, ref, t, rate) - (a + b * ref)) <= Abs(rate - b) * t.levelWindow
    ensures rate == b ==> Level(samples, ref, t, rate) == a + b * ref
  {
    hide Level, HasNewest, Close;
    CountAll(Window(samples, ref, t), Close(a, b, 0.0));
    LevelError(samples, ref, t, rate, a, b, 0.0);
  }

  /** How far a crystal of rate `b` leaves a sample from where the rate used carries it. */
  function Strayed(b: real, rate: real, ref: real): Sample -> real { (s: Sample) => (rate - b) * (ref - s.at) }

  /** The rate term covers what a rate within its doubt of the crystal's does, over the short window, to the
      mean of the samples carried. */
  lemma RateTermCovers(fit: Fit, samples: seq<Sample>, ref: real, t: Tuning, prior: Prior,
                       shifts: nat, holds: nat, timedOut: nat, b: real)
    requires HasNewest(samples, ref) && ValidTuning(t)
    requires Abs(RateUsed(fit, prior) - b) <= DoubtUsed(fit, prior)
    ensures
      var e, w := Live(fit, samples, ref, t, prior, shifts, holds, timedOut), Window(samples, ref, t);
      Abs(Sum(w, Strayed(b, e.rate, ref)) / |w| as real) <= e.rateTerm
  {
    var w := Window(samples, ref, t);
    assert forall s :: s in w ==> s.at <= ref;
    TermIs(fit, samples, ref, t, prior, shifts, holds, timedOut);
    hide *;
    StrayedMean(w, ref, RateUsed(fit, prior), b, DoubtUsed(fit, prior));
  }

  lemma StrayedMean(w: seq<Sample>, ref: real, rate: real, b: real, doubt: real)
    requires w != [] && (forall s :: s in w ==> s.at <= ref) && Abs(rate - b) <= doubt
    ensures Abs(Sum(w, Strayed(b, rate, ref)) / |w| as real) <= Times(doubt, Sum(w, Distance(ref)) / |w| as real)
  {
    SumNonNegative(w, Distance(ref));
    StrayedSum(w, ref, rate, b);
    hide Sum, Times;
    MeanStrayed(rate - b, doubt, Sum(w, Distance(ref)), |w| as real, Sum(w, Strayed(b, rate, ref)));
  }

  lemma {:induction false} StrayedSum(w: seq<Sample>, ref: real, rate: real, b: real)
    ensures Sum(w, Strayed(b, rate, ref)) == Times(rate - b, Sum(w, Distance(ref)))
  {
    if w == [] {
      TimesAdd(rate - b, 0.0, 0.0);
    } else {
      var init, s := w[..|w| - 1], w[|w| - 1];
      StrayedSum(init, ref, rate, b);
      assert Strayed(b, rate, ref)(s) == Times(rate - b, ref - s.at);
      TimesAdd(rate - b, Sum(init, Distance(ref)), ref - s.at);
      hide Times, Strayed;
    }
  }

  lemma TimesAdd(x: real, y: real, z: real)
    ensures Times(x, y + z) == Times(x, y) + Times(x, z) && Times(x, 0.0) == 0.0
  {
    Distribute(x, y, z);
  }

  lemma TermIs(fit: Fit, samples: seq<Sample>, ref: real, t: Tuning, prior: Prior, shifts: nat, holds: nat, timedOut: nat)
    requires HasNewest(samples, ref) && ValidTuning(t)
    ensures
      var e, w := Live(fit, samples, ref, t, prior, shifts, holds, timedOut), Window(samples, ref, t);
      e.rate == RateUsed(fit, prior) && e.rateTerm == Times(DoubtUsed(fit, prior), Sum(w, Distance(ref)) / |w| as real)
  {
    hide Sum, RateUsed, DoubtUsed, Window, Level, Scatter, HasNewest, Measured;
  }

  lemma MeanStrayed(off: real, doubt: real, sum: real, n: real, total: real)
    requires Abs(off) <= doubt && sum >= 0.0 && n > 0.0 && total == Times(off, sum)
    ensures Abs(total / n) <= Times(doubt, sum / n)
  {
    var mean := sum / n;
    QuotientAtLeast(sum, n, 0.0);
    assert total / n == off * mean;
    ProductBound(off, mean);
    Ordered(mean, Abs(off), doubt);
  }

  // ---- as it is computed ---------------------------------------------------------------------------

  method AnyOlder(samples: seq<Sample>, cutoff: real) returns (older: bool)
    ensures older == Older(samples, cutoff)
  {
    older := false;
    for i := 0 to |samples|
      invariant older == exists k :: 0 <= k < i && samples[k].at < cutoff
    {
      if samples[i].at < cutoff {
        older := true;
      }
    }
  }

  method StepFound(fit: Fit, samples: seq<Sample>, ref: real, t: Tuning, sqrt: real -> real) returns (stepped: bool)
    requires HasNewest(samples, ref) && ValidTuning(t) && IsSquareRoot(sqrt)
    ensures stepped == Stepped(fit, samples, ref, t, sqrt)
  {
    hide HasNewest, IsSquareRoot, Median, StepLimit, ShortResiduals;
    var older := AnyOlder(samples, ref - t.levelWindow);
    if !fit.ok || !older {
      return false;
    }
    var plausible := Abs(fit.line.slope) <= MAX_RATE;
    var short := ShortResiduals(samples, ref, t.levelWindow, fit.line);
    var limit := StepLimit(fit.sigma, |short|, sqrt);
    stepped := !(plausible && Abs(Median(short)) <= limit);
  }

  /** At most two fits: what is left after a step has nothing older for another to be found in. */
  method FitDroppingSteps(was: seq<Sample>, ref: real, t: Tuning, sqrt: real -> real)
      returns (fit: Fit, samples: seq<Sample>, shifts: nat)
    requires HasNewest(was, ref) && ValidTuning(t) && IsSquareRoot(sqrt)
    ensures (fit, samples) == Fitting(was, ref, t, sqrt)
    ensures shifts == Shifts(was, ref, t, sqrt)
  {
    hide FitOf, Median, StepLimit, HasNewest, IsSquareRoot, Older, ShortResiduals, Points;
    fit, samples, shifts := NoFit, was, 0;
    while shifts < 2
      invariant shifts < 2 && HasNewest(samples, ref)
      invariant shifts == 0 ==> samples == was
      invariant shifts == 1 ==>
                  && Stepped(FitOf(Points(was, ref), t, sqrt), was, ref, t, sqrt)
                  && samples == Since(was, ref - t.levelWindow) && !Older(samples, ref - t.levelWindow)
      decreases 2 - shifts
    {
      fit := FitLine(Points(samples, ref), t, sqrt);
      var stepped := StepFound(fit, samples, ref, t, sqrt);
      if !stepped {
        break;
      }
      RecentKeepsNewest(samples, ref, t.levelWindow);
      samples, shifts, fit := Since(samples, ref - t.levelWindow), shifts + 1, NoFit;
    }
  }

  lemma CarriedNext(w: seq<Sample>, s: Sample, rate: real, ref: real)
    ensures Map(w + [s], Carried(rate, ref)) == Map(w, Carried(rate, ref)) + [s.offset + rate * (ref - s.at)]
    ensures Sum(w + [s], Distance(ref)) == Sum(w, Distance(ref)) + (ref - s.at)
  {
    SumOne(w, s, Distance(ref));
    assert (w + [s])[|w|] == s && Carried(rate, ref)(s) == s.offset + rate * (ref - s.at);
    assert forall i :: 0 <= i < |w| ==> (w + [s])[i] == w[i];
  }

  lemma FilterNext(samples: seq<Sample>, i: nat, p: Sample -> bool)
    requires i < |samples|
    ensures Filter(samples[..i + 1], p) == Filter(samples[..i], p) + if p(samples[i]) then [samples[i]] else []
  {
    Extend(samples, i);
  }

  /** The short window's samples carried to the newest, and how far they were carried altogether. */
  method CarryWindow(samples: seq<Sample>, ref: real, window: real, rate: real) returns (level: seq<real>, carried: real)
    ensures level == Map(Since(samples, ref - window), Carried(rate, ref))
    ensures carried == Sum(Since(samples, ref - window), Distance(ref))
  {
    level, carried := [], 0.0;
    for i := 0 to |samples|
      invariant level == Map(Filter(samples[..i], NotBefore(ref - window)), Carried(rate, ref))
      invariant carried == Sum(Filter(samples[..i], NotBefore(ref - window)), Distance(ref))
    {
      hide Sum, Filter, Carried, Distance;
      var s := samples[i];
      FilterNext(samples, i, NotBefore(ref - window));
      if s.at >= ref - window {
        CarriedNext(Filter(samples[..i], NotBefore(ref - window)), s, rate, ref);
        level := level + [s.offset + rate * (ref - s.at)];
        carried := carried + (ref - s.at);
      } else {
        assert Filter(samples[..i], NotBefore(ref - window)) + [] == Filter(samples[..i], NotBefore(ref - window));
      }
    }
    assert samples[..|samples|] == samples;
  }

  method LevelFrom(fit: Fit, samples: seq<Sample>, ref: real, t: Tuning, prior: Prior, shifts: nat, holds: nat, timedOut: nat)
      returns (e: OffsetEstimate)
    requires HasNewest(samples, ref) && ValidTuning(t)
    ensures e == Live(fit, samples, ref, t, prior, shifts, holds, timedOut)
  {
    hide HasNewest, Median, Scatter, Sum, Carried, Measured, Filter;
    var rate, doubt := RateUsed(fit, prior), DoubtUsed(fit, prior);
    ghost var w := Window(samples, ref, t);
    var level, carried := CarryWindow(samples, ref, t.levelWindow, rate);
    var med := Median(level);
    e := OffsetEstimate(|level| >= t.minLevelSamples, |level|, ref, med, Scatter(level),
                        Measured(fit), !Measured(fit) && prior.known, rate, doubt,
                        if fit.ok then fit.span else 0.0, if fit.ok then fit.kept else 0,
                        doubt * (carried / |level| as real), shifts, med, false, 0.0, holds, timedOut);
  }

  lemma AddedNewest(was: seq<Sample>, newest: real, s: Sample, window: real)
    requires window >= 0.0 && (was != [] ==> HasNewest(was, newest))
    ensures
      var ref := if was == [] then s.at else Max(newest, s.at);
      HasNewest(was + [s], ref) && HasNewest(Trim(was + [s], ref - window), ref)
  {
    var all, ref := was + [s], if was == [] then s.at else Max(newest, s.at);
    assert all[|was|] in all;
    if ref != s.at {
      var x :| x in was && x.at == ref;
      assert x in all;
    }
    var x :| x in all && x.at == ref;
    assert x in Trim(all, ref - window);
  }

  // ---- the estimator -------------------------------------------------------------------------------

  /** What a recompute publishes once the hold has been seen to. */
  function AfterHold(e: OffsetEstimate, h: Hold, published: real): OffsetEstimate {
    e.(offset := published, held := h.holding, rejoinGap := if h.holding then 0.0 else h.gap,
       holds := h.holds, timedOut := h.timedOut,
       rateTerm := if h.holding then e.rateTerm + e.rateDoubt * (e.at - h.calmAt) else e.rateTerm)
  }

  function ReadingOf(e: OffsetEstimate): Reading { Reading(e.at, e.liveOffset, e.jitter, e.rate) }

  lemma LogReading(start: Hold, readings: seq<Reading>, r: Reading)
    ensures SpikeHold.Run(start, readings + [r]) == SpikeHold.Step(SpikeHold.Run(start, readings), r).0
  {
    assert (readings + [r])[..|readings|] == readings;
  }

  /** The log of readings: in order, none later than the newest sample, and the hold is where they lead. */
  ghost predicate Logged(hold: Hold, start: Hold, readings: seq<Reading>, newestAt: real) {
    && InOrder(readings) && hold == SpikeHold.Run(start, readings)
    && (readings != [] ==> readings[|readings| - 1].at <= newestAt)
  }

  lemma LoggedUntil(hold: Hold, start: Hold, readings: seq<Reading>, newestAt: real, later: real)
    requires Logged(hold, start, readings, newestAt) && (readings == [] || newestAt <= later)
    ensures Logged(hold, start, readings, later)
  {
  }

  lemma LoggedNext(hold: Hold, start: Hold, readings: seq<Reading>, r: Reading)
    requires Logged(hold, start, readings, r.at) && r.at > 0.0
    ensures Logged(SpikeHold.Step(hold, r).0, start, readings + [r], r.at) && hold.gapSlew >= 0.0
  {
    hide SpikeHold.Step;
    LogReading(start, readings, r);
    LastAt(start, readings);
  }

  /** What a recompute makes of the samples: the estimate, the samples left, the steps found so far,
      and the state of the hold. */
  function Recomputed(was: seq<Sample>, ref: real, t: Tuning, sqrt: real -> real, prior: Prior, shifts: nat, hold: Hold)
      : (OffsetEstimate, seq<Sample>, nat, Hold)
    requires ValidTuning(t) && IsSquareRoot(sqrt) && (was != [] ==> HasNewest(was, ref))
  {
    if was == [] then
      (NoEstimate.(levelShifts := shifts), [], shifts, hold)
    else
      FittingKeepsNewest(was, ref, t, sqrt);
      var (fit, kept) := Fitting(was, ref, t, sqrt);
      var total := shifts + Shifts(was, ref, t, sqrt);
      var live := Live(fit, kept, ref, t, prior, total, hold.holds, hold.timedOut);
      if t.holdJitterSpikes && live.valid then
        var (h, published) := SpikeHold.Step(hold, ReadingOf(live));
        (AfterHold(live, h, published), kept, total, h)
      else
        (live, kept, total, hold)
  }

  /** What is published, and what of it is the hold's: without one, or with too few samples, the level is the
      live one and the hold is left alone; otherwise it is what the hold makes of the live one; and unless it
      is held it is the live one and the gap still to rejoin. */
  lemma EstimateIsPublished(was: seq<Sample>, ref: real, t: Tuning, sqrt: real -> real, prior: Prior, shifts: nat, hold: Hold)
    requires ValidTuning(t) && IsSquareRoot(sqrt) && was != [] && HasNewest(was, ref)
    ensures
      var (e, kept, total, h) := Recomputed(was, ref, t, sqrt, prior, shifts, hold);
      && (t.holdJitterSpikes && e.valid ==>
            (h, e.offset) == SpikeHold.Step(hold, Reading(e.at, e.liveOffset, e.jitter, e.rate)) && e.held == h.holding)
      && (!t.holdJitterSpikes || !e.valid ==> h == hold && !e.held && e.rejoinGap == 0.0)
      && (if e.held then e.rejoinGap == 0.0 else e.offset == e.liveOffset + e.rejoinGap)
  {
    hide Fitting, HasNewest, ValidTuning, IsSquareRoot, Shifts, Level, Window, Scatter, Sum, Measured, SpikeHold.Step;
    FittingKeepsNewest(was, ref, t, sqrt);
    var (fit, kept) := Fitting(was, ref, t, sqrt);
    var live := Live(fit, kept, ref, t, prior, shifts + Shifts(was, ref, t, sqrt), hold.holds, hold.timedOut);
    NotHeldIsLive(hold, ReadingOf(live));
  }

  lemma NotHeldIsLive(h: Hold, r: Reading)
    ensures !SpikeHold.Step(h, r).0.holding ==> SpikeHold.Step(h, r).1 == r.live + SpikeHold.Step(h, r).0.gap
  {
    hide SpikeHold.Before, SpikeHold.CalmSince, SpikeHold.Held;
  }

  function MovedOn(level: real, rate: real, seconds: real): real { level + rate * seconds }

  /** While the level is held the rate term covers how far from it a crystal has moved since the last calm
      reading, if its rate is within the doubt of the one used. */
  lemma HeldTermCovers(e: OffsetEstimate, hold: Hold, start: Hold, readings: seq<Reading>, b: real)
    requires Logged(hold, start, readings, e.at) && e.at > 0.0 && Abs(e.rate - b) <= e.rateDoubt
    ensures
      var (h, published) := SpikeHold.Step(hold, ReadingOf(e));
      var f := AfterHold(e, h, published);
      f.held ==> h.calmAt <= f.at && Abs(f.offset - MovedOn(h.calmOffset, b, f.at - h.calmAt)) + e.rateTerm <= f.rateTerm
  {
    hide SpikeHold.Step, Logged, MovedOn;
    var (h, published) := SpikeHold.Step(hold, ReadingOf(e));
    if h.holding {
      HeldFromCalm(hold, start, readings, ReadingOf(e));
      MovedWhileHeld(e, h, published, b);
    }
  }

  lemma MovedWhileHeld(e: OffsetEstimate, h: Hold, published: real, b: real)
    requires h.holding && h.calmAt <= e.at && published == MovedOn(h.calmOffset, e.rate, e.at - h.calmAt)
    requires Abs(e.rate - b) <= e.rateDoubt
    ensures
      var f := AfterHold(e, h, published);
      Abs(f.offset - MovedOn(h.calmOffset, b, f.at - h.calmAt)) + e.rateTerm <= f.rateTerm
  {
    var f, age := AfterHold(e, h, published), e.at - h.calmAt;
    assert f.offset == h.calmOffset + Times(e.rate, age) && f.rateTerm == e.rateTerm + Times(e.rateDoubt, age);
    assert MovedOn(h.calmOffset, b, f.at - h.calmAt) == h.calmOffset + Times(b, age);
    hide AfterHold, Times, MovedOn;
    DriftWithin(e.rate, b, e.rateDoubt, age);
  }

  lemma DriftWithin(rate: real, b: real, doubt: real, age: real)
    requires age >= 0.0 && Abs(rate - b) <= doubt
    ensures Abs(Times(rate, age) - Times(b, age)) <= Times(doubt, age)
  {
    Distribute(age, rate, b);
    ProductBound(rate - b, age);
    Ordered(age, Abs(rate - b), doubt);
  }

  lemma HeldFromCalm(hold: Hold, start: Hold, readings: seq<Reading>, r: Reading)
    requires Logged(hold, start, readings, r.at) && r.at > 0.0 && SpikeHold.Step(hold, r).0.holding
    ensures
      var (h, published) := SpikeHold.Step(hold, r);
      h.calmAt <= r.at && published == MovedOn(h.calmOffset, r.rate, r.at - h.calmAt)
  {
    hide SpikeHold.LastCalm, SpikeHold.Run, SpikeHold.Step, Published;
    assert readings[..|readings|] == readings;
    CalmIs(start, readings, |readings|);
    StepHoldsOn(hold, r);
  }

  lemma AfterHoldFollows(e: OffsetEstimate, h: Hold, published: real, window: real, a: real, b: real)
    requires Follows(e, window, a, b)
    ensures Follows(AfterHold(e, h, published), window, a, b)
  {
    var f := AfterHold(e, h, published);
    assert forall t :: f.LiveAt(t) == e.LiveAt(t);
  }

  /** Whatever the rate used and the hold, the estimate made of samples on a line follows that line, and
      no history is dropped if its slope is one a crystal can have. */
  lemma EstimateOnTrack(was: seq<Sample>, ref: real, t: Tuning, sqrt: real -> real, prior: Prior, shifts: nat, hold: Hold,
                        a: real, b: real)
    requires ValidTuning(t) && IsSquareRoot(sqrt) && was != [] && HasNewest(was, ref) && OnTrack(was, a, b)
    ensures
      var (e, kept, total, h) := Recomputed(was, ref, t, sqrt, prior, shifts, hold);
      && Follows(e, t.levelWindow, a, b)
      && (Abs(b) <= MAX_RATE ==> kept == was && total == shifts)
  {
    hide Fitting, Live, HasNewest, OnTrack, AfterHold, SpikeHold.Step, ValidTuning, IsSquareRoot, Abs, Follows, Shifts;
    var (fit, kept) := Fitting(was, ref, t, sqrt);
    var total := shifts + Shifts(was, ref, t, sqrt);
    FittingKeepsNewest(was, ref, t, sqrt);
    LiveOnTrack(was, ref, t, sqrt, prior, total, hold.holds, hold.timedOut, a, b);
    FittingOnTrack(was, ref, t, sqrt, a, b);
    var live := Live(fit, kept, ref, t, prior, total, hold.holds, hold.timedOut);
    var (h, published) := SpikeHold.Step(hold, ReadingOf(live));
    AfterHoldFollows(live, h, published, t.levelWindow, a, b);
  }

  method DropFront(was: seq<Sample>, cutoff: real) returns (samples: seq<Sample>)
    ensures samples == Trim(was, cutoff)
  {
    samples := was;
    while samples != [] && samples[0].at < cutoff
      invariant Trim(samples, cutoff) == Trim(was, cutoff)
    {
      samples := samples[1..];
    }
  }

  method RecomputeFrom(was: seq<Sample>, ref: real, t: Tuning, sqrt: real -> real, prior: Prior, shifts: nat, hold: Hold,
                       ghost start: Hold, ghost readings: seq<Reading>)
      returns (e: OffsetEstimate, kept: seq<Sample>, total: nat, h: Hold, ghost log: seq<Reading>)
    requires ValidTuning(t) && IsSquareRoot(sqrt) && (was != [] ==> ref > 0.0 && HasNewest(was, ref))
    requires Logged(hold, start, readings, ref) && (was == [] ==> readings == [])
    ensures (e, kept, total, h) == Recomputed(was, ref, t, sqrt, prior, shifts, hold)
    ensures Logged(h, start, log, ref)
    ensures if was == [] then kept == [] && log == [] else kept != [] && HasNewest(kept, ref)
  {
    hide Fitting, Live, HasNewest, Shifts, AfterHold, SpikeHold.Step, ValidTuning, IsSquareRoot, Logged;
    h, log := hold, readings;
    if was == [] {
      e, kept, total := NoEstimate.(levelShifts := shifts), [], shifts;
      return;
    }
    var fit;
    fit, kept, total := FitDroppingSteps(was, ref, t, sqrt);
    FittingKeepsNewest(was, ref, t, sqrt);
    total := shifts + total;
    e := LevelFrom(fit, kept, ref, t, prior, total, hold.holds, hold.timedOut);
    if t.holdJitterSpikes && e.valid {
      LiveFields(fit, kept, ref, t, prior, total, hold.holds, hold.timedOut);
      var r := ReadingOf(e);
      LoggedNext(hold, start, readings, r);
      var published;
      h, published := HoldThroughSpikes(hold, r);
      e, log := AfterHold(e, h, published), readings + [r];
    }
  }

  class OffsetEstimator {
    const tuning: Tuning
    const sqrt: real -> real
    var samples: seq<Sample>
    var newestAt: real
    var dirty: bool
    var levelShifts: nat
    var est: OffsetEstimate
    var prior: Prior
    var hold: Hold

    /** The readings the hold has been given since the estimator was last cleared, and its state then. */
    ghost var readings: seq<Reading>
    ghost var start: Hold

    ghost predicate Valid()
      reads `samples, `newestAt, `hold, `readings, `start
    {
      && ValidTuning(tuning) && IsSquareRoot(sqrt)
      && (samples == [] ==> readings == [])
      && (samples != [] ==> newestAt > 0.0 && HasNewest(samples, newestAt))
      && Logged(hold, start, readings, newestAt)
    }

    constructor (tuning: Tuning, sqrt: real -> real)
      requires ValidTuning(tuning) && IsSquareRoot(sqrt)
      ensures Valid() && this.tuning == tuning && this.sqrt == sqrt
      ensures samples == [] && hold == Initial && levelShifts == 0 && dirty && !prior.known
    {
      this.tuning, this.sqrt := tuning, sqrt;
      samples, newestAt, dirty, levelShifts, est, prior := [], 0.0, true, 0, NoEstimate, Prior(false, 0.0, 0.0);
      hold, readings, start := Initial, [], Initial;
    }

    method SetRatePrior(rate: real, doubt: real, known: bool)
      modifies `prior
      ensures prior == Prior(known, rate, doubt)
    {
      prior := Prior(known, rate, doubt);
    }

    method Add(at: real, offset: real)
      requires Valid() && at > 0.0
      modifies `samples, `newestAt, `dirty
      ensures Valid() && dirty
      ensures newestAt == if old(samples) == [] then at else Max(old(newestAt), at)
      ensures samples == Trim(old(samples) + [Sample(at, offset)], newestAt - tuning.rateWindow)
    {
      hide HasNewest, IsSquareRoot, Trim, Logged;
      AddedNewest(samples, newestAt, Sample(at, offset), tuning.rateWindow);
      LoggedUntil(hold, start, readings, newestAt, if samples == [] then at else Max(newestAt, at));
      samples := samples + [Sample(at, offset)];
      newestAt := if |samples| == 1 then at else Max(newestAt, at);
      samples := DropFront(samples, newestAt - tuning.rateWindow);
      dirty := true;
    }

    method Clear()
      requires Valid()
      modifies `samples, `newestAt, `dirty, `hold, `readings, `start
      ensures Valid() && samples == [] && dirty && hold == Cleared(old(hold))
    {
      samples, newestAt, dirty := [], 0.0, true;
      readings, start, hold := [], hold, Cleared(hold);
    }

    /** The offset, recomputed only when something has changed since it was last asked for. */
    method Estimate() returns (e: OffsetEstimate)
      requires Valid()
      modifies this
      ensures Valid() && !dirty && e == est && newestAt == old(newestAt) && prior == old(prior)
      ensures !old(dirty) ==> est == old(est) && samples == old(samples) && hold == old(hold) && levelShifts == old(levelShifts)
      ensures old(dirty) ==>
                (est, samples, levelShifts, hold)
                == Recomputed(old(samples), newestAt, tuning, sqrt, prior, old(levelShifts), old(hold))
    {
      if dirty {
        Recompute();
      }
      dirty := false;
      e := est;
    }

    method Recompute()
      requires Valid()
      modifies `est, `samples, `levelShifts, `hold, `readings
      ensures Valid()
      ensures (est, samples, levelShifts, hold)
              == Recomputed(old(samples), newestAt, tuning, sqrt, prior, old(levelShifts), old(hold))
    {
      hide Recomputed, HasNewest, IsSquareRoot, Logged;
      est, samples, levelShifts, hold, readings :=
        RecomputeFrom(samples, newestAt, tuning, sqrt, prior, levelShifts, hold, start, readings);
    }
  }
}
