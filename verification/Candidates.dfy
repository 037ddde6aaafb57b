/** What the selector is given about each source, and the interval a usable one asserts. */
module Candidates {
  import opened Folds
  import opened Arithmetic

  datatype Kind = Radio | Ntp

  /** The part of a source's snapshot the selector reads. `stratum`, `rootDelaySec` and `delaySec`
      mean something for an upstream NTP server only. */
  datatype Snapshot = Snapshot(
    name: string, kind: Kind, primaryClass: bool,
    ready: bool, haveOffset: bool, offsetAgeSec: real, maxOffsetAgeSec: real,
    offsetSec: real, offsetAtSec: real, offsetRate: real, offsetRateUncertainty: real, offsetRateMeasured: bool,
    dispersionSec: real, weightDispersionSec: real, weight: real,
    leapPending: bool, stratum: int, rootDelaySec: real, delaySec: real)

  datatype Candidate = Candidate(
    s: Snapshot, offset: real, dist: real, quality: real, weight: real, primary: bool)
  {
    function Low(): real { offset - dist }
    function High(): real { offset + dist }

    /** The half-open interval, which is what the sweep counts. */
    predicate Holds(x: real) { Low() <= x < High() }

    /** The closed interval, which is what survival is decided by. */
    predicate Touches(x: real) { Low() <= x <= High() }

    /** What the weighted combine gives it; a sound candidate's quality is never zero. */
    function Share(): real { PerSquare(weight, quality) }
  }

  function PerSquare(w: real, q: real): real {
    if q == 0.0 then 0.0 else w / (q * q)
  }

  const CANDIDATE_MAX_AGE_SEC := 180.0

  function AgeLimit(s: Snapshot): real {
    if s.maxOffsetAgeSec > 0.0 then s.maxOffsetAgeSec else CANDIDATE_MAX_AGE_SEC
  }

  predicate Eligible(s: Snapshot) {
    s.ready && s.offsetAgeSec <= AgeLimit(s) && s.haveOffset && s.dispersionSec > 0.0
  }

  /** Ages and doubts are durations and magnitudes: never negative. */
  predicate Plausible(s: Snapshot) {
    s.offsetAgeSec >= 0.0 && s.offsetRateUncertainty >= 0.0
  }

  function CandidateOf(s: Snapshot, now: real, driftPpm: real): Candidate {
    var staleness := s.offsetAgeSec * (driftPpm / 1000000.0 + s.offsetRateUncertainty);
    Candidate(s,
              s.offsetSec + s.offsetRate * (now - s.offsetAtSec),
              s.dispersionSec + staleness,
              (if s.weightDispersionSec > 0.0 then s.weightDispersionSec else s.dispersionSec) + staleness,
              if s.weight > 0.0 then s.weight else 1.0,
              s.primaryClass)
  }

  predicate Sound(k: Candidate) {
    k.dist > 0.0 && k.quality > 0.0 && k.weight > 0.0 && k.s.offsetRateUncertainty >= 0.0
  }

  predicate AllSound(cand: seq<Candidate>) {
    forall k :: k in cand ==> Sound(k)
  }

  /** An eligible source asserts an interval of positive width, never tighter than its own
      dispersion, that grows as its last measurement ages. */
  lemma CandidateIsSound(s: Snapshot, now: real, driftPpm: real)
    requires Eligible(s) && Plausible(s) && driftPpm >= 0.0
    ensures Sound(CandidateOf(s, now, driftPpm))
    ensures CandidateOf(s, now, driftPpm).dist >= s.dispersionSec
  {
    var doubt := driftPpm / 1000000.0 + s.offsetRateUncertainty;
    NonNegativeProduct(s.offsetAgeSec, doubt);
  }

  /** A source that reads a line, and knows its rate, is carried along that line to whatever the instant is. */
  lemma CarriedAlongItsLine(s: Snapshot, now: real, driftPpm: real, a: real, b: real)
    requires s.offsetSec == a + b * s.offsetAtSec && s.offsetRate == b
    ensures CandidateOf(s, now, driftPpm).offset == a + b * now
  {
    Distribute(b, now, s.offsetAtSec);
  }

  /** If the offset was within the dispersion when it was read, and has moved since at a rate no further
      from the one measured than the doubt in that and the drift allowed, the interval still holds it. */
  lemma CandidateHoldsTheTruth(s: Snapshot, now: real, driftPpm: real, truth: real, rate: real)
    requires Eligible(s) && Plausible(s) && driftPpm >= 0.0 && s.offsetAgeSec == now - s.offsetAtSec
    requires Abs(truth - s.offsetSec) <= s.dispersionSec
    requires Abs(rate - s.offsetRate) <= s.offsetRateUncertainty + driftPpm / 1000000.0
    ensures CandidateOf(s, now, driftPpm).Touches(truth + rate * (now - s.offsetAtSec))
  {
    var age, doubt := s.offsetAgeSec, driftPpm / 1000000.0 + s.offsetRateUncertainty;
    MovedWithin(rate, s.offsetRate, doubt, age);
    CarriedIs(s, now, driftPpm, truth, rate);
    hide Times;
    WithinAfter(s.offsetSec, s.dispersionSec, truth, Times(s.offsetRate, age), Times(rate, age), Times(age, doubt));
    hide CandidateOf;
  }

  lemma CarriedIs(s: Snapshot, now: real, driftPpm: real, truth: real, rate: real)
    requires s.offsetAgeSec == now - s.offsetAtSec
    ensures
      var k, age := CandidateOf(s, now, driftPpm), s.offsetAgeSec;
      && k.offset == s.offsetSec + Times(s.offsetRate, age)
      && k.dist == s.dispersionSec + Times(age, driftPpm / 1000000.0 + s.offsetRateUncertainty)
      && truth + rate * (now - s.offsetAtSec) == truth + Times(rate, age)
  {
  }

  lemma MovedWithin(rate: real, measured: real, doubt: real, age: real)
    requires age >= 0.0 && -doubt <= rate - measured <= doubt
    ensures -Times(age, doubt) <= Times(rate, age) - Times(measured, age) <= Times(age, doubt)
  {
    ScaledWithin(rate - measured, doubt, age);
    Distribute(age, rate, measured);
  }

  lemma WithinAfter(offset: real, dispersion: real, truth: real, carried: real, moved: real, spread: real)
    requires -dispersion <= truth - offset <= dispersion && -spread <= moved - carried <= spread
    ensures offset + carried - (dispersion + spread) <= truth + moved <= offset + carried + (dispersion + spread)
  {
  }

  lemma ScaledWithin(x: real, bound: real, age: real)
    requires age >= 0.0 && -bound <= x <= bound
    ensures -(age * bound) <= x * age <= age * bound
  {
    Ordered(age, x, bound);
    Ordered(age, -bound, x);
  }

  lemma PerSquarePositive(w: real, q: real)
    requires w > 0.0 && q > 0.0
    ensures PerSquare(w, q) > 0.0
  {
    assert q * q > 0.0;
  }

  lemma SharePositive(k: Candidate)
    requires Sound(k)
    ensures k.Share() > 0.0
  {
    PerSquarePositive(k.weight, k.quality);
  }

  lemma MoreForLess(w: real, w': real, q: real, q': real)
    requires w >= w' > 0.0 && 0.0 < q <= q'
    ensures PerSquare(w, q) >= PerSquare(w', q')
    ensures w > w' || q < q' ==> PerSquare(w, q) > PerSquare(w', q')
  {
    var a, b := PerSquare(w, q), PerSquare(w', q');
    assert q * q > 0.0 && q' * q' > 0.0;
    assert a * (q * q) == w && b * (q' * q') == w';
    PerSquarePositive(w', q');
    Ordered(q, q, q');
    Ordered(q', q, q');
    Ordered(b, q * q, q' * q');
    assert w' == b * (q' * q') >= b * (q * q);
    if b > a {
      Ordered(q * q, a, b);
    }
  }

  lemma StalenessGrows(age: real, age': real, doubt: real, doubt': real)
    requires 0.0 <= age <= age' && 0.0 <= doubt <= doubt'
    ensures age * doubt <= age' * doubt'
    ensures age < age' && doubt' > 0.0 ==> age * doubt < age' * doubt'
  {
    Ordered(age, doubt, doubt');
    Ordered(doubt', age, age');
    if age < age' && doubt' > 0.0 {
      NonNegativeProduct(age' - age, doubt');
      assert (age' - age) * doubt' > 0.0;
      Distribute(doubt', age', age);
    }
  }

  /** Whatever errors they claim: a source no lighter than another, by no wider a figure for its weight, and
      measured no longer ago with no more doubt of its rate, has no smaller a share; and a larger one if it is
      heavier, or its figure narrower, or it was measured later. */
  lemma TighterWeighsMore(s: Snapshot, u: Snapshot, now: real, driftPpm: real)
    requires Eligible(s) && Eligible(u) && Plausible(s) && Plausible(u) && driftPpm > 0.0
    requires s.weight >= u.weight > 0.0 && 0.0 < s.weightDispersionSec <= u.weightDispersionSec
    requires s.offsetAgeSec <= u.offsetAgeSec && s.offsetRateUncertainty <= u.offsetRateUncertainty
    ensures CandidateOf(s, now, driftPpm).Share() >= CandidateOf(u, now, driftPpm).Share()
    ensures s.weight > u.weight || s.weightDispersionSec < u.weightDispersionSec || s.offsetAgeSec < u.offsetAgeSec ==>
              CandidateOf(s, now, driftPpm).Share() > CandidateOf(u, now, driftPpm).Share()
  {
    CandidateIsSound(s, now, driftPpm);
    StalenessGrows(s.offsetAgeSec, u.offsetAgeSec, driftPpm / 1000000.0 + s.offsetRateUncertainty,
                   driftPpm / 1000000.0 + u.offsetRateUncertainty);
    MoreForLess(s.weight, u.weight, CandidateOf(s, now, driftPpm).quality, CandidateOf(u, now, driftPpm).quality);
  }
}
