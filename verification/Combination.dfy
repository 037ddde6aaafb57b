/** The weighted combine of the survivors (compare section 11.2.3 of RFC 5905), and what the error
    it claims is worth. */
module Combination {
  import opened Folds
  import opened Arithmetic
  import opened Candidates
  import opened WeightedMeans

  datatype ServingClass = Nobody | Primary | Secondary | Both | Coasting

  /** One pass's answer from the survivors. */
  datatype Answer = Answer(
    offset: real, dispersion: real, spread: real, newest: real,
    rate: real, rateMeasured: bool, rateUncertainty: real,
    stratum: int, rootDelay: real, rootDispersion: real, leapPending: bool, serving: ServingClass)

  const MAX_STRATUM := 15
  const UNMEASURED_AGE_SEC := 1000000000.0
  const MIN_RATE_DOUBT := 0.000000001

  // ---- weighted means ----------------------------------------------------------------------

  const ShareOf: Candidate -> real := (k: Candidate) => k.Share()
  const OffsetOf: Candidate -> real := (k: Candidate) => k.offset
  const DistOf: Candidate -> real := (k: Candidate) => k.dist
  const OwnPathOf: Candidate -> real := (k: Candidate) => Min(PathHalf(k), k.dist)

  /** Half of an upstream's path to its reference: what a client adds for the root delay. */
  function PathHalf(k: Candidate): real {
    if k.s.kind == Ntp then (k.s.rootDelaySec + k.s.delaySec) / 2.0 else 0.0
  }

  lemma Shares(s: seq<Candidate>)
    requires AllSound(s) && s != []
    ensures forall k :: k in s ==> ShareOf(k) > 0.0
    ensures Sum(s, ShareOf) > 0.0
  {
    forall k | k in s
      ensures ShareOf(k) > 0.0
    {
      assert Sound(k);
      SharePositive(k);
    }
    TotalPositive(s, ShareOf);
    assert s[0] in s;
  }

  method WeightedMean(s: seq<Candidate>, f: Candidate -> real) returns (m: real)
    requires Sum(s, ShareOf) > 0.0
    ensures m == Mean(s, ShareOf, f)
  {
    var sw, swx := 0.0, 0.0;
    for i := 0 to |s|
      invariant sw == Sum(s[..i], ShareOf) && swx == Sum(s[..i], Weighed(ShareOf, f))
    {
      Extend(s, i);
      sw, swx := sw + s[i].Share(), swx + s[i].Share() * f(s[i]);
    }
    assert s[..|s|] == s;
    m := swx / sw;
  }

  // ---- the parts of the answer ---------------------------------------------------------------

  /** The largest distance of a survivor from the combined offset. */
  ghost predicate IsSpread(s: seq<Candidate>, offset: real, spread: real) {
    && (forall k :: k in s ==> Abs(k.offset - offset) <= spread)
    && (exists k :: k in s && Abs(k.offset - offset) == spread)
  }

  method Spread(s: seq<Candidate>, offset: real) returns (spread: real)
    requires s != []
    ensures IsSpread(s, offset, spread)
  {
    spread := 0.0;
    for i := 0 to |s|
      invariant forall j :: 0 <= j < i ==> Abs(s[j].offset - offset) <= spread
      invariant if i == 0 then spread == 0.0 else exists j :: 0 <= j < i && Abs(s[j].offset - offset) == spread
    {
      spread := Max(spread, Abs(s[i].offset - offset));
    }
  }

  /** The least age among the survivors, or what stands for never if each is older still. */
  ghost predicate IsNewest(s: seq<Candidate>, newest: real) {
    && newest <= UNMEASURED_AGE_SEC
    && (forall k :: k in s ==> newest <= k.s.offsetAgeSec)
    && (newest == UNMEASURED_AGE_SEC || exists k :: k in s && k.s.offsetAgeSec == newest)
  }

  method Newest(s: seq<Candidate>) returns (newest: real)
    ensures IsNewest(s, newest)
  {
    newest := UNMEASURED_AGE_SEC;
    for i := 0 to |s|
      invariant newest <= UNMEASURED_AGE_SEC
      invariant forall j :: 0 <= j < i ==> newest <= s[j].s.offsetAgeSec
      invariant newest == UNMEASURED_AGE_SEC || exists j :: 0 <= j < i && s[j].s.offsetAgeSec == newest
    {
      newest := Min(newest, s[i].s.offsetAgeSec);
    }
  }

  function Clamp(x: int): int {
    if x < 1 then 1 else if x > MAX_STRATUM then MAX_STRATUM else x
  }

  /** The stratum is one below the best of the survivors' references: 1 next to a radio source. */
  ghost predicate IsStratum(s: seq<Candidate>, stratum: int) {
    && 1 <= stratum <= MAX_STRATUM
    && (forall k :: k in s ==> stratum <= if k.s.kind == Radio then 1 else Clamp(k.s.stratum + 1))
    && (exists k :: k in s && stratum == if k.s.kind == Radio then 1 else Clamp(k.s.stratum + 1))
  }

  predicate AnyRadio(s: seq<Candidate>) { exists k :: k in s && k.s.kind == Radio }

  method Stratum(s: seq<Candidate>) returns (stratum: int, anyRadio: bool)
    requires s != []
    requires forall k :: k in s ==> k.s.stratum >= 0
    ensures IsStratum(s, stratum)
    ensures anyRadio <==> AnyRadio(s)
  {
    var lowest := 16;
    anyRadio := false;
    for i := 0 to |s|
      invariant 0 <= lowest <= 16
      invariant anyRadio <==> exists j :: 0 <= j < i && s[j].s.kind == Radio
      invariant forall j :: 0 <= j < i ==> lowest <= if s[j].s.kind == Radio then 0 else s[j].s.stratum
      invariant lowest == 16 || exists j :: 0 <= j < i && lowest == if s[j].s.kind == Radio then 0 else s[j].s.stratum
    {
      if s[i].s.kind == Radio {
        lowest, anyRadio := 0, true;
      } else if s[i].s.stratum < lowest {
        lowest := s[i].s.stratum;
      }
    }
    stratum := Clamp(lowest + 1);
    if lowest == 16 {
      assert s[0] in s;
    }
  }

  /** The first of the survivors with the least uncertainty of their own. */
  ghost predicate IsTightest(s: seq<Candidate>, k: Candidate) {
    exists i :: 0 <= i < |s| && s[i] == k && Leads(s, i)
  }

  ghost predicate Leads(s: seq<Candidate>, i: nat)
    requires i < |s|
  {
    && (forall j :: 0 <= j < i ==> s[i].quality < s[j].quality)
    && (forall j :: i <= j < |s| ==> s[i].quality <= s[j].quality)
  }

  method Tightest(s: seq<Candidate>) returns (k: Candidate)
    requires s != []
    ensures IsTightest(s, k)
  {
    k := s[0];
    ghost var first := 0;
    for i := 0 to |s|
      invariant 0 <= first < |s| && s[first] == k && (first < i || first == i == 0)
      invariant forall j :: 0 <= j < first ==> k.quality < s[j].quality
      invariant forall j :: first <= j < i ==> k.quality <= s[j].quality
    {
      if s[i].quality < k.quality {
        k := s[i];
        first := i;
      }
    }
    assert Leads(s, first);
  }

  // ---- the rate --------------------------------------------------------------------------------

  function RateDoubt(k: Candidate): real { Max(k.s.offsetRateUncertainty, MIN_RATE_DOUBT) }

  const RateShareOf: Candidate -> real :=
    (k: Candidate) => if k.s.offsetRateMeasured then 1.0 / (RateDoubt(k) * RateDoubt(k)) else 0.0
  const RateOf: Candidate -> real := (k: Candidate) => k.s.offsetRate

  predicate AnyRate(s: seq<Candidate>) {
    exists k :: k in s && k.s.offsetRateMeasured
  }

  lemma RateShare(k: Candidate)
    ensures RateDoubt(k) * RateDoubt(k) > 0.0
    ensures k.s.offsetRateMeasured ==> k.s.offsetRate / (RateDoubt(k) * RateDoubt(k)) == RateShareOf(k) * k.s.offsetRate
    ensures RateShareOf(k) >= 0.0 && (RateShareOf(k) > 0.0 <==> k.s.offsetRateMeasured)
  {
    var u := RateDoubt(k) * RateDoubt(k);
    assert u > 0.0;
    assert (1.0 / u) * k.s.offsetRate == k.s.offsetRate / u;
  }

  lemma RateShares(s: seq<Candidate>)
    ensures forall k :: k in s ==> RateShareOf(k) >= 0.0 && (RateShareOf(k) > 0.0 <==> k.s.offsetRateMeasured)
    ensures Sum(s, RateShareOf) > 0.0 <==> AnyRate(s)
  {
    forall k | k in s
      ensures RateShareOf(k) >= 0.0 && (RateShareOf(k) > 0.0 <==> k.s.offsetRateMeasured)
    {
      RateShare(k);
    }
    TotalPositive(s, RateShareOf);
  }

  /** What the measured rates say together: their mean, by how well each is known. */
  function MeanRate(s: seq<Candidate>): real {
    RateShares(s);
    if AnyRate(s) then Mean(s, RateShareOf, RateOf) else 0.0
  }

  /** The served rate never leaves the range of the measured ones. */
  lemma RateInHull(s: seq<Candidate>, lo: real, hi: real)
    requires AnyRate(s)
    requires forall k :: k in s && k.s.offsetRateMeasured ==> lo <= k.s.offsetRate <= hi
    ensures lo <= MeanRate(s) <= hi
  {
    RateShares(s);
    MeanInHull(s, RateShareOf, RateOf, lo, hi);
  }

  /** The largest distance of a measured rate from the served one. */
  ghost predicate IsRateSpread(s: seq<Candidate>, rate: real, spread: real) {
    && (forall k :: k in s && k.s.offsetRateMeasured ==> Abs(k.s.offsetRate - rate) <= spread)
    && (exists k :: k in s && k.s.offsetRateMeasured && Abs(k.s.offsetRate - rate) == spread)
  }

  /** The most that any survivor doubts its rate. */
  ghost predicate IsRateBound(s: seq<Candidate>, bound: real) {
    && bound >= 0.0 && (forall k :: k in s ==> k.s.offsetRateUncertainty <= bound)
    && (bound == 0.0 || exists k :: k in s && k.s.offsetRateUncertainty == bound)
  }

  ghost predicate IsRootOf(root: real, x: real) {
    root > 0.0 && root * root == x
  }

  /** The doubt in the served rate: what the weights leave or what the measured rates show, whichever is
      larger; and with none measured, the most that any survivor doubts its own. */
  ghost predicate IsRateDoubt(s: seq<Candidate>, rate: real, doubt: real) {
    if AnyRate(s) then
      exists root, spread :: IsRootOf(root, Sum(s, RateShareOf)) && IsRateSpread(s, rate, spread) && doubt == Max(1.0 / root, spread)
    else
      IsRateBound(s, doubt)
  }

  /** What a measured rate adds to the two totals; one that is not measured adds nothing. */
  method RateTerms(k: Candidate) returns (w: real, wx: real)
    requires k.s.offsetRateMeasured
    ensures w == RateShareOf(k) && wx == Weighed(RateShareOf, RateOf)(k)
  {
    var u := RateDoubt(k);
    RateShare(k);
    w, wx := 1.0 / (u * u), k.s.offsetRate / (u * u);
  }

  lemma TotalsNext(s: seq<Candidate>, i: nat)
    requires i < |s|
    ensures Sum(s[..i + 1], RateShareOf)
            == Sum(s[..i], RateShareOf) + (if s[i].s.offsetRateMeasured then RateShareOf(s[i]) else 0.0)
    ensures Sum(s[..i + 1], Weighed(RateShareOf, RateOf))
            == Sum(s[..i], Weighed(RateShareOf, RateOf))
               + (if s[i].s.offsetRateMeasured then Weighed(RateShareOf, RateOf)(s[i]) else 0.0)
  {
    Extend(s, i);
  }

  method RateTotals(s: seq<Candidate>) returns (rw: real, rwx: real, bound: real)
    ensures rw == Sum(s, RateShareOf) && rwx == Sum(s, Weighed(RateShareOf, RateOf))
    ensures IsRateBound(s, bound)
  {
    rw, rwx, bound := 0.0, 0.0, 0.0;
    assert Sum(s[..0], RateShareOf) == Sum(s[..0], Weighed(RateShareOf, RateOf)) == 0.0;
    hide Sum;
    for i := 0 to |s|
      invariant rw == Sum(s[..i], RateShareOf) && rwx == Sum(s[..i], Weighed(RateShareOf, RateOf))
      invariant bound >= 0.0 && forall j :: 0 <= j < i ==> s[j].s.offsetRateUncertainty <= bound
      invariant bound == 0.0 || exists j :: 0 <= j < i && s[j].s.offsetRateUncertainty == bound
    {
      TotalsNext(s, i);
      bound := Max(bound, s[i].s.offsetRateUncertainty);
      if s[i].s.offsetRateMeasured {
        var w, wx := RateTerms(s[i]);
        rw, rwx := rw + w, rwx + wx;
      }
    }
    assert s[..|s|] == s;
  }

  method RateSpread(s: seq<Candidate>, rate: real) returns (spread: real)
    ensures if AnyRate(s) then IsRateSpread(s, rate, spread) else spread == 0.0
  {
    spread := 0.0;
    for i := 0 to |s|
      invariant spread >= 0.0
      invariant forall j :: 0 <= j < i && s[j].s.offsetRateMeasured ==> Abs(s[j].s.offsetRate - rate) <= spread
      invariant if exists j :: 0 <= j < i && s[j].s.offsetRateMeasured
                then exists j :: 0 <= j < i && s[j].s.offsetRateMeasured && Abs(s[j].s.offsetRate - rate) == spread
                else spread == 0.0
    {
      if s[i].s.offsetRateMeasured {
        spread := Max(spread, Abs(s[i].s.offsetRate - rate));
      }
    }
  }

  lemma RootNotZero(sqrt: real -> real, x: real)
    requires IsSquareRoot(sqrt) && x > 0.0
    ensures sqrt(x) > 0.0
  {
    assert sqrt(x) * sqrt(x) == x;
  }

  method Rate(s: seq<Candidate>, sqrt: real -> real) returns (rate: real, measured: bool, uncertainty: real)
    requires IsSquareRoot(sqrt)
    ensures measured <==> AnyRate(s)
    ensures rate == MeanRate(s)
    ensures IsRateDoubt(s, rate, uncertainty)
  {
    var rw, rwx, bound := RateTotals(s);
    RateShares(s);
    measured := rw > 0.0;
    rate := if measured then rwx / rw else 0.0;
    var spread := RateSpread(s, rate);
    if measured {
      RootNotZero(sqrt, rw);
      assert IsRootOf(sqrt(rw), rw);
      uncertainty := Max(1.0 / sqrt(rw), spread);
    } else {
      uncertainty := bound;
    }
  }

  method Classes(s: seq<Candidate>) returns (serving: ServingClass, leap: bool)
    requires s != []
    ensures serving == ClassOf(s)
    ensures leap <==> forall k :: k in s ==> k.s.leapPending
  {
    var anyPrimary, anySecondary := false, false;
    leap := true;
    for i := 0 to |s|
      invariant anyPrimary <==> exists j :: 0 <= j < i && s[j].primary
      invariant anySecondary <==> exists j :: 0 <= j < i && !s[j].primary
      invariant leap <==> forall j :: 0 <= j < i ==> s[j].s.leapPending
    {
      if s[i].primary {
        anyPrimary := true;
      } else {
        anySecondary := true;
      }
      if !s[i].s.leapPending {
        leap := false;
      }
    }
    serving := if anyPrimary && anySecondary then Both else if anyPrimary then Primary else Secondary;
  }

  predicate AnyPrimary(s: seq<Candidate>) { exists k :: k in s && k.primary }
  predicate AnySecondary(s: seq<Candidate>) { exists k :: k in s && !k.primary }

  function ClassOf(s: seq<Candidate>): ServingClass {
    if AnyPrimary(s) then if AnySecondary(s) then Both else Primary else Secondary
  }

  // ---- the whole answer --------------------------------------------------------------------------

  /** Root delay and root dispersion: none and the whole claim with a radio source in the set, else
      the tightest upstream's path and the claim less the half of it a client adds back. */
  ghost predicate IsRoot(s: seq<Candidate>, dispersion: real, rootDelay: real, rootDispersion: real)
    requires AllSound(s) && s != []
  {
    Shares(s);
    if AnyRadio(s) then rootDelay == 0.0 && rootDispersion == dispersion
    else
      && (exists k :: IsTightest(s, k) && rootDelay == k.s.rootDelaySec + k.s.delaySec)
      && rootDispersion == Max(dispersion - rootDelay / 2.0, dispersion - Mean(s, ShareOf, OwnPathOf))
  }

  method Root(s: seq<Candidate>, dispersion: real, anyRadio: bool) returns (rootDelay: real, rootDispersion: real)
    requires AllSound(s) && s != [] && (anyRadio <==> AnyRadio(s))
    ensures IsRoot(s, dispersion, rootDelay, rootDispersion)
  {
    Shares(s);
    hide Sum, AllSound, IsTightest, AnyRadio;
    var path := WeightedMean(s, OwnPathOf);
    var tightest := Tightest(s);
    if anyRadio {
      rootDelay, rootDispersion := 0.0, dispersion;
    } else {
      rootDelay := tightest.s.rootDelaySec + tightest.s.delaySec;
      rootDispersion := Max(dispersion - rootDelay / 2.0, dispersion - path);
    }
  }

  /** What the combine makes of the survivors. */
  ghost predicate IsAnswer(s: seq<Candidate>, a: Answer)
    requires AllSound(s) && s != []
  {
    Shares(s);
    && a.offset == Mean(s, ShareOf, OffsetOf)
    && IsSpread(s, a.offset, a.spread)
    && a.dispersion == Mean(s, ShareOf, DistOf) + a.spread
    && (a.rateMeasured <==> AnyRate(s)) && a.rate == MeanRate(s) && IsRateDoubt(s, a.rate, a.rateUncertainty)
    && IsStratum(s, a.stratum)
    && IsRoot(s, a.dispersion, a.rootDelay, a.rootDispersion)
    && (a.leapPending <==> forall k :: k in s ==> k.s.leapPending)
    && a.serving == ClassOf(s)
    && IsNewest(s, a.newest)
  }

  method Combine(s: seq<Candidate>, sqrt: real -> real) returns (a: Answer)
    requires IsSquareRoot(sqrt)
    requires AllSound(s) && s != []
    requires forall k :: k in s ==> k.s.stratum >= 0
    ensures IsAnswer(s, a)
  {
    Shares(s);
    hide Mean, Sum, AllSound, IsSpread, IsNewest, IsRateDoubt, IsRoot, IsStratum, MeanRate, AnyRate, AnyRadio, ClassOf, IsSquareRoot;
    var offset := WeightedMean(s, OffsetOf);
    var spread := Spread(s, offset);
    var dist := WeightedMean(s, DistOf);
    var dispersion := dist + spread;
    var newest := Newest(s);
    var rate, measured, uncertainty := Rate(s, sqrt);
    var stratum, anyRadio := Stratum(s);
    var serving, leap := Classes(s);
    var rootDelay, rootDispersion := Root(s, dispersion, anyRadio);
    a := Answer(offset, dispersion, spread, newest, rate, measured, uncertainty,
                stratum, rootDelay, rootDispersion, leap, serving);
  }

  // ---- what the claimed error is worth -----------------------------------------------------------

  /** A point every survivor's interval contains is inside the claimed error, and not only by the
      spread: so the true offset is, whenever every survivor holds it. */
  lemma ClaimContainsCommonPoint(s: seq<Candidate>, a: Answer, t: real)
    requires AllSound(s) && s != [] && IsAnswer(s, a)
    requires forall k :: k in s ==> k.Touches(t)
    ensures Abs(a.offset - t) <= a.dispersion - a.spread <= a.dispersion
  {
    Shares(s);
    assert forall k :: k in s ==> -DistOf(k) <= OffsetOf(k) - t <= DistOf(k);
    MeanWithin(s, ShareOf, OffsetOf, DistOf, t);
  }

  /** One survivor that holds the true offset bounds the error of the whole answer. */
  lemma OneHonestSurvivor(s: seq<Candidate>, a: Answer, k: Candidate, t: real)
    requires AllSound(s) && s != [] && IsAnswer(s, a)
    requires k in s && k.Touches(t)
    ensures Abs(a.offset - t) <= a.spread + k.dist
  {
  }

  function Over(w: real, y: real, q: real): real {
    if q == 0.0 then 0.0 else w * y / (q * q)
  }

  /** How much a set of survivors disagrees with an offset, the square of each distance counting by the
      weight of the source, and the less the less well it is measured. */
  function Disagreement(x: real): Candidate -> real {
    (k: Candidate) => Over(k.weight, Square(x - k.offset), k.quality)
  }

  /** Of all offsets the one served is disagreed with least. */
  lemma OffsetIsLeastSquares(s: seq<Candidate>, a: Answer, x: real)
    requires AllSound(s) && s != [] && IsAnswer(s, a)
    ensures Sum(s, Disagreement(a.offset)) <= Sum(s, Disagreement(x))
    ensures Sum(s, Disagreement(x)) == Sum(s, Disagreement(a.offset)) ==> x == a.offset
  {
    Shares(s);
    DisagreementIs(s, x);
    DisagreementIs(s, a.offset);
    MeanIsLeast(s, ShareOf, OffsetOf, x);
    hide Sum, Mean, SquaresFrom;
  }

  lemma DisagreementIs(s: seq<Candidate>, x: real)
    ensures Sum(s, Disagreement(x)) == SquaresFrom(s, ShareOf, OffsetOf, x)
  {
    forall k | k in s
      ensures Disagreement(x)(k) == 1.0 * Weighed(ShareOf, SquareOff(OffsetOf, x))(k)
    {
      OneDisagrees(k, x);
    }
    hide Sum, Disagreement;
    SumScale(s, 1.0, Weighed(ShareOf, SquareOff(OffsetOf, x)), Disagreement(x));
  }

  lemma OneDisagrees(k: Candidate, x: real)
    ensures Disagreement(x)(k) == k.Share() * Square(x - k.offset)
  {
    hide Square, Over, PerSquare;
    SharedOut(k.weight, k.quality, Square(x - k.offset));
  }

  lemma SharedOut(w: real, q: real, y: real)
    ensures Over(w, y, q) == Times(PerSquare(w, q), y)
  {
    if q != 0.0 {
      SquareNonNegative(q);
      var s, p, r := q * q, Over(w, y, q), PerSquare(w, q);
      assert Square(q) == s > 0.0;
      assert p == w * y / s && r == w / s;
      assert p * s == w * y && r * s == w;
      hide Over, PerSquare, Square;
      SameQuotient(p, r, s, w, y);
    }
  }

  lemma SameQuotient(p: real, r: real, s: real, w: real, y: real)
    requires s > 0.0 && p * s == w * y && r * s == w
    ensures p == Times(r, y)
  {
    assert (p - r * y) * s == 0.0;
    ProductSign(p - r * y, s);
    ProductSign(r * y - p, s);
  }

  lemma Shared(w: real, q: real, y: real)
    requires q > 0.0
    ensures w * y / q == w / q * y
  {
  }

  /** And of all rates the one served, each measured one counting by how well it is known. */
  function RateDisagreement(x: real): Candidate -> real {
    (k: Candidate) =>
      var u := Max(k.s.offsetRateUncertainty, 0.000000001);
      if k.s.offsetRateMeasured && u != 0.0 then Square(x - k.s.offsetRate) / (u * u) else 0.0
  }

  lemma RateIsLeastSquares(s: seq<Candidate>, a: Answer, x: real)
    requires AllSound(s) && s != [] && IsAnswer(s, a) && a.rateMeasured
    ensures Sum(s, RateDisagreement(a.rate)) <= Sum(s, RateDisagreement(x))
    ensures Sum(s, RateDisagreement(x)) == Sum(s, RateDisagreement(a.rate)) ==> x == a.rate
  {
    RateShares(s);
    RateDisagreementIs(s, x);
    RateDisagreementIs(s, a.rate);
    MeanIsLeast(s, RateShareOf, RateOf, x);
    hide Sum, Mean, SquaresFrom;
  }

  lemma RateDisagreementIs(s: seq<Candidate>, x: real)
    ensures Sum(s, RateDisagreement(x)) == SquaresFrom(s, RateShareOf, RateOf, x)
  {
    forall k | k in s
      ensures RateDisagreement(x)(k) == 1.0 * Weighed(RateShareOf, SquareOff(RateOf, x))(k)
    {
      OneRateDisagrees(k, x);
    }
    hide Sum, RateDisagreement;
    SumScale(s, 1.0, Weighed(RateShareOf, SquareOff(RateOf, x)), RateDisagreement(x));
  }

  lemma OneRateDisagrees(k: Candidate, x: real)
    ensures RateDisagreement(x)(k) == RateShareOf(k) * Square(x - k.s.offsetRate)
  {
    hide Square;
    if k.s.offsetRateMeasured {
      RateShare(k);
      Shared(1.0, RateDoubt(k) * RateDoubt(k), Square(x - k.s.offsetRate));
    }
  }

  /** The answer is never outside the range of the survivors' offsets. */
  lemma OffsetInHull(s: seq<Candidate>, a: Answer, lo: real, hi: real)
    requires AllSound(s) && s != [] && IsAnswer(s, a)
    requires forall k :: k in s ==> lo <= k.offset <= hi
    ensures lo <= a.offset <= hi
  {
    Shares(s);
    MeanInHull(s, ShareOf, OffsetOf, lo, hi);
  }

  /** What a client makes of the two fields it is sent, root delay halved plus root dispersion, is
      never less than the error claimed; and root dispersion is never below the spread. */
  lemma RootDistanceCovers(s: seq<Candidate>, a: Answer)
    requires AllSound(s) && s != [] && IsAnswer(s, a)
    ensures a.rootDispersion + a.rootDelay / 2.0 >= a.dispersion
    ensures a.rootDispersion >= a.spread >= 0.0
    ensures a.dispersion >= a.spread && a.rateUncertainty >= 0.0
  {
    Shares(s);
    hide Mean, Sum, IsNewest, IsStratum, MeanRate, ClassOf;
    assert forall k :: k in s ==> Sound(k);
    MeanOrdered(s, ShareOf, OwnPathOf, DistOf);
    MeanInHull(s, ShareOf, DistOf, 0.0, Largest(s));
    RateDoubtCovers(s, a.rate, a.rateUncertainty);
  }

  /** And no more is made of them than that, beyond what half the root delay exceeds the shortest of the
      survivors' own paths by. */
  lemma RootDistanceClaims(s: seq<Candidate>, a: Answer, path: real)
    requires AllSound(s) && s != [] && IsAnswer(s, a)
    requires forall k :: k in s ==> path <= k.dist && path <= if k.s.kind == Ntp then (k.s.rootDelaySec + k.s.delaySec) / 2.0 else 0.0
    ensures
      var distance := a.rootDispersion + a.rootDelay / 2.0;
      if AnyRadio(s) then a.rootDelay == 0.0 && distance == a.dispersion
      else distance <= Max(a.dispersion, a.dispersion + a.rootDelay / 2.0 - path)
  {
    Shares(s);
    hide Mean, Sum, IsNewest, IsStratum, IsSpread, IsRateDoubt, IsTightest, MeanRate, ClassOf;
    MeanInHull(s, ShareOf, OwnPathOf, path, Largest(s));
  }

  lemma LoneMean(k: Candidate, w: Candidate -> real, f: Candidate -> real)
    requires w(k) > 0.0
    ensures Sum([k], w) == w(k) && Mean([k], w, f) == f(k)
  {
    SumOne([], k, w);
    assert [] + [k] == [k];
    MeanInHull([k], w, f, f(k), f(k));
  }

  lemma InverseRoot(root: real, u: real)
    requires root > 0.0 && u > 0.0 && root * root == 1.0 / (u * u)
    ensures 1.0 / root == u
  {
    var p, r2, u2 := root * u, root * root, u * u;
    assert u2 > 0.0 && 1.0 / u2 * u2 == 1.0;
    assert p * p == r2 * u2;
    assert (p - 1.0) * (p + 1.0) == p * p - 1.0 == 0.0;
    assert p > 0.0;
    ProductSign(p - 1.0, p + 1.0);
    ProductSign(1.0 - p, p + 1.0);
    assert root * u == 1.0;
    QuotientOf(u, root);
  }

  lemma LoneRateDoubt(k: Candidate, rate: real, doubt: real)
    requires k.s.offsetRateUncertainty >= 0.0 && rate == MeanRate([k]) && IsRateDoubt([k], rate, doubt)
    ensures rate == if k.s.offsetRateMeasured then k.s.offsetRate else 0.0
    ensures doubt == if k.s.offsetRateMeasured then RateDoubt(k) else k.s.offsetRateUncertainty
  {
    assert k in [k];
    if k.s.offsetRateMeasured {
      RateShare(k);
      LoneMean(k, RateShareOf, RateOf);
      hide Sum, Mean;
      var root, spread :| IsRootOf(root, Sum([k], RateShareOf)) && IsRateSpread([k], rate, spread) && doubt == Max(1.0 / root, spread);
      InverseRoot(root, RateDoubt(k));
    }
  }

  /** A source that is left alone is served as it is. */
  lemma LoneSurvivor(k: Candidate, a: Answer)
    requires AllSound([k]) && IsAnswer([k], a)
    ensures a.offset == k.offset && a.spread == 0.0 && a.dispersion == k.dist
    ensures a.rateMeasured == k.s.offsetRateMeasured && a.rate == if a.rateMeasured then k.s.offsetRate else 0.0
    ensures a.rateUncertainty == if a.rateMeasured then Max(k.s.offsetRateUncertainty, 0.000000001) else k.s.offsetRateUncertainty
    ensures if k.s.kind == Radio then a.stratum == 1 && a.rootDelay == 0.0 && a.rootDispersion == k.dist
            else
              && a.stratum == Clamp(k.s.stratum + 1) && a.rootDelay == k.s.rootDelaySec + k.s.delaySec
              && a.rootDispersion + a.rootDelay / 2.0 == Max(k.dist, a.rootDelay / 2.0)
    ensures a.leapPending == k.s.leapPending && a.serving == if k.primary then Primary else Secondary
    ensures a.newest == Min(k.s.offsetAgeSec, UNMEASURED_AGE_SEC)
  {
    Shares([k]);
    assert k in [k] && Sound(k);
    LoneMean(k, ShareOf, OffsetOf);
    LoneMean(k, ShareOf, DistOf);
    LoneMean(k, ShareOf, OwnPathOf);
    hide Sum, Mean;
    LoneRateDoubt(k, a.rate, a.rateUncertainty);
  }

  /** The doubt in the rate is no less than how far any measured rate is from the one served. */
  lemma RateDoubtCovers(s: seq<Candidate>, rate: real, doubt: real)
    requires IsRateDoubt(s, rate, doubt)
    ensures doubt >= 0.0
    ensures forall k :: k in s && k.s.offsetRateMeasured ==> Abs(k.s.offsetRate - rate) <= doubt
  {
    hide Sum;
    if AnyRate(s) {
      var root, spread :| IsRootOf(root, Sum(s, RateShareOf)) && IsRateSpread(s, rate, spread) && doubt == Max(1.0 / root, spread);
      assert spread >= 0.0;
    }
  }

  ghost function Largest(s: seq<Candidate>): (m: real)
    ensures forall k :: k in s ==> k.dist <= m
  {
    if s == [] then 0.0
    else
      var init := s[..|s| - 1];
      assert s == init + [s[|s| - 1]];
      Max(Largest(init), s[|s| - 1].dist)
  }
}
