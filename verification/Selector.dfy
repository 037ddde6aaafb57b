/** The selector: one pass over every source's snapshot, turned into one served time. */
module Selector {
  import opened Folds
  import opened Candidates
  import opened Combination
  import Medians
  import Agreement
  import Failover
  import Intersection
  import Arithmetic

  /** What one pass makes of the sources. */
  datatype Combined = Combined(
    valid: bool, synchronised: bool,
    offsetSec: real, atSec: real, rate: real, rateUncertainty: real, rateMeasured: bool,
    dispersionSec: real, rootDispersionSec: real, rootDelaySec: real, stratum: int,
    ageSec: real, serving: ServingClass, leapPending: bool)
  {
    /** The UTC it gives at an instant of the daemon clock. */
    function UtcAt(daemonSec: real): real {
      daemonSec + offsetSec + rate * (daemonSec - atSec)
    }

    /** What a client takes the distance to be: half the root delay plus the root dispersion. */
    function RootDistance(): real {
      rootDelaySec / 2.0 + rootDispersionSec
    }
  }

  const Nothing := Combined(false, false, 0.0, 0.0, 0.0, 0.0, false, 0.0, 0.0, 0.0, 16, 0.0, Nobody, false)

  // ---- the last good answer -----------------------------------------------------------------------

  /** The last good answer, and what is needed to carry it on. */
  datatype Good = Good(
    offset: real, rate: real, rateUncertainty: real, rateMeasured: bool,
    dispersion: real, rootDispersion: real, rootDelay: real, stratum: int, at: real, measuredAt: real)
  {
    /** UTC by it, on the assumption that the daemon clock keeps the rate it was measured at. */
    function UtcAt(daemonSec: real): real {
      daemonSec + offset + rate * (daemonSec - at)
    }

    /** How much doubt the drift of an undisciplined clock, and of the rate, adds over so long. */
    function Growth(age: real, driftPpm: real): real { age * (driftPpm / 1000000.0 + rateUncertainty) }

    /** Carried on to `now`: it is given however old it is, but past the coast limit not as synchronised. */
    function Coasted(now: real, driftPpm: real, coastSeconds: real): Combined {
      var age := now - at;
      var growth := Growth(age, driftPpm);
      Combined(true, age <= coastSeconds, offset + rate * age, now, rate, rateUncertainty, rateMeasured,
               dispersion + growth, rootDispersion + growth, rootDelay, stratum, now - measuredAt, Coasting, false)
    }

    predicate Honest() {
      rateUncertainty >= 0.0 && dispersion >= 0.0 && rootDelay / 2.0 + rootDispersion >= dispersion
    }
  }

  function GoodOf(a: Answer, now: real): Good {
    Good(a.offset, a.rate, a.rateUncertainty, a.rateMeasured, a.dispersion, a.rootDispersion,
         a.rootDelay, a.stratum, now, now - a.newest)
  }

  function Answered(a: Answer, now: real): Combined {
    Combined(true, true, a.offset, now, a.rate, a.rateUncertainty, a.rateMeasured,
             a.dispersion, a.rootDispersion, a.rootDelay, a.stratum, a.newest, a.serving, a.leapPending)
  }

  /** The offset being served, carried to `now`: what a tie is broken by. */
  function Reference(good: Option<Good>, now: real): Option<real> {
    match good
    case Some(g) => Some(g.offset + g.rate * (now - g.at))
    case None => None
  }

  function CoastedFrom(good: Option<Good>, now: real, driftPpm: real, coastSeconds: real, hostOffset: real): Combined {
    match good
    case Some(g) => g.Coasted(now, driftPpm, coastSeconds)
    case None => Nothing.(offsetSec := hostOffset, atSec := now)
  }

  /** What was last served: nothing, or the clock of the last good answer, with an error no smaller than
      was claimed then, and with what a client makes of the two root fields covering that error. */
  ghost predicate Served(good: Option<Good>, c: Combined) {
    match good
    case None => !c.valid
    case Some(g) =>
      && g.Honest() && c.valid
      && (forall d :: c.UtcAt(d) == g.UtcAt(d))
      && c.RootDistance() >= c.dispersionSec >= g.dispersion
      && c.rootDelaySec == g.rootDelay && c.stratum == g.stratum
  }

  lemma HonestGood(a: Answer, now: real)
    requires a.rateUncertainty >= 0.0 && a.rootDispersion + a.rootDelay / 2.0 >= a.dispersion >= 0.0
    ensures Served(Some(GoodOf(a, now)), Answered(a, now))
  {
  }

  lemma HonestAnswer(s: seq<Candidate>, a: Answer, now: real)
    requires AllSound(s) && s != [] && IsAnswer(s, a)
    ensures GoodOf(a, now).at == now
    ensures Served(Some(GoodOf(a, now)), Answered(a, now))
  {
    hide IsAnswer, Served;
    RootDistanceCovers(s, a);
    HonestGood(a, now);
  }

  /** While coasting, the served clock is the same function of daemon time as at the last good pass. */
  lemma CoastingKeepsTheClock(g: Good, now: real, driftPpm: real, coastSeconds: real, d: real)
    ensures g.Coasted(now, driftPpm, coastSeconds).UtcAt(d) == g.UtcAt(d)
  {
    Arithmetic.Distribute(g.rate, now, g.at);
    Arithmetic.Distribute(g.rate, d, now);
    Arithmetic.Distribute(g.rate, d, g.at);
  }

  lemma CoastStaysHonest(good: Option<Good>, last: Combined, now: real, driftPpm: real, coastSeconds: real, hostOffset: real)
    requires driftPpm >= 0.0 && Served(good, last) && (good.Some? ==> good.value.at <= now)
    ensures Served(good, CoastedFrom(good, now, driftPpm, coastSeconds, hostOffset))
  {
    if good.Some? {
      var g := good.value;
      Arithmetic.NonNegativeProduct(now - g.at, driftPpm / 1000000.0 + g.rateUncertainty);
      forall d
        ensures g.Coasted(now, driftPpm, coastSeconds).UtcAt(d) == g.UtcAt(d)
      {
        CoastingKeepsTheClock(g, now, driftPpm, coastSeconds, d);
      }
    }
  }

  /** If the last good answer's error was no more than it claimed, and the offset has moved since at a rate
      no further from the one served than its doubt and the drift allowed, the error while coasting is no
      more than is claimed then; and past the coast limit it is no longer served as synchronised. */
  lemma CoastHoldsTheTruth(g: Good, now: real, driftPpm: real, coastSeconds: real, truth: real, rate: real)
    requires g.at <= now && Abs(truth - g.offset) <= g.dispersion
    requires Abs(rate - g.rate) <= driftPpm / 1000000.0 + g.rateUncertainty
    ensures
      var c := g.Coasted(now, driftPpm, coastSeconds);
      && Abs(truth + rate * (now - g.at) - c.offsetSec) <= c.dispersionSec
      && (c.synchronised <==> now - g.at <= coastSeconds)
  {
    var age, doubt := now - g.at, driftPpm / 1000000.0 + g.rateUncertainty;
    MovedWithin(rate, g.rate, doubt, age);
    CoastIs(g, now, driftPpm, coastSeconds, rate);
    hide Arithmetic.Times;
    WithinAfter(g.offset, g.dispersion, truth, Arithmetic.Times(g.rate, age), Arithmetic.Times(rate, age),
                Arithmetic.Times(age, doubt));
  }

  lemma CoastIs(g: Good, now: real, driftPpm: real, coastSeconds: real, rate: real)
    ensures
      var c, age := g.Coasted(now, driftPpm, coastSeconds), now - g.at;
      && c.offsetSec == g.offset + Arithmetic.Times(g.rate, age) && rate * (now - g.at) == Arithmetic.Times(rate, age)
      && c.dispersionSec == g.dispersion + Arithmetic.Times(age, driftPpm / 1000000.0 + g.rateUncertainty)
  {
  }

  /** The age of what is served goes on from where it was, and what it says of itself stays as it was, but
      that it gives no warning of a leap. */
  lemma CoastingGoesOn(a: Answer, at: real, now: real, driftPpm: real, coastSeconds: real)
    ensures
      var c, was := GoodOf(a, at).Coasted(now, driftPpm, coastSeconds), Answered(a, at);
      && c.ageSec == was.ageSec + (now - was.atSec)
      && c.rate == was.rate && c.rateMeasured == was.rateMeasured && c.rateUncertainty == was.rateUncertainty
      && c.stratum == was.stratum && c.rootDelaySec == was.rootDelaySec && c.serving == Coasting && !c.leapPending
  {
  }

  /** A tie is broken by the offset that the last good answer serves at that instant. */
  lemma ReferenceIsServed(good: Option<Good>, c: Combined, now: real)
    requires Served(good, c)
    ensures Reference(good, now).Some? <==> c.valid
    ensures c.valid ==> now + Reference(good, now).value == c.UtcAt(now)
  {
    if good.Some? {
      assert c.UtcAt(now) == good.value.UtcAt(now);
    }
  }

  lemma GrowthGrows(g: Good, age: real, later: real, driftPpm: real)
    requires g.rateUncertainty >= 0.0 && driftPpm >= 0.0 && 0.0 <= age <= later
    ensures 0.0 <= g.Growth(age, driftPpm) <= g.Growth(later, driftPpm)
  {
    var doubt := driftPpm / 1000000.0 + g.rateUncertainty;
    Arithmetic.NonNegativeProduct(age, doubt);
    Arithmetic.Ordered(doubt, age, later);
  }

  /** The error claimed while coasting never shrinks. */
  lemma CoastingDoubtGrows(g: Good, now: real, later: real, driftPpm: real, coastSeconds: real)
    requires g.Honest() && driftPpm >= 0.0 && g.at <= now <= later
    ensures g.dispersion <= g.Coasted(now, driftPpm, coastSeconds).dispersionSec
              <= g.Coasted(later, driftPpm, coastSeconds).dispersionSec
  {
    GrowthGrows(g, 0.0, now - g.at, driftPpm);
    GrowthGrows(g, now - g.at, later - g.at, driftPpm);
    hide Good.Growth;
  }

  // ---- the candidates -----------------------------------------------------------------------------

  predicate DistinctSnapshots(snaps: seq<Snapshot>) {
    forall i, j :: 0 <= i < j < |snaps| ==> snaps[i].name != snaps[j].name
  }

  predicate DistinctNames(cand: seq<Candidate>) {
    forall i, j :: 0 <= i < j < |cand| ==> cand[i].s.name != cand[j].s.name
  }

  /** The candidates of one class among the snapshots, in order. */
  function Gathered(snaps: seq<Snapshot>, now: real, driftPpm: real, primary: bool): (cand: seq<Candidate>)
    ensures forall k :: k in cand ==>
              k.s in snaps && Eligible(k.s) && k.primary == primary && k == CandidateOf(k.s, now, driftPpm)
  {
    if snaps == [] then []
    else
      var init, s := snaps[..|snaps| - 1], snaps[|snaps| - 1];
      assert snaps == init + [s];
      Gathered(init, now, driftPpm, primary)
      + if Eligible(s) && s.primaryClass == primary then [CandidateOf(s, now, driftPpm)] else []
  }

  lemma {:induction false} GatheredAll(snaps: seq<Snapshot>, now: real, driftPpm: real, primary: bool, s: Snapshot)
    requires s in snaps && Eligible(s) && s.primaryClass == primary
    ensures CandidateOf(s, now, driftPpm) in Gathered(snaps, now, driftPpm, primary)
  {
    var init, last := snaps[..|snaps| - 1], snaps[|snaps| - 1];
    assert snaps == init + [last];
    if s in init {
      GatheredAll(init, now, driftPpm, primary, s);
    }
  }

  lemma {:induction false} GatheredDistinct(snaps: seq<Snapshot>, now: real, driftPpm: real, primary: bool)
    requires DistinctSnapshots(snaps)
    ensures DistinctNames(Gathered(snaps, now, driftPpm, primary))
  {
    if snaps != [] {
      var init := snaps[..|snaps| - 1];
      GatheredDistinct(init, now, driftPpm, primary);
      var before := Gathered(init, now, driftPpm, primary);
      forall i | 0 <= i < |before|
        ensures before[i].s.name != snaps[|snaps| - 1].name
      {
        assert before[i] in before;
      }
    }
  }

  lemma GatheredSound(snaps: seq<Snapshot>, now: real, driftPpm: real, primary: bool)
    requires driftPpm >= 0.0 && forall s :: s in snaps ==> Plausible(s)
    ensures AllSound(Gathered(snaps, now, driftPpm, primary))
  {
    forall k | k in Gathered(snaps, now, driftPpm, primary)
      ensures Sound(k)
    {
      CandidateIsSound(k.s, now, driftPpm);
    }
  }

  function Keeping(refused: set<string>): Candidate -> bool {
    (k: Candidate) => k.s.name !in refused
  }

  lemma {:induction false} FilterSame(s: seq<Candidate>, p: Candidate -> bool, q: Candidate -> bool)
    requires forall k :: k in s ==> p(k) == q(k)
    ensures Filter(s, p) == Filter(s, q)
  {
    if s != [] {
      FilterSame(s[..|s| - 1], p, q);
    }
  }

  // ---- agreement ----------------------------------------------------------------------------------

  datatype Backoff = Backoff(refusedSince: real, count: nat)

  function Offsets(cand: seq<Candidate>): (o: seq<real>)
    ensures |o| == |cand| && forall i :: 0 <= i < |o| ==> o[i] == cand[i].offset
  {
    seq(|cand|, i requires 0 <= i < |cand| => cand[i].offset)
  }

  function Consensus(cand: seq<Candidate>): real {
    if cand == [] then 0.0 else Medians.Median(Offsets(cand))
  }

  function ReadingOf(cand: seq<Candidate>, k: Candidate): Agreement.Reading {
    Agreement.Reading(k.offset - Consensus(cand), |cand| - 1)
  }

  function Find(cand: seq<Candidate>, name: string): (i: Option<nat>)
    ensures i.Some? ==> i.value < |cand| && cand[i.value].s.name == name
    ensures i.None? ==> forall j :: 0 <= j < |cand| ==> cand[j].s.name != name
  {
    if cand == [] then None
    else if cand[|cand| - 1].s.name == name then Some(|cand| - 1)
    else Find(cand[..|cand| - 1], name)
  }

  /** The two classes as they were judged at one pass. */
  datatype Judgement = Judgement(now: real, primary: seq<Candidate>, secondary: seq<Candidate>)
  {
    function Reading(name: string): Option<Agreement.Reading> {
      match Find(primary, name)
      case Some(i) => Some(ReadingOf(primary, primary[i]))
      case None =>
        match Find(secondary, name)
        case Some(i) => Some(ReadingOf(secondary, secondary[i]))
        case None => None
    }
  }

  /** Everything the judge has seen of one source. */
  function PassesFor(log: seq<Judgement>, name: string): (ps: seq<Agreement.Pass>)
    ensures |ps| == |log| && forall i :: 0 <= i < |log| ==> ps[i] == Agreement.Pass(log[i].now, log[i].Reading(name))
  {
    seq(|log|, i requires 0 <= i < |log| => Agreement.Pass(log[i].now, log[i].Reading(name)))
  }

  /** The source, if it is in the class and has two peers there, is in a majority within 15 ms. */
  ghost predicate InMajority(cand: seq<Candidate>, name: string) {
    var i := Find(cand, name);
    i.Some? && |cand| - 1 >= Agreement.MIN_PEERS_TO_JUDGE ==>
      exists v :: Agreement.MajorityWith(Offsets(cand), i.value, v)
  }

  lemma MajorityReadsNear(cand: seq<Candidate>, name: string)
    requires InMajority(cand, name)
    ensures
      var i := Find(cand, name);
      i.Some? && |cand| - 1 >= Agreement.MIN_PEERS_TO_JUDGE ==>
        Abs(ReadingOf(cand, cand[i.value]).instant) <= Agreement.MAX_DISAGREEMENT_SEC
  {
    var i := Find(cand, name);
    if i.Some? && |cand| - 1 >= Agreement.MIN_PEERS_TO_JUDGE {
      var v :| Agreement.MajorityWith(Offsets(cand), i.value, v);
      Agreement.MajorityReadsNear(Offsets(cand), i.value, v);
    }
  }

  /** End to end: a source that at every pass belongs to a strict majority of its class lying within
      15 ms of some value is never refused, whatever everyone else reports. */
  lemma MajorityIsNeverRefused(smooth: Agreement.Smoothing, log: seq<Judgement>, name: string, i: nat)
    requires Agreement.IsSmoothing(smooth) && i < |log|
    requires forall j :: 0 <= j < |log| ==> InMajority(log[j].primary, name) && InMajority(log[j].secondary, name)
    ensures !Agreement.VerdictAt(smooth, PassesFor(log, name), i).refused
  {
    var ps := PassesFor(log, name);
    forall j | 0 <= j < |ps|
      ensures Agreement.Near(ps[j])
    {
      MajorityReadsNear(log[j].primary, name);
      MajorityReadsNear(log[j].secondary, name);
    }
    Agreement.AverageStaysNear(smooth, ps[..i]);
    Agreement.NearStep(smooth, Agreement.Run(smooth, ps[..i]), ps[i]);
  }

  /** The source, if it is in the class and has two peers there, is too far to one side of a majority. */
  ghost predicate OutOfStep(cand: seq<Candidate>, name: string, e: real, above: bool) {
    var i := Find(cand, name);
    i.Some? && |cand| - 1 >= Agreement.MIN_PEERS_TO_JUDGE ==> Agreement.OutOfStep(Offsets(cand), i.value, e, above)
  }

  lemma OutOfStepReadsAstray(j: Judgement, name: string, e: real, above: bool)
    requires OutOfStep(j.primary, name, e, above) && OutOfStep(j.secondary, name, e, above)
    ensures Agreement.ReadsAstray(Agreement.Pass(j.now, j.Reading(name)), above)
  {
    ReadsAstrayIn(j.primary, name, e, above);
    ReadsAstrayIn(j.secondary, name, e, above);
  }

  lemma ReadsAstrayIn(cand: seq<Candidate>, name: string, e: real, above: bool)
    requires OutOfStep(cand, name, e, above)
    ensures
      var i := Find(cand, name);
      i.Some? && |cand| - 1 >= Agreement.MIN_PEERS_TO_JUDGE ==>
        Agreement.Astray(ReadingOf(cand, cand[i.value]).instant, above)
  {
    var i := Find(cand, name);
    if i.Some? && |cand| - 1 >= Agreement.MIN_PEERS_TO_JUDGE {
      Agreement.OutOfStepReadsAstray(Offsets(cand), i.value, e, above);
    }
  }

  /** What the two maps hold of one source; nothing, at first. */
  function Remembered(residuals: map<string, Agreement.Residual>, backoffs: map<string, Backoff>,
                      name: string): Agreement.Memory {
    Agreement.Memory(
      if name in residuals then residuals[name] else Agreement.NoResidual,
      if name in backoffs then backoffs[name].refusedSince else 0.0,
      if name in backoffs then backoffs[name].count else 0)
  }

  /** One source judged: as the judge has it, save that the residual of one sent back is dropped only
      when everyone has been judged. */
  predicate Judged(smooth: Agreement.Smoothing, before: Agreement.Memory, after: Agreement.Memory,
                   now: real, r: Agreement.Reading, refused: bool, ordered: bool)
  {
    var (m, v) := Agreement.Judge(smooth, before, now, r);
    && refused == v.refused && ordered == v.reacquire
    && after.refusedSince == m.refusedSince && after.count == m.count
    && (!ordered ==> after == m)
  }

  /** One source after its class has been judged: judged, or left alone if it is not in it. */
  predicate ClassStep(smooth: Agreement.Smoothing, cand: seq<Candidate>, place: Option<nat>, before: Agreement.Memory,
                      after: Agreement.Memory, now: real, refused: bool, ordered: bool)
    requires place.Some? ==> place.value < |cand|
  {
    match place
    case Some(i) => Judged(smooth, before, after, now, ReadingOf(cand, cand[i]), refused, ordered)
    case None => after == before && !refused && !ordered
  }

  lemma FindNext(cand: seq<Candidate>, n: nat, name: string)
    requires DistinctNames(cand) && n < |cand|
    ensures Find(cand[..n + 1], name) == if cand[n].s.name == name then Some(n) else Find(cand[..n], name)
    ensures cand[n].s.name == name ==> Find(cand[..n], name).None?
  {
    assert cand[..n + 1][..n] == cand[..n];
  }

  /** The books of the judge within a pass. */
  datatype Book = Book(residuals: map<string, Agreement.Residual>, backoffs: map<string, Backoff>,
                       refused: set<string>, orders: set<string>)

  function Entered(smooth: Agreement.Smoothing, b: Book, name: string, now: real, r: Agreement.Reading): Book {
    var before := Remembered(b.residuals, b.backoffs, name);
    var (m, v) := Agreement.Judge(smooth, before, now, r);
    Book(b.residuals[name := Agreement.Averaged(smooth, before.residual, now, r)],
         b.backoffs[name := Backoff(m.refusedSince, m.count)],
         if v.refused then b.refused + {name} else b.refused,
         if v.reacquire then b.orders + {name} else b.orders)
  }

  /** The first `n` of a class entered, one after the other. */
  function EnteredUpTo(smooth: Agreement.Smoothing, b: Book, cand: seq<Candidate>, n: nat, now: real): Book
    requires n <= |cand|
  {
    if n == 0 then b
    else
      Entered(smooth, EnteredUpTo(smooth, b, cand, n - 1, now), cand[n - 1].s.name, now, ReadingOf(cand, cand[n - 1]))
  }

  /** Entering one source judges it, and leaves everyone else alone. */
  lemma EnteredOne(smooth: Agreement.Smoothing, b: Book, name: string, now: real, r: Agreement.Reading, other: string)
    ensures
      var e := Entered(smooth, b, name, now, r);
      var before, after := Remembered(b.residuals, b.backoffs, other), Remembered(e.residuals, e.backoffs, other);
      if other == name
      then other !in b.refused && other !in b.orders ==>
             Judged(smooth, before, after, now, r, other in e.refused, other in e.orders)
      else after == before && (other in e.refused <==> other in b.refused) && (other in e.orders <==> other in b.orders)
  {
  }

  /** Entering a class judges each of its members once, and leaves everyone else alone. */
  lemma {:induction false} EnteredJudges(smooth: Agreement.Smoothing, b: Book, cand: seq<Candidate>, n: nat, now: real, name: string)
    requires DistinctNames(cand) && n <= |cand| && name !in b.refused && name !in b.orders
    ensures
      var e := EnteredUpTo(smooth, b, cand, n, now);
      ClassStep(smooth, cand, Find(cand[..n], name), Remembered(b.residuals, b.backoffs, name),
                Remembered(e.residuals, e.backoffs, name), now, name in e.refused, name in e.orders)
  {
    hide Judged, Entered, Agreement.Judge, Agreement.Averaged, Remembered, Consensus;
    if n > 0 {
      EnteredJudges(smooth, b, cand, n - 1, now, name);
      FindNext(cand, n - 1, name);
      EnteredOne(smooth, EnteredUpTo(smooth, b, cand, n - 1, now), cand[n - 1].s.name, now,
                 ReadingOf(cand, cand[n - 1]), name);
    }
  }

  /** One source after a pass: one step of the judge, and its verdict. */
  predicate Stepped(smooth: Agreement.Smoothing, before: Agreement.Memory, after: Agreement.Memory,
                    p: Agreement.Pass, refused: bool, ordered: bool)
  {
    var (m, v) := Agreement.Step(smooth, before, p);
    after == m && refused == v.refused && ordered == v.reacquire
  }

  /** No source is in both classes. */
  ghost predicate Apart(j: Judgement) {
    forall name :: Find(j.primary, name).None? || Find(j.secondary, name).None?
  }

  lemma OneSnapshot(snaps: seq<Snapshot>, a: Snapshot, b: Snapshot)
    requires DistinctSnapshots(snaps) && a in snaps && b in snaps && a.name == b.name
    ensures a == b
  {
  }

  lemma GatheredApart(snaps: seq<Snapshot>, now: real, driftPpm: real)
    requires DistinctSnapshots(snaps) && driftPpm >= 0.0 && forall s :: s in snaps ==> Plausible(s)
    ensures
      var j := Judgement(now, Gathered(snaps, now, driftPpm, true), Gathered(snaps, now, driftPpm, false));
      && DistinctNames(j.primary) && DistinctNames(j.secondary) && Apart(j)
      && AllSound(j.primary) && AllSound(j.secondary)
  {
    GatheredDistinct(snaps, now, driftPpm, true);
    GatheredDistinct(snaps, now, driftPpm, false);
    GatheredSound(snaps, now, driftPpm, true);
    GatheredSound(snaps, now, driftPpm, false);
    var primary, secondary := Gathered(snaps, now, driftPpm, true), Gathered(snaps, now, driftPpm, false);
    forall name
      ensures Find(primary, name).None? || Find(secondary, name).None?
    {
      var i, n := Find(primary, name), Find(secondary, name);
      if i.Some? && n.Some? {
        OneSnapshot(snaps, primary[i.value].s, secondary[n.value].s);
        assert false;
      }
    }
  }

  /** The two classes judged one after the other, and the source forgotten if it was sent back. */
  lemma BothClasses(smooth: Agreement.Smoothing, j: Judgement, name: string, before: Agreement.Memory,
                    between: Agreement.Memory, after: Agreement.Memory,
                    refused: bool, ordered: bool, refused': bool, ordered': bool)
    requires Apart(j)
    requires ClassStep(smooth, j.primary, Find(j.primary, name), before, between, j.now, refused, ordered)
    requires ClassStep(smooth, j.secondary, Find(j.secondary, name), between, after, j.now, refused', ordered')
    ensures Stepped(smooth, before,
                    if ordered || ordered' then after.(residual := Agreement.NoResidual) else after,
                    Agreement.Pass(j.now, j.Reading(name)), refused || refused', ordered || ordered')
  {
  }

  lemma ClassesJudged(smooth: Agreement.Smoothing, j: Judgement, before: Book, first: Book, second: Book, name: string)
    requires DistinctNames(j.primary) && DistinctNames(j.secondary) && Apart(j)
    requires before.refused == {} && before.orders == {}
    requires first == EnteredUpTo(smooth, before, j.primary, |j.primary|, j.now)
    requires second == EnteredUpTo(smooth, Book(first.residuals, first.backoffs, {}, {}), j.secondary, |j.secondary|, j.now)
    ensures
      var orders := first.orders + second.orders;
      Stepped(smooth, Remembered(before.residuals, before.backoffs, name),
              Remembered(second.residuals - orders, second.backoffs, name),
              Agreement.Pass(j.now, j.Reading(name)), name in first.refused + second.refused, name in orders)
  {
    hide EnteredUpTo, Stepped, ClassStep, DistinctNames, Apart, Find;
    assert j.primary[..|j.primary|] == j.primary && j.secondary[..|j.secondary|] == j.secondary;
    EnteredJudges(smooth, before, j.primary, |j.primary|, j.now, name);
    EnteredJudges(smooth, Book(first.residuals, first.backoffs, {}, {}), j.secondary, |j.secondary|, j.now, name);
    BothClasses(smooth, j, name, Remembered(before.residuals, before.backoffs, name),
                Remembered(first.residuals, first.backoffs, name), Remembered(second.residuals, second.backoffs, name),
                name in first.refused, name in first.orders, name in second.refused, name in second.orders);
  }

  /** The latest instant in the log of the latch. */
  ghost function LatestNow(flags: seq<Failover.Pass>): real {
    if flags == [] then 0.0 else flags[|flags| - 1].now
  }

  /** The two logs are of the same passes, in order of time. */
  ghost predicate Timed(judgements: seq<Judgement>, flags: seq<Failover.Pass>) {
    && Failover.InOrder(flags)
    && |judgements| == |flags| && forall i :: 0 <= i < |flags| ==> judgements[i].now == flags[i].now
  }

  lemma TimedNext(judgements: seq<Judgement>, flags: seq<Failover.Pass>, now: real)
    requires Timed(judgements, flags) && now > 0.0 && LatestNow(flags) <= now
    ensures forall j: Judgement, p: Failover.Pass {:trigger judgements + [j], flags + [p]} | j.now == now && p.now == now ::
              Timed(judgements + [j], flags + [p]) && LatestNow(flags + [p]) == now
  {
  }

  /** Each source's passes, taken from such a log, are in order too. */
  lemma PassesInOrder(judgements: seq<Judgement>, flags: seq<Failover.Pass>, name: string)
    requires Timed(judgements, flags)
    ensures Agreement.InOrder(PassesFor(judgements, name))
  {
    var ps := PassesFor(judgements, name);
    assert forall i :: 0 <= i < |ps| ==> ps[i].now == flags[i].now;
  }

  /** Two orders to start over sent to one source, with no pass between them at which it was accepted, are
      apart by the settling time and the wait that has grown with the orders in a row so far. */
  lemma OrdersAreApart(smooth: Agreement.Smoothing, judgements: seq<Judgement>, flags: seq<Failover.Pass>, name: string,
                       i: nat, j: nat)
    requires Timed(judgements, flags) && i < j < |judgements|
    requires
      var ps := PassesFor(judgements, name);
      Agreement.Orders(smooth, ps, i) && Agreement.Orders(smooth, ps, j) && Agreement.Quiet(smooth, ps, i, j)
    ensures judgements[j].now - judgements[i].now
            >= Agreement.RESIDUAL_SETTLE_SEC + Agreement.Wait(Agreement.OrdersInARow(smooth, PassesFor(judgements[..i + 1], name)))
  {
    var ps := PassesFor(judgements, name);
    PassesInOrder(judgements, flags, name);
    Agreement.OrdersAreApart(smooth, ps, i, j);
    assert ps[..i + 1] == PassesFor(judgements[..i + 1], name);
  }

  /** What this pass says of a source, the log ending with this pass. */
  function VerdictNow(smooth: Agreement.Smoothing, log: seq<Judgement>, name: string): Agreement.Verdict
    requires log != []
  {
    Agreement.VerdictAt(smooth, PassesFor(log, name), |log| - 1)
  }

  /** Those of a class that the consensus did not refuse this pass. */
  function Unrefused(smooth: Agreement.Smoothing, log: seq<Judgement>): Candidate -> bool
    requires log != []
  {
    (k: Candidate) => !VerdictNow(smooth, log, k.s.name).refused
  }

  /** What is remembered of a source after one more pass is one step further along its log. */
  lemma LogNext(smooth: Agreement.Smoothing, log: seq<Judgement>, j: Judgement, name: string,
                before: Agreement.Memory, after: Agreement.Memory, refused: bool, ordered: bool)
    requires before == Agreement.Run(smooth, PassesFor(log, name))
    requires Stepped(smooth, before, after, Agreement.Pass(j.now, j.Reading(name)), refused, ordered)
    ensures after == Agreement.Run(smooth, PassesFor(log + [j], name))
    ensures refused == VerdictNow(smooth, log + [j], name).refused
    ensures ordered == VerdictNow(smooth, log + [j], name).reacquire
  {
    hide Agreement.Step;
    var ps := PassesFor(log + [j], name);
    assert ps[..|log|] == PassesFor(log, name);
  }

  lemma KeptAreUnrefused(cand: seq<Candidate>, refused: set<string>, smooth: Agreement.Smoothing, log: seq<Judgement>)
    requires log != [] && forall name :: name in refused <==> VerdictNow(smooth, log, name).refused
    ensures Filter(cand, Keeping(refused)) == Filter(cand, Unrefused(smooth, log))
  {
    hide VerdictNow;
    FilterSame(cand, Keeping(refused), Unrefused(smooth, log));
  }

  // ---- one whole pass -----------------------------------------------------------------------------

  predicate Usable(cand: seq<Candidate>, least: int) {
    |cand| >= least && cand != []
  }

  function Pool(mode: Failover.Mode, onSecondary: bool, primary: seq<Candidate>, secondary: seq<Candidate>): seq<Candidate> {
    if mode == Failover.Always then primary + secondary
    else if onSecondary then secondary
    else primary
  }

  /** Who may serve: a source that is ready, with an offset no older than its limit and a dispersion, not
      refused, and of the class that the latch has chosen unless both serve always. */
  predicate MayServe(smooth: Agreement.Smoothing, log: seq<Judgement>, mode: Failover.Mode, onSecondary: bool, s: Snapshot)
    requires log != []
  {
    && s.ready && s.haveOffset && s.dispersionSec > 0.0
    && s.offsetAgeSec <= (if s.maxOffsetAgeSec > 0.0 then s.maxOffsetAgeSec else 180.0)
    && !VerdictNow(smooth, log, s.name).refused
    && (mode == Failover.Always || s.primaryClass == !onSecondary)
  }

  /** End to end: a source further than 30 ms and `e` to one side of a value that a strict majority of its
      class lie within `e` of, at every pass since its average began, is refused at every pass with two peers
      that comes the settling time or more after one, with no order to start over between; and is then not in the pool. */
  lemma MinorityIsRefused(smooth: Agreement.Smoothing, judgements: seq<Judgement>, flags: seq<Failover.Pass>, name: string,
                          b: nat, j: nat, i: nat, e: real, above: bool)
    requires Agreement.IsSmoothing(smooth) && Timed(judgements, flags) && b <= j < i < |judgements|
    requires Agreement.Afresh(smooth, PassesFor(judgements, name), b)
    requires forall m :: b <= m <= i ==>
               OutOfStep(judgements[m].primary, name, e, above) && OutOfStep(judgements[m].secondary, name, e, above)
    requires
      var ps := PassesFor(judgements, name);
      && Agreement.Heard(ps[j]) && Agreement.Heard(ps[i])
      && ps[i].now - ps[j].now >= Agreement.RESIDUAL_SETTLE_SEC
      && forall m :: j <= m < i ==> !Agreement.Orders(smooth, ps, m)
    ensures Agreement.VerdictAt(smooth, PassesFor(judgements, name), i).refused
    ensures i == |judgements| - 1 ==>
              forall mode, onSecondary, s: Snapshot :: s.name == name ==> !MayServe(smooth, judgements, mode, onSecondary, s)
  {
    hide OutOfStep, Agreement.ReadsAstray, Agreement.Heard, Agreement.VerdictAt, Agreement.Orders, Agreement.Afresh, MayServe;
    var ps := PassesFor(judgements, name);
    PassesInOrder(judgements, flags, name);
    forall m | b <= m <= i
      ensures Agreement.ReadsAstray(ps[m], above)
    {
      OutOfStepReadsAstray(judgements[m], name, e, above);
    }
    Agreement.AstrayIsRefused(smooth, ps, b, j, i, above);
    if i == |judgements| - 1 {
      RefusedMayNotServe(smooth, judgements, name);
    }
  }

  lemma RefusedMayNotServe(smooth: Agreement.Smoothing, log: seq<Judgement>, name: string)
    requires log != [] && Agreement.VerdictAt(smooth, PassesFor(log, name), |log| - 1).refused
    ensures forall mode, onSecondary, s: Snapshot :: s.name == name ==> !MayServe(smooth, log, mode, onSecondary, s)
  {
  }

  lemma PoolExactly(snaps: seq<Snapshot>, now: real, driftPpm: real, smooth: Agreement.Smoothing, log: seq<Judgement>,
                    mode: Failover.Mode, onSecondary: bool, k: Candidate)
    requires log != []
    ensures
      var primary := Filter(Gathered(snaps, now, driftPpm, true), Unrefused(smooth, log));
      var secondary := Filter(Gathered(snaps, now, driftPpm, false), Unrefused(smooth, log));
      k in Pool(mode, onSecondary, primary, secondary)
      <==> k.s in snaps && MayServe(smooth, log, mode, onSecondary, k.s) && k == CandidateOf(k.s, now, driftPpm)
  {
    hide VerdictNow;
    if k.s in snaps && MayServe(smooth, log, mode, onSecondary, k.s) && k == CandidateOf(k.s, now, driftPpm) {
      GatheredAll(snaps, now, driftPpm, k.s.primaryClass, k.s);
    }
  }

  /** While the classes take turns, what is served is of the class the latch has chosen. */
  lemma ServesTheClass(pool: seq<Candidate>, survivors: seq<Candidate>, a: Answer, now: real, onSecondary: bool)
    requires AllSound(survivors) && survivors != [] && IsAnswer(survivors, a)
    requires forall k :: k in survivors ==> k in pool
    requires forall k :: k in pool ==> k.primary == !onSecondary
    ensures Answered(a, now).serving == if onSecondary then Secondary else Primary
  {
    assert survivors[0] in survivors;
  }

  lemma PoolIsOfBoth(mode: Failover.Mode, onSecondary: bool, primary: seq<Candidate>, secondary: seq<Candidate>)
    ensures forall k :: k in Pool(mode, onSecondary, primary, secondary) ==> k in primary + secondary
  {
  }

  /** What the intersection leaves of the pool: all of it, if it is a single source. */
  ghost predicate Survive(pool: seq<Candidate>, served: Option<real>, survivors: seq<Candidate>)
    requires AllSound(pool)
  {
    if |pool| <= 1 then survivors == pool
    else exists best, regions, pick :: Intersection.Kept(pool, served, survivors, best, regions, pick)
  }

  lemma SurvivorsAmong(pool: seq<Candidate>, served: Option<real>, survivors: seq<Candidate>,
                       best: int, regions: seq<Intersection.Region>, pick: nat)
    requires AllSound(pool)
    requires |pool| <= 1 ==> survivors == pool
    requires |pool| > 1 ==> Intersection.Kept(pool, served, survivors, best, regions, pick)
    ensures Survive(pool, served, survivors)
    ensures forall k :: k in survivors ==> k in pool
    ensures AllSound(survivors)
  {
  }

  /** If a strict majority of the pool hold the true offset, the served one is out by no more than the
      spread and the half-width of some survivor that holds it. */
  lemma MajorityBoundsTheError(pool: seq<Candidate>, served: Option<real>, survivors: seq<Candidate>, a: Answer, truth: real)
    requires AllSound(pool) && Survive(pool, served, survivors)
    requires AllSound(survivors) && survivors != [] && IsAnswer(survivors, a)
    requires 2 * Intersection.Depth(pool, truth) > |pool|
    ensures exists k :: k in survivors && k.Holds(truth) && Abs(a.offset - truth) <= a.spread + k.dist
  {
    hide IsAnswer;
    if |pool| <= 1 {
      CountPositive(pool, Intersection.Holding(truth));
    } else {
      var best, regions, pick :| Intersection.Kept(pool, served, survivors, best, regions, pick);
      Intersection.MajorityKeepsTheTruth(pool, served, survivors, best, regions, pick, truth);
    }
    var k :| k in survivors && k.Holds(truth);
    OneHonestSurvivor(survivors, a, k, truth);
  }

  /** What comes of the survivors: their answer, if there are enough of them to serve, which becomes the
      last good one; and otherwise the last good one, kept as it was, is carried on. */
  ghost predicate Concluded(survivors: seq<Candidate>, least: int, now: real, hostOffset: real,
                            driftPpm: real, coastSeconds: real,
                            before: Option<Good>, after: Option<Good>, c: Combined)
    requires AllSound(survivors)
  {
    if Usable(survivors, least)
    then exists a :: IsAnswer(survivors, a) && c == Answered(a, now) && after == Some(GoodOf(a, now))
    else after == before && c == CoastedFrom(before, now, driftPpm, coastSeconds, hostOffset)
  }

  /** An answer of this pass's own, and not an old one carried on, or none. */
  predicate Fresh(c: Combined) {
    c.serving == Primary || c.serving == Secondary || c.serving == Both
  }

  /** A pass serves an answer of its own exactly when enough survive, and then of the class the latch has
      chosen; and it warns of a leap exactly when it does and every survivor warns of one. */
  lemma FreshExactly(pool: seq<Candidate>, survivors: seq<Candidate>, least: int, now: real, hostOffset: real,
                     driftPpm: real, coastSeconds: real, before: Option<Good>, after: Option<Good>, c: Combined,
                     onSecondary: bool)
    requires AllSound(survivors) && forall k :: k in survivors ==> k in pool
    requires Concluded(survivors, least, now, hostOffset, driftPpm, coastSeconds, before, after, c)
    ensures Fresh(c) <==> |survivors| >= least && survivors != []
    ensures Fresh(c) && (forall k :: k in pool ==> k.primary == !onSecondary) ==>
              c.serving == if onSecondary then Secondary else Primary
    ensures c.leapPending <==> Fresh(c) && forall k :: k in survivors ==> k.s.leapPending
  {
    if Usable(survivors, least) {
      hide IsAnswer;
      var a :| IsAnswer(survivors, a) && c == Answered(a, now) && after == Some(GoodOf(a, now));
      if forall k :: k in pool ==> k.primary == !onSecondary {
        ServesTheClass(pool, survivors, a, now, onSecondary);
      }
      ServesAClass(survivors, a, now);
    }
  }

  lemma ServesAClass(survivors: seq<Candidate>, a: Answer, now: real)
    requires AllSound(survivors) && survivors != [] && IsAnswer(survivors, a)
    ensures Fresh(Answered(a, now))
    ensures Answered(a, now).leapPending <==> forall k :: k in survivors ==> k.s.leapPending
  {
  }

  /** The pool holds everyone that may serve, carried to now, and nobody else. */
  ghost predicate PoolOf(snaps: seq<Snapshot>, now: real, driftPpm: real, smooth: Agreement.Smoothing, log: seq<Judgement>,
                         mode: Failover.Mode, onSecondary: bool, pool: seq<Candidate>)
    requires log != []
  {
    forall k :: k in pool
                <==> k.s in snaps && MayServe(smooth, log, mode, onSecondary, k.s) && k == CandidateOf(k.s, now, driftPpm)
  }

  /** One pass without the steps it is made of: whom the pool holds, whether the answer is the pass's own,
      and of which class it then is. */
  lemma PassMeans(snaps: seq<Snapshot>, now: real, hostOffset: real, driftPpm: real, coastSeconds: real,
                  smooth: Agreement.Smoothing, log: seq<Judgement>, mode: Failover.Mode, onSecondary: bool,
                  pool: seq<Candidate>, survivors: seq<Candidate>, least: int,
                  before: Option<Good>, after: Option<Good>, c: Combined)
    requires log != [] && AllSound(survivors) && forall k :: k in survivors ==> k in pool
    requires pool == Pool(mode, onSecondary, Filter(Gathered(snaps, now, driftPpm, true), Unrefused(smooth, log)),
                          Filter(Gathered(snaps, now, driftPpm, false), Unrefused(smooth, log)))
    requires Concluded(survivors, least, now, hostOffset, driftPpm, coastSeconds, before, after, c)
    ensures PoolOf(snaps, now, driftPpm, smooth, log, mode, onSecondary, pool)
    ensures Fresh(c) <==> |survivors| >= least && survivors != []
    ensures Fresh(c) && mode != Failover.Always ==> c.serving == if onSecondary then Secondary else Primary
    ensures c.leapPending <==> Fresh(c) && forall k :: k in survivors ==> k.s.leapPending
  {
    hide Concluded, Fresh, Unrefused, Gathered, Filter, Pool, VerdictNow, Eligible, AllSound;
    forall k
      ensures k in pool <==> k.s in snaps && MayServe(smooth, log, mode, onSecondary, k.s) && k == CandidateOf(k.s, now, driftPpm)
    {
      PoolExactly(snaps, now, driftPpm, smooth, log, mode, onSecondary, k);
    }
    FreshExactly(pool, survivors, least, now, hostOffset, driftPpm, coastSeconds, before, after, c, onSecondary);
  }

  // ---- the selector -------------------------------------------------------------------------------

  class Selector {
    const coastSeconds: real
    const coastDriftPpm: real
    const minSources: int
    const minSecondarySources: int
    const clock: Failover.Config
    const smooth: Agreement.Smoothing
    const sqrt: real -> real

    var residualAvg: map<string, Agreement.Residual>
    var reacquire: map<string, Backoff>

    var haveLast: bool
    var lastGoodOffset: real
    var lastGoodRate: real
    var lastGoodRateUncertainty: real
    var lastGoodRateMeasured: bool
    var lastGoodDispersion: real
    var lastGoodRootDispersion: real
    var lastGoodAt: real
    var lastGoodMeasuredAt: real

    var onSecondary: bool
    var primaryLostSince: real
    var primaryHealthySince: real
    var secondaryActive: bool

    var last: Combined

    ghost var judgements: seq<Judgement>
    ghost var flags: seq<Failover.Pass>

    constructor (coastSeconds: real, coastDriftPpm: real, minSources: int, minSecondarySources: int,
                 clock: Failover.Config, smooth: Agreement.Smoothing, sqrt: real -> real)
      requires coastDriftPpm >= 0.0 && Agreement.IsSmoothing(smooth) && IsSquareRoot(sqrt)
      ensures Valid() && judgements == [] && flags == [] && !haveLast
      ensures this.coastSeconds == coastSeconds && this.coastDriftPpm == coastDriftPpm
      ensures this.minSources == minSources && this.minSecondarySources == minSecondarySources
      ensures this.clock == clock && this.smooth == smooth && this.sqrt == sqrt
      ensures secondaryActive == (clock.mode != Failover.Cold)
    {
      this.coastSeconds, this.coastDriftPpm := coastSeconds, coastDriftPpm;
      this.minSources, this.minSecondarySources := minSources, minSecondarySources;
      this.clock, this.smooth, this.sqrt := clock, smooth, sqrt;
      residualAvg, reacquire := map[], map[];
      haveLast, last := false, Nothing;
      lastGoodOffset, lastGoodRate, lastGoodRateUncertainty, lastGoodRateMeasured := 0.0, 0.0, 0.0, false;
      lastGoodDispersion, lastGoodRootDispersion, lastGoodAt, lastGoodMeasuredAt := 0.0, 0.0, 0.0, 0.0;
      onSecondary, primaryLostSince, primaryHealthySince := false, 0.0, 0.0;
      secondaryActive := clock.mode != Failover.Cold;
      judgements, flags := [], [];
    }

    function Latch(): Failover.State
      reads `onSecondary, `primaryLostSince, `primaryHealthySince, `secondaryActive
    {
      Failover.State(onSecondary, primaryLostSince, primaryHealthySince, secondaryActive)
    }

    function MemoryOf(name: string): Agreement.Memory
      reads `residualAvg, `reacquire
    {
      Remembered(residualAvg, reacquire, name)
    }

    function LastGood(): Option<Good>
      reads `haveLast, `lastGoodOffset, `lastGoodRate, `lastGoodRateUncertainty, `lastGoodRateMeasured,
            `lastGoodDispersion, `lastGoodRootDispersion, `lastGoodAt, `lastGoodMeasuredAt, `last
    {
      if haveLast then
        Some(Good(lastGoodOffset, lastGoodRate, lastGoodRateUncertainty, lastGoodRateMeasured,
                  lastGoodDispersion, lastGoodRootDispersion, last.rootDelaySec, last.stratum,
                  lastGoodAt, lastGoodMeasuredAt))
      else None
    }

    /** Every field is what the runs of the judge and of the latch over all passes so far make it, and
        what was last served is the last good answer and claims no less than its error. */
    ghost predicate Valid()
      reads this
    {
      && coastDriftPpm >= 0.0 && Agreement.IsSmoothing(smooth) && IsSquareRoot(sqrt)
      && Latch() == Failover.Run(clock, flags)
      && (forall name :: MemoryOf(name) == Agreement.Run(smooth, PassesFor(judgements, name)))
      && Served(LastGood(), last)
      && Timed(judgements, flags)
      && (LastGood().Some? ==> LastGood().value.at <= LatestNow(flags))
    }

    // ---- the candidates ---------------------------------------------------------------------------

    method Gather(snaps: seq<Snapshot>, now: real, primary: bool) returns (cand: seq<Candidate>)
      ensures cand == Gathered(snaps, now, coastDriftPpm, primary)
    {
      cand := [];
      for i := 0 to |snaps|
        invariant cand == Gathered(snaps[..i], now, coastDriftPpm, primary)
      {
        Extend(snaps, i);
        if Eligible(snaps[i]) && snaps[i].primaryClass == primary {
          cand := cand + [CandidateOf(snaps[i], now, coastDriftPpm)];
        }
      }
      assert snaps[..|snaps|] == snaps;
    }

    method DropRefused(cand: seq<Candidate>, refused: set<string>) returns (kept: seq<Candidate>)
      ensures kept == Filter(cand, Keeping(refused))
    {
      kept := [];
      for i := 0 to |cand|
        invariant kept == Filter(cand[..i], Keeping(refused))
      {
        Extend(cand, i);
        if cand[i].s.name !in refused {
          kept := kept + [cand[i]];
        }
      }
      assert cand[..|cand|] == cand;
    }

    // ---- agreement --------------------------------------------------------------------------------

    /** One source against the consensus of its class. An order to start over is returned, and what
        is remembered of its residual is dropped when both classes have been judged. */
    method JudgeOne(name: string, now: real, r: Agreement.Reading) returns (v: Agreement.Verdict)
      modifies `residualAvg, `reacquire
      ensures v == Agreement.Judge(smooth, old(MemoryOf(name)), now, r).1
      ensures forall refused, orders ::
                Book(residualAvg, reacquire, if v.refused then refused + {name} else refused,
                     if v.reacquire then orders + {name} else orders)
                == Entered(smooth, Book(old(residualAvg), old(reacquire), refused, orders), name, now, r)
    {
      var ra := if name in residualAvg then residualAvg[name] else Agreement.NoResidual;
      if r.peers >= Agreement.MIN_PEERS_TO_JUDGE {
        if !ra.seeded {
          ra := ra.(seeded := true, averaged := r.instant, firstAt := now);
        } else {
          var dt := now - ra.lastAt;
          if dt > 0.0 {
            ra := ra.(averaged := smooth(dt, ra.averaged, r.instant));
          }
        }
      }
      ra := ra.(lastAt := now);
      residualAvg := residualAvg[name := ra];
      var averaged := if ra.seeded then ra.averaged else r.instant;
      var settledFor := if ra.seeded then now - ra.firstAt else 0.0;
      var judged := r.peers >= Agreement.MIN_PEERS_TO_JUDGE && settledFor >= Agreement.RESIDUAL_SETTLE_SEC;
      var refused := judged && Abs(averaged) > Agreement.MAX_DISAGREEMENT_SEC;
      var order := false;
      var rq := if name in reacquire then reacquire[name] else Backoff(0.0, 0);
      if refused {
        if rq.refusedSince <= 0.0 {
          rq := rq.(refusedSince := now);
        }
        var wait := Agreement.Wait(rq.count);
        if now - rq.refusedSince >= wait {
          rq := Backoff(0.0, rq.count + 1);
          order := true;
        }
      } else if judged {
        rq := Backoff(0.0, 0);
      }
      reacquire := reacquire[name := rq];
      v := Agreement.Verdict(judged, refused, order);
    }

    /** Each member of a class in turn, by its distance from the class median. */
    method JudgeClass(cand: seq<Candidate>, now: real) returns (refused: set<string>, orders: set<string>)
      modifies `residualAvg, `reacquire
      ensures Book(residualAvg, reacquire, refused, orders)
              == EnteredUpTo(smooth, Book(old(residualAvg), old(reacquire), {}, {}), cand, |cand|, now)
    {
      hide Agreement.Judge, Agreement.Averaged, Entered, Remembered;
      refused, orders := {}, {};
      var consensus := Consensus(cand);
      ghost var before := Book(residualAvg, reacquire, {}, {});
      for n := 0 to |cand|
        invariant Book(residualAvg, reacquire, refused, orders) == EnteredUpTo(smooth, before, cand, n, now)
      {
        var name := cand[n].s.name;
        var v := JudgeOne(name, now, Agreement.Reading(cand[n].offset - consensus, |cand| - 1));
        if v.refused {
          refused := refused + {name};
        }
        if v.reacquire {
          orders := orders + {name};
        }
      }
    }

    /** Both classes judged, each on its own, and the sources sent back forgotten: for every source
        this is exactly one step of the judge. */
    method JudgeAll(j: Judgement) returns (refused: set<string>, orders: set<string>)
      requires DistinctNames(j.primary) && DistinctNames(j.secondary) && Apart(j)
      modifies `residualAvg, `reacquire
      ensures forall name ::
                Stepped(smooth, Remembered(old(residualAvg), old(reacquire), name),
                        Remembered(residualAvg, reacquire, name), Agreement.Pass(j.now, j.Reading(name)),
                        name in refused, name in orders)
    {
      hide EnteredUpTo, Stepped, Remembered, DistinctNames, Apart;
      ghost var before := Book(residualAvg, reacquire, {}, {});
      var refused0, orders0 := JudgeClass(j.primary, j.now);
      ghost var first := Book(residualAvg, reacquire, refused0, orders0);
      var refused1, orders1 := JudgeClass(j.secondary, j.now);
      ghost var second := Book(residualAvg, reacquire, refused1, orders1);
      refused, orders := refused0 + refused1, orders0 + orders1;
      residualAvg := residualAvg - orders;
      forall name
        ensures Stepped(smooth, Remembered(before.residuals, before.backoffs, name),
                        Remembered(residualAvg, reacquire, name), Agreement.Pass(j.now, j.Reading(name)),
                        name in refused, name in orders)
      {
        ClassesJudged(smooth, j, before, first, second, name);
      }
    }

    /** The candidates of each class, less those the consensus refuses. */
    method Admit(snaps: seq<Snapshot>, now: real) returns (primary: seq<Candidate>, secondary: seq<Candidate>)
      requires coastDriftPpm >= 0.0
      requires forall name :: MemoryOf(name) == Agreement.Run(smooth, PassesFor(judgements, name))
      requires DistinctSnapshots(snaps) && forall s :: s in snaps ==> Plausible(s) && s.stratum >= 0
      modifies `residualAvg, `reacquire, `judgements
      ensures forall name :: MemoryOf(name) == Agreement.Run(smooth, PassesFor(judgements, name))
      ensures judgements == old(judgements)
                + [Judgement(now, Gathered(snaps, now, coastDriftPpm, true), Gathered(snaps, now, coastDriftPpm, false))]
      ensures primary == Filter(judgements[|judgements| - 1].primary, Unrefused(smooth, judgements))
      ensures secondary == Filter(judgements[|judgements| - 1].secondary, Unrefused(smooth, judgements))
      ensures forall k :: k in primary + secondary ==> Sound(k) && k.s.stratum >= 0
    {
      hide Agreement.Run, Remembered, Agreement.Step, VerdictNow, Eligible, Gathered, Stepped, Unrefused, Keeping;
      primary := Gather(snaps, now, true);
      secondary := Gather(snaps, now, false);
      ghost var j := Judgement(now, primary, secondary);
      GatheredApart(snaps, now, coastDriftPpm);
      ghost var residuals, backoffs := residualAvg, reacquire;
      var refused, orders := JudgeAll(Judgement(now, primary, secondary));
      forall name
        ensures MemoryOf(name) == Agreement.Run(smooth, PassesFor(judgements + [j], name))
        ensures name in refused <==> VerdictNow(smooth, judgements + [j], name).refused
      {
        LogNext(smooth, judgements, j, name, Remembered(residuals, backoffs, name), MemoryOf(name),
                name in refused, name in orders);
      }
      judgements := judgements + [j];
      primary := DropRefused(primary, refused);
      secondary := DropRefused(secondary, refused);
      KeptAreUnrefused(j.primary, refused, smooth, judgements);
      KeptAreUnrefused(j.secondary, refused, smooth, judgements);
    }

    // ---- which class serves -----------------------------------------------------------------------

    /** The timers, the latch and the standby: one step of the failover machine. */
    method ChooseClass(now: real, primaryUsable: bool, secondaryUsable: bool)
      modifies `onSecondary, `primaryLostSince, `primaryHealthySince, `secondaryActive
      ensures Latch() == Failover.Step(clock, old(Latch()), Failover.Pass(now, primaryUsable, secondaryUsable))
    {
      if primaryUsable {
        if primaryHealthySince <= 0.0 {
          primaryHealthySince := now;
        }
        primaryLostSince := 0.0;
      } else {
        if primaryLostSince <= 0.0 {
          primaryLostSince := now;
        }
        primaryHealthySince := 0.0;
      }
      if clock.mode == Failover.Always {
        onSecondary, secondaryActive := false, true;
      } else {
        var lostFor := if primaryLostSince > 0.0 then now - primaryLostSince else 0.0;
        var healthyFor := if primaryHealthySince > 0.0 then now - primaryHealthySince else 0.0;
        if !onSecondary {
          if !primaryUsable && secondaryUsable && lostFor >= clock.failoverAfter {
            onSecondary := true;
          }
        } else if primaryUsable && healthyFor >= clock.failbackAfter {
          onSecondary := false;
        }
        secondaryActive :=
          clock.mode != Failover.Cold || onSecondary || !primaryUsable
          || (secondaryActive && primaryHealthySince > 0.0 && healthyFor < clock.failbackAfter);
      }
    }

    /** The candidates of each class, and which class is to serve. */
    method Choose(snaps: seq<Snapshot>, now: real) returns (primary: seq<Candidate>, secondary: seq<Candidate>)
      requires Valid() && now > 0.0 && LatestNow(flags) <= now
      requires DistinctSnapshots(snaps)
      requires forall s :: s in snaps ==> Plausible(s) && s.stratum >= 0
      modifies `residualAvg, `reacquire, `judgements, `flags,
               `onSecondary, `primaryLostSince, `primaryHealthySince, `secondaryActive
      ensures Valid() && LatestNow(flags) == now
      ensures judgements == old(judgements)
                + [Judgement(now, Gathered(snaps, now, coastDriftPpm, true), Gathered(snaps, now, coastDriftPpm, false))]
      ensures primary == Filter(judgements[|judgements| - 1].primary, Unrefused(smooth, judgements))
      ensures secondary == Filter(judgements[|judgements| - 1].secondary, Unrefused(smooth, judgements))
      ensures flags == old(flags) + [Failover.Pass(now, Usable(primary, minSources), Usable(secondary, minSecondarySources))]
      ensures forall k :: k in primary + secondary ==> Sound(k) && k.s.stratum >= 0
    {
      hide Agreement.Run, Remembered, VerdictNow, Gathered, Eligible, Unrefused, Served;
      hide Failover.Run, Failover.Step, IsSquareRoot, Agreement.IsSmoothing;
      hide Latch, MemoryOf, Plausible, Usable, DistinctSnapshots, Sound, Filter, Timed, LatestNow, LastGood;
      TimedNext(judgements, flags, now);
      primary, secondary := Admit(snaps, now);
      var primaryUsable := Usable(primary, minSources);
      var secondaryUsable := Usable(secondary, minSecondarySources);
      ChooseClass(now, primaryUsable, secondaryUsable);
      Failover.RunAppend(clock, flags, Failover.Pass(now, primaryUsable, secondaryUsable));
      flags := flags + [Failover.Pass(now, primaryUsable, secondaryUsable)];
    }

    // ---- serving and coasting ---------------------------------------------------------------------

    /** An answer served, and remembered as the last good one. */
    method Serve(a: Answer, now: real) returns (c: Combined)
      modifies `haveLast, `lastGoodOffset, `lastGoodRate, `lastGoodRateUncertainty, `lastGoodRateMeasured,
               `lastGoodDispersion, `lastGoodRootDispersion, `lastGoodAt, `lastGoodMeasuredAt, `last
      ensures c == Answered(a, now) && last == c && LastGood() == Some(GoodOf(a, now))
    {
      c := Answered(a, now);
      haveLast := true;
      lastGoodOffset, lastGoodAt := a.offset, now;
      lastGoodRate, lastGoodRateUncertainty, lastGoodRateMeasured := a.rate, a.rateUncertainty, a.rateMeasured;
      lastGoodDispersion, lastGoodRootDispersion := a.dispersion, a.rootDispersion;
      lastGoodMeasuredAt := now - a.newest;
      last := c;
    }

    /** What can still be said with nothing to serve from: the last good offset carried along its rate,
        less and less certain; or, with none yet, only the host's own clock. */
    method Coast(now: real, hostOffset: real) returns (c: Combined)
      modifies `last
      ensures last == c && LastGood() == old(LastGood())
      ensures c == CoastedFrom(old(LastGood()), now, coastDriftPpm, coastSeconds, hostOffset)
    {
      if haveLast {
        var age := now - lastGoodAt;
        var growth := age * (coastDriftPpm / 1000000.0 + lastGoodRateUncertainty);
        assert growth == LastGood().value.Growth(age, coastDriftPpm);
        hide Good.Growth;
        c := Combined(true, age <= coastSeconds,
                      lastGoodOffset + lastGoodRate * age, now, lastGoodRate, lastGoodRateUncertainty, lastGoodRateMeasured,
                      lastGoodDispersion + growth, lastGoodRootDispersion + growth, last.rootDelaySec, last.stratum,
                      now - lastGoodMeasuredAt, Coasting, false);
      } else {
        c := Combined(false, false, hostOffset, now, 0.0, 0.0, false, 0.0, 0.0, 0.0, 16, 0.0, Nobody, false);
      }
      last := c;
    }

    /** Intersect the pool, and serve what survives or coast. */
    method Conclude(cand: seq<Candidate>, now: real, hostOffset: real) returns (c: Combined, ghost survivors: seq<Candidate>)
      requires coastDriftPpm >= 0.0 && IsSquareRoot(sqrt)
      requires Served(LastGood(), last) && (LastGood().Some? ==> LastGood().value.at <= now)
      requires forall k :: k in cand ==> Sound(k) && k.s.stratum >= 0
      modifies `haveLast, `lastGoodOffset, `lastGoodRate, `lastGoodRateUncertainty, `lastGoodRateMeasured,
               `lastGoodDispersion, `lastGoodRootDispersion, `lastGoodAt, `lastGoodMeasuredAt, `last
      ensures last == c && Served(LastGood(), c)
      ensures LastGood().Some? ==> LastGood().value.at <= now
      ensures Survive(cand, Reference(old(LastGood()), now), survivors) && AllSound(survivors)
      ensures forall k :: k in survivors ==> k in cand
      ensures Concluded(survivors, if AnyPrimary(cand) then minSources else minSecondarySources, now, hostOffset,
                        coastDriftPpm, coastSeconds, old(LastGood()), LastGood(), c)
    {
      hide IsAnswer, Served, GoodOf, Answered, CoastedFrom, Reference, Survive, IsSquareRoot, Sound;
      hide Intersection.IsBest, Intersection.AreRegions, Intersection.IsPick, Filter;
      var served := Reference(LastGood(), now);
      var s, best, regions, pick := Intersection.Intersect(cand, served);
      survivors := s;
      SurvivorsAmong(cand, served, s, best, regions, pick);
      var least := if AnyPrimary(cand) then minSources else minSecondarySources;
      if |s| >= least && s != [] {
        var a := Combine(s, sqrt);
        HonestAnswer(s, a, now);
        c := Serve(a, now);
      } else {
        CoastStaysHonest(LastGood(), last, now, coastDriftPpm, coastSeconds, hostOffset);
        c := Coast(now, hostOffset);
      }
    }

    // ---- one whole pass ---------------------------------------------------------------------------

    /** A pass over the snapshots. The log gains what the judge and the latch saw; the pool is the
        class (or classes) that may serve; the answer is the survivors' when enough of them agree, and
        otherwise the last good one coasts. */
    method Pass(snaps: seq<Snapshot>, now: real, hostOffset: real)
        returns (c: Combined, ghost pool: seq<Candidate>, ghost survivors: seq<Candidate>)
      requires Valid() && now > 0.0 && LatestNow(flags) <= now
      requires DistinctSnapshots(snaps)
      requires forall s :: s in snaps ==> Plausible(s) && s.stratum >= 0
      modifies this
      ensures Valid() && last == c
      ensures judgements == old(judgements)
                + [Judgement(now, Gathered(snaps, now, coastDriftPpm, true), Gathered(snaps, now, coastDriftPpm, false))]
      ensures
        var j := judgements[|judgements| - 1];
        var primary := Filter(j.primary, Unrefused(smooth, judgements));
        var secondary := Filter(j.secondary, Unrefused(smooth, judgements));
        && flags == old(flags) + [Failover.Pass(now, Usable(primary, minSources), Usable(secondary, minSecondarySources))]
        && pool == Pool(clock.mode, onSecondary, primary, secondary)
      ensures PoolOf(snaps, now, coastDriftPpm, smooth, judgements, clock.mode, onSecondary, pool)
      ensures Fresh(c) <==> |survivors| >= (if AnyPrimary(pool) then minSources else minSecondarySources) && survivors != []
      ensures Fresh(c) && clock.mode != Failover.Always ==> c.serving == if onSecondary then Secondary else Primary
      ensures c.leapPending <==> Fresh(c) && forall k :: k in survivors ==> k.s.leapPending
      ensures AllSound(pool) && Survive(pool, Reference(old(LastGood()), now), survivors) && AllSound(survivors)
      ensures Concluded(survivors, if AnyPrimary(pool) then minSources else minSecondarySources, now, hostOffset,
                        coastDriftPpm, coastSeconds, old(LastGood()), LastGood(), c)
    {
      hide Survive, IsAnswer, Agreement.Run, Remembered, VerdictNow, Gathered, Eligible, Unrefused, Concluded, Served;
      hide Failover.Run, Failover.Step, IsSquareRoot, Agreement.IsSmoothing, Reference, LastGood;
      hide Latch, MemoryOf, Plausible, AnyPrimary, Usable, DistinctSnapshots, Sound, Filter, Timed, LatestNow;
      hide Pool, PoolOf, Fresh;
      var primary, secondary := Choose(snaps, now);
      var cand := Pool(clock.mode, onSecondary, primary, secondary);
      PoolIsOfBoth(clock.mode, onSecondary, primary, secondary);
      pool := cand;
      ghost var before := LastGood();
      c, survivors := Conclude(cand, now, hostOffset);
      PassMeans(snaps, now, hostOffset, coastDriftPpm, coastSeconds, smooth, judgements, clock.mode, onSecondary,
                pool, survivors, if AnyPrimary(pool) then minSources else minSecondarySources, before, LastGood(), c);
    }
  }
}
