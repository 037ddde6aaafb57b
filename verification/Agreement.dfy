/** The consensus within a class: each source's running disagreement with the class median, whether
    that convicts it, and the order to start over given to one refused for long. */
module Agreement {
  import opened Folds
  import opened Medians
  import opened Arithmetic

  const RESIDUAL_SETTLE_SEC := 120.0
  const REACQUIRE_AFTER_SEC := 300.0
  const REACQUIRE_MAX_SEC := 3600.0
  const MIN_PEERS_TO_JUDGE := 2
  const MAX_DISAGREEMENT_SEC := 0.030

  /** How a running average takes in a reading `dt` seconds after the last. */
  type Smoothing = (real, real, real) -> real

  /** The average moves towards the reading, and not past it. */
  ghost predicate IsSmoothing(smooth: Smoothing) {
    forall dt, x, y :: dt > 0.0 ==> Min(x, y) <= smooth(dt, x, y) <= Max(x, y)
  }

  /** The smoothing in use, with the gain 1 - exp(-dt / 300 s): of that figure only that it is a
      fraction matters. */
  function Exponential(gain: real -> real): Smoothing {
    (dt: real, x: real, y: real) => x + gain(dt) * (y - x)
  }

  lemma ExponentialSmooths(gain: real -> real)
    requires forall dt :: dt > 0.0 ==> 0.0 <= gain(dt) <= 1.0
    ensures IsSmoothing(Exponential(gain))
  {
    forall dt, x, y | dt > 0.0
      ensures Min(x, y) <= Exponential(gain)(dt, x, y) <= Max(x, y)
    {
      Between(x, y, gain(dt));
    }
  }

  lemma Between(x: real, y: real, g: real)
    requires 0.0 <= g <= 1.0
    ensures Min(x, y) <= x + g * (y - x) <= Max(x, y)
  {
    var d := y - x;
    Distribute(d, 1.0, g);
    if d >= 0.0 {
      NonNegativeProduct(g, d);
      NonNegativeProduct(d, 1.0 - g);
    } else {
      NonNegativeProduct(g, -d);
      NonNegativeProduct(-d, 1.0 - g);
      Distribute(-d, 1.0, g);
    }
  }

  /** One source against its class at one pass: how far it is from the class median, its own offset counted
      in, and how many others there were. */
  datatype Reading = Reading(instant: real, peers: int)

  datatype Residual = Residual(averaged: real, lastAt: real, firstAt: real, seeded: bool)

  const NoResidual := Residual(0.0, 0.0, 0.0, false)

  /** What is remembered of a source between passes. `refusedSince` is zero when it is not refused;
      `count` is the orders to start over since it was last accepted. */
  datatype Memory = Memory(residual: Residual, refusedSince: real, count: nat)

  const Fresh := Memory(NoResidual, 0.0, 0)

  datatype Verdict = Verdict(judged: bool, refused: bool, reacquire: bool)
  {
    predicate Accepted() { judged && !refused }
  }

  function Averaged(smooth: Smoothing, ra: Residual, now: real, r: Reading): Residual {
    if r.peers < MIN_PEERS_TO_JUDGE then
      ra.(lastAt := now)
    else if !ra.seeded then
      Residual(r.instant, now, now, true)
    else
      var dt := now - ra.lastAt;
      if dt > 0.0 then ra.(averaged := smooth(dt, ra.averaged, r.instant), lastAt := now)
      else ra.(lastAt := now)
  }

  function SettledFor(ra: Residual, now: real): real {
    if ra.seeded then now - ra.firstAt else 0.0
  }

  function Pow2(n: nat): real {
    if n == 0 then 1.0 else 2.0 * Pow2(n - 1)
  }

  /** How long a source stays refused before it is sent back, doubled at each time in a row. */
  function Wait(count: nat): real {
    Min(REACQUIRE_AFTER_SEC * Pow2(count), REACQUIRE_MAX_SEC)
  }

  function Judge(smooth: Smoothing, m: Memory, now: real, r: Reading): (Memory, Verdict) {
    var ra := Averaged(smooth, m.residual, now, r);
    var judged := r.peers >= MIN_PEERS_TO_JUDGE && SettledFor(ra, now) >= RESIDUAL_SETTLE_SEC;
    var refused := judged && Abs(if ra.seeded then ra.averaged else r.instant) > MAX_DISAGREEMENT_SEC;
    if refused then
      var since := if m.refusedSince <= 0.0 then now else m.refusedSince;
      if now - since >= Wait(m.count) then
        (Memory(NoResidual, 0.0, m.count + 1), Verdict(judged, true, true))
      else
        (Memory(ra, since, m.count), Verdict(judged, true, false))
    else if judged then
      (Memory(ra, 0.0, 0), Verdict(judged, false, false))
    else
      (Memory(ra, m.refusedSince, m.count), Verdict(false, false, false))
  }

  /** One pass for one source: it may not be a candidate, and then nothing is said of it. */
  datatype Pass = Pass(now: real, reading: Option<Reading>)

  const Silent := Verdict(false, false, false)

  function Step(smooth: Smoothing, m: Memory, p: Pass): (Memory, Verdict) {
    match p.reading
    case Some(r) => Judge(smooth, m, p.now, r)
    case None => (m, Silent)
  }

  function Run(smooth: Smoothing, ps: seq<Pass>): Memory {
    if ps == [] then Fresh else Step(smooth, Run(smooth, ps[..|ps| - 1]), ps[|ps| - 1]).0
  }

  function VerdictAt(smooth: Smoothing, ps: seq<Pass>, i: nat): Verdict
    requires i < |ps|
  {
    Step(smooth, Run(smooth, ps[..i]), ps[i]).1
  }

  lemma RunNext(smooth: Smoothing, ps: seq<Pass>, i: nat)
    requires i < |ps|
    ensures Run(smooth, ps[..i + 1]) == Step(smooth, Run(smooth, ps[..i]), ps[i]).0
  {
    assert ps[..i + 1][..i] == ps[..i];
  }

  ghost predicate InOrder(ps: seq<Pass>) {
    && (forall i :: 0 <= i < |ps| ==> ps[i].now > 0.0)
    && (forall i, j :: 0 <= i <= j < |ps| ==> ps[i].now <= ps[j].now)
  }

  // ---- who can be convicted ----------------------------------------------------------------------

  predicate Orders(smooth: Smoothing, ps: seq<Pass>, i: nat)
    requires i < |ps|
  {
    VerdictAt(smooth, ps, i).reacquire
  }

  /** The source has a reading, and peers enough to judge it by. */
  predicate Heard(p: Pass) {
    p.reading.Some? && p.reading.value.peers >= MIN_PEERS_TO_JUDGE
  }

  /** What is averaged began at a pass with peers enough, and the source was not sent back since. */
  lemma {:induction false} AverageBegan(smooth: Smoothing, ps: seq<Pass>) returns (j: nat)
    requires Run(smooth, ps).residual.seeded
    ensures j < |ps| && Heard(ps[j]) && Run(smooth, ps).residual.firstAt == ps[j].now
    ensures forall m :: j <= m < |ps| ==> !Orders(smooth, ps, m)
  {
    var n := |ps| - 1;
    var before := ps[..n];
    if Run(smooth, before).residual.seeded {
      j := AverageBegan(smooth, before);
      forall m | j <= m < n
        ensures !Orders(smooth, ps, m)
      {
        assert before[..m] == ps[..m];
        assert !Orders(smooth, before, m);
      }
    } else {
      j := n;
    }
  }

  /** With fewer than two peers nobody is refused, or said to be accepted; and to be either a source must
      have had them at a pass at least the settling time before, and not have been sent back since. */
  lemma TwoPeersToConvict(smooth: Smoothing, ps: seq<Pass>, i: nat)
    requires i < |ps|
    ensures !Heard(ps[i]) ==> VerdictAt(smooth, ps, i) == Silent
    ensures VerdictAt(smooth, ps, i).refused ==> VerdictAt(smooth, ps, i).judged
    ensures VerdictAt(smooth, ps, i).judged ==>
              exists j :: 0 <= j < i && Heard(ps[j]) && ps[i].now - ps[j].now >= RESIDUAL_SETTLE_SEC
                          && forall m :: j <= m < i ==> !Orders(smooth, ps, m)
  {
    if VerdictAt(smooth, ps, i).judged {
      var j := AverageBegan(smooth, ps[..i]);
      forall m | j <= m < i
        ensures !Orders(smooth, ps, m)
      {
        assert ps[..i][..m] == ps[..m];
        assert !Orders(smooth, ps[..i], m);
      }
    }
  }

  /** From a pass with peers enough on, with no order since, what is averaged began no later. */
  lemma {:induction false} AverageBeganBy(smooth: Smoothing, ps: seq<Pass>, j: nat)
    requires InOrder(ps) && j < |ps| && Heard(ps[j]) && forall m :: j <= m < |ps| ==> !Orders(smooth, ps, m)
    ensures Run(smooth, ps).residual.seeded && Run(smooth, ps).residual.firstAt <= ps[j].now
  {
    var n := |ps| - 1;
    var before := ps[..n];
    assert !Orders(smooth, ps, n);
    if Run(smooth, before).residual.seeded {
      var b := AverageBegan(smooth, before);
      assert before[b] == ps[b];
    }
    if j < n {
      forall m | j <= m < n
        ensures !Orders(smooth, before, m)
      {
        assert before[..m] == ps[..m];
        assert !Orders(smooth, ps, m);
      }
      AverageBeganBy(smooth, before, j);
    }
  }

  /** A source is judged at a pass exactly when it has two peers there, and had them at a pass at least the
      settling time before and has not been sent back since. */
  lemma JudgedExactly(smooth: Smoothing, ps: seq<Pass>, i: nat)
    requires InOrder(ps) && i < |ps|
    ensures VerdictAt(smooth, ps, i).judged
            <==> Heard(ps[i])
                 && exists j :: 0 <= j < i && Heard(ps[j]) && ps[i].now - ps[j].now >= RESIDUAL_SETTLE_SEC
                                && forall m :: j <= m < i ==> !Orders(smooth, ps, m)
  {
    TwoPeersToConvict(smooth, ps, i);
    if j :| 0 <= j < i && Heard(ps[i]) && Heard(ps[j]) && ps[i].now - ps[j].now >= RESIDUAL_SETTLE_SEC
            && forall m :: j <= m < i ==> !Orders(smooth, ps, m) {
      forall m | j <= m < i
        ensures !Orders(smooth, ps[..i], m)
      {
        assert ps[..i][..m] == ps[..m];
        assert !Orders(smooth, ps, m);
      }
      AverageBeganBy(smooth, ps[..i], j);
    }
  }

  /** Whether a pass judges the source fairly: if there are enough peers its residual is small. */
  predicate Near(p: Pass) {
    p.reading.Some? && p.reading.value.peers >= MIN_PEERS_TO_JUDGE ==>
      Abs(p.reading.value.instant) <= MAX_DISAGREEMENT_SEC
  }

  /** The average stays in the hull of the readings it is made of. */
  lemma {:induction false} AverageStaysNear(smooth: Smoothing, ps: seq<Pass>)
    requires IsSmoothing(smooth)
    requires forall i :: 0 <= i < |ps| ==> Near(ps[i])
    ensures Abs(Run(smooth, ps).residual.averaged) <= MAX_DISAGREEMENT_SEC
  {
    if ps != [] {
      var before, p := ps[..|ps| - 1], ps[|ps| - 1];
      AverageStaysNear(smooth, before);
      NearStep(smooth, Run(smooth, before), p);
    }
  }

  lemma NearStep(smooth: Smoothing, m: Memory, p: Pass)
    requires IsSmoothing(smooth) && Near(p) && Abs(m.residual.averaged) <= MAX_DISAGREEMENT_SEC
    ensures Abs(Step(smooth, m, p).0.residual.averaged) <= MAX_DISAGREEMENT_SEC
    ensures !Step(smooth, m, p).1.refused
  {
    if p.reading.Some? {
      var r, ra := p.reading.value, m.residual;
      assert Abs(Averaged(smooth, ra, p.now, r).averaged) <= MAX_DISAGREEMENT_SEC;
    }
  }

  function InBand(v: real): real -> bool { (x: real) => v - 0.015 <= x <= v + 0.015 }

  /** A strict majority of a class, a given member of it among them, lies within 15 ms of one value. */
  ghost predicate MajorityWith(offsets: seq<real>, mine: nat, v: real) {
    && mine < |offsets| && InBand(v)(offsets[mine])
    && 2 * Count(offsets, InBand(v)) > |offsets|
  }

  function ReadingOf(offsets: seq<real>, mine: nat): Reading
    requires mine < |offsets|
  {
    Reading(offsets[mine] - Median(offsets), |offsets| - 1)
  }

  /** However wrong the rest are, a member of the majority reads no more than 30 ms out. */
  lemma MajorityReadsNear(offsets: seq<real>, mine: nat, v: real)
    requires MajorityWith(offsets, mine, v)
    ensures Abs(ReadingOf(offsets, mine).instant) <= MAX_DISAGREEMENT_SEC
  {
    var band := (x: real) => v - 0.015 <= x <= v + 0.015;
    CountSame(offsets, InBand(v), band);
    MedianOfMajority(offsets, v - 0.015, v + 0.015);
  }

  /** One pass over the whole class of a source, which may be absent from it. */
  datatype ClassPass = ClassPass(now: real, offsets: seq<real>, mine: Option<nat>)

  predicate ValidClassPass(c: ClassPass) {
    c.mine.Some? ==> c.mine.value < |c.offsets|
  }

  function PassOf(c: ClassPass): Pass
    requires ValidClassPass(c)
  {
    Pass(c.now, if c.mine.Some? then Some(ReadingOf(c.offsets, c.mine.value)) else None)
  }

  function PassesOf(cs: seq<ClassPass>): (ps: seq<Pass>)
    requires forall i :: 0 <= i < |cs| ==> ValidClassPass(cs[i])
    ensures |ps| == |cs| && forall i :: 0 <= i < |cs| ==> ps[i] == PassOf(cs[i])
  {
    seq(|cs|, i requires 0 <= i < |cs| => PassOf(cs[i]))
  }

  /** In every run: a source that is in a strict majority lying within 15 ms of a common value at
      every pass where it has two peers, whatever that value is each time, is never refused. */
  lemma MajorityIsNeverRefused(smooth: Smoothing, cs: seq<ClassPass>, i: nat)
    requires IsSmoothing(smooth) && i < |cs|
    requires forall j :: 0 <= j < |cs| ==> ValidClassPass(cs[j])
    requires forall j :: 0 <= j < |cs| && cs[j].mine.Some? && |cs[j].offsets| - 1 >= MIN_PEERS_TO_JUDGE ==>
               exists v :: MajorityWith(cs[j].offsets, cs[j].mine.value, v)
    ensures !VerdictAt(smooth, PassesOf(cs), i).refused
  {
    var ps := PassesOf(cs);
    forall j | 0 <= j < |ps|
      ensures Near(ps[j])
    {
      if cs[j].mine.Some? && |cs[j].offsets| - 1 >= MIN_PEERS_TO_JUDGE {
        var v :| MajorityWith(cs[j].offsets, cs[j].mine.value, v);
        MajorityReadsNear(cs[j].offsets, cs[j].mine.value, v);
      }
    }
    AverageStaysNear(smooth, ps[..i]);
    NearStep(smooth, Run(smooth, ps[..i]), ps[i]);
  }

  // ---- who is convicted --------------------------------------------------------------------------

  /** On one side of zero, by more than a source may disagree. */
  predicate Astray(x: real, above: bool) {
    if above then x > MAX_DISAGREEMENT_SEC else x < -MAX_DISAGREEMENT_SEC
  }

  /** Wherever there are peers enough the source reads too far off, and always to the same side. */
  predicate ReadsAstray(p: Pass, above: bool) {
    Heard(p) ==> Astray(p.reading.value.instant, above)
  }

  lemma AstrayStep(smooth: Smoothing, m: Memory, p: Pass, above: bool)
    requires IsSmoothing(smooth) && ReadsAstray(p, above)
    requires m.residual.seeded ==> Astray(m.residual.averaged, above)
    ensures var t := Step(smooth, m, p).0; t.residual.seeded ==> Astray(t.residual.averaged, above)
    ensures Step(smooth, m, p).1.judged ==> Step(smooth, m, p).1.refused
  {
    if p.reading.Some? {
      var r, ra := p.reading.value, Averaged(smooth, m.residual, p.now, p.reading.value);
      assert ra.seeded ==> Astray(ra.averaged, above);
    }
  }

  lemma {:induction false} AverageGoesAstray(smooth: Smoothing, ps: seq<Pass>, b: nat, above: bool)
    requires IsSmoothing(smooth) && b <= |ps| && !Run(smooth, ps[..b]).residual.seeded
    requires forall m :: b <= m < |ps| ==> ReadsAstray(ps[m], above)
    ensures Run(smooth, ps).residual.seeded ==> Astray(Run(smooth, ps).residual.averaged, above)
  {
    if b == |ps| {
      assert ps[..b] == ps;
    } else {
      var before := ps[..|ps| - 1];
      assert before[..b] == ps[..b];
      AverageGoesAstray(smooth, before, b, above);
      AstrayStep(smooth, Run(smooth, before), ps[|ps| - 1], above);
    }
  }

  function Around(v: real, e: real): real -> bool { (x: real) => v - e <= x <= v + e }

  /** A strict majority of a class lies within `e` of some value, and a given member further from it than
      that and 30 ms more, to the side named. */
  ghost predicate OutOfStep(offsets: seq<real>, mine: nat, e: real, above: bool) {
    && mine < |offsets|
    && exists v :: 2 * Count(offsets, Around(v, e)) > |offsets|
                   && if above then offsets[mine] > v + (e + 0.030) else offsets[mine] < v - (e + 0.030)
  }

  lemma OutOfStepReadsAstray(offsets: seq<real>, mine: nat, e: real, above: bool)
    requires OutOfStep(offsets, mine, e, above)
    ensures Astray(ReadingOf(offsets, mine).instant, above)
  {
    var v :| 2 * Count(offsets, Around(v, e)) > |offsets|
             && if above then offsets[mine] > v + (e + 0.030) else offsets[mine] < v - (e + 0.030);
    CountSame(offsets, Around(v, e), (x: real) => v - e <= x <= v + e);
    MedianOfMajority(offsets, v - e, v + e);
  }

  /** Nothing is averaged of the source before pass `b`: it is the first, or follows an order. */
  predicate Afresh(smooth: Smoothing, ps: seq<Pass>, b: nat)
    requires b <= |ps|
  {
    b == 0 || Orders(smooth, ps, b - 1)
  }

  lemma AfreshIsUnseeded(smooth: Smoothing, ps: seq<Pass>, b: nat)
    requires b <= |ps| && Afresh(smooth, ps, b)
    ensures !Run(smooth, ps[..b]).residual.seeded
  {
    if b > 0 {
      RunNext(smooth, ps, b - 1);
    }
  }

  /** The same of a source's readings. */
  lemma AstrayIsRefused(smooth: Smoothing, ps: seq<Pass>, b: nat, j: nat, i: nat, above: bool)
    requires IsSmoothing(smooth) && InOrder(ps) && b <= j < i < |ps| && Afresh(smooth, ps, b)
    requires forall m :: b <= m <= i ==> ReadsAstray(ps[m], above)
    requires Heard(ps[j]) && Heard(ps[i]) && ps[i].now - ps[j].now >= RESIDUAL_SETTLE_SEC
    requires forall m :: j <= m < i ==> !Orders(smooth, ps, m)
    ensures VerdictAt(smooth, ps, i).refused
  {
    hide Step;
    AfreshIsUnseeded(smooth, ps, b);
    assert ps[..i][..b] == ps[..b];
    AverageGoesAstray(smooth, ps[..i], b, above);
    AstrayStep(smooth, Run(smooth, ps[..i]), ps[i], above);
    JudgedExactly(smooth, ps, i);
  }

  /** In every run: a source that since its average began has been too far to one side of a majority of its
      class, wherever it had two peers, is refused at every pass with two peers that comes the settling time
      or more after one, with no order to start over between. */
  lemma MinorityIsRefused(smooth: Smoothing, cs: seq<ClassPass>, b: nat, j: nat, i: nat, e: real, above: bool)
    requires forall m :: 0 <= m < |cs| ==> ValidClassPass(cs[m])
    requires IsSmoothing(smooth) && InOrder(PassesOf(cs)) && b <= j < i < |cs| && Afresh(smooth, PassesOf(cs), b)
    requires forall m :: b <= m <= i && cs[m].mine.Some? && |cs[m].offsets| - 1 >= MIN_PEERS_TO_JUDGE ==>
               OutOfStep(cs[m].offsets, cs[m].mine.value, e, above)
    requires forall m | m in {j, i} :: cs[m].mine.Some? && |cs[m].offsets| - 1 >= MIN_PEERS_TO_JUDGE
    requires cs[i].now - cs[j].now >= RESIDUAL_SETTLE_SEC
    requires forall m :: j <= m < i ==> !Orders(smooth, PassesOf(cs), m)
    ensures VerdictAt(smooth, PassesOf(cs), i).refused
  {
    hide VerdictAt, Orders, Afresh;
    var ps := PassesOf(cs);
    forall m | b <= m <= i
      ensures ReadsAstray(ps[m], above)
    {
      if cs[m].mine.Some? && |cs[m].offsets| - 1 >= MIN_PEERS_TO_JUDGE {
        OutOfStepReadsAstray(cs[m].offsets, cs[m].mine.value, e, above);
      }
    }
    AstrayIsRefused(smooth, ps, b, j, i, above);
  }

  // ---- how fast the average forgets ----------------------------------------------------------------

  /** What is left of a difference after so long: exp(-t / 300 s), of which only this is used. */
  ghost predicate IsDecay(decay: real -> real) {
    decay(0.0) == 1.0 && forall s, t :: s >= 0.0 && t >= 0.0 ==> Compounds(decay, s, t)
  }

  predicate Compounds(decay: real -> real, s: real, t: real) {
    decay(s + t) == decay(s) * decay(t)
  }

  function Gain(decay: real -> real): real -> real { (dt: real) => 1.0 - decay(dt) }

  /** The latest pass with a reading, from pass `j` on and before pass `n`. */
  function LastRead(ps: seq<Pass>, j: nat, n: nat): (m: nat)
    requires j < n <= |ps|
    ensures j <= m < n
  {
    if n - 1 == j || ps[n - 1].reading.Some? then n - 1 else LastRead(ps, j, n - 1)
  }

  /** The time that readings with peers enough account for: each that since the reading before it. */
  function HeardTime(ps: seq<Pass>, j: nat, n: nat): real
    requires j < n <= |ps|
  {
    if n - 1 == j then 0.0
    else HeardTime(ps, j, n - 1) + if Heard(ps[n - 1]) then ps[n - 1].now - ps[LastRead(ps, j, n - 1)].now else 0.0
  }

  lemma {:induction false} HeardTimeIsPositive(ps: seq<Pass>, j: nat, n: nat)
    requires InOrder(ps) && j < n <= |ps|
    ensures HeardTime(ps, j, n) >= 0.0
  {
    if n - 1 > j {
      HeardTimeIsPositive(ps, j, n - 1);
      assert ps[LastRead(ps, j, n - 1)].now <= ps[n - 1].now;
    }
  }

  lemma {:induction false} StillUnseeded(smooth: Smoothing, ps: seq<Pass>, b: nat, j: nat)
    requires b <= j <= |ps| && Afresh(smooth, ps, b) && forall m :: b <= m < j ==> !Heard(ps[m])
    ensures !Run(smooth, ps[..j]).residual.seeded
  {
    if j == b {
      AfreshIsUnseeded(smooth, ps, b);
    } else {
      StillUnseeded(smooth, ps, b, j - 1);
      RunNext(smooth, ps, j - 1);
    }
  }

  lemma Forgets(decay: real -> real, a: real, x: real, y: real, left: real, dt: real)
    requires IsDecay(decay) && left >= 0.0 && dt >= 0.0 && a - x == Times(y - x, decay(left))
    ensures a + (1.0 - decay(dt)) * (x - a) - x == Times(y - x, decay(left + dt))
  {
    var d, l, k := decay(dt), decay(left), y - x;
    assert Compounds(decay, left, dt);
    assert a - x == k * l;
    assert a + (1.0 - d) * (x - a) - x == d * (k * l);
  }

  lemma StepForgets(decay: real -> real, m: Memory, p: Pass, x: real)
    requires m.residual.seeded && (Heard(p) ==> p.reading.value.instant == x) && m.residual.lastAt <= p.now
    requires IsDecay(decay) && !Step(Exponential(Gain(decay)), m, p).1.reacquire
    ensures
      var before, after := m.residual, Step(Exponential(Gain(decay)), m, p).0.residual;
      && after.seeded && after.lastAt == (if p.reading.Some? then p.now else before.lastAt)
      && after.averaged == if Heard(p) then before.averaged + (1.0 - decay(p.now - before.lastAt)) * (x - before.averaged)
                           else before.averaged
  {
  }

  lemma StepSeeds(decay: real -> real, m: Memory, p: Pass)
    requires !m.residual.seeded && Heard(p) && !Step(Exponential(Gain(decay)), m, p).1.reacquire
    ensures Step(Exponential(Gain(decay)), m, p).0.residual == Residual(p.reading.value.instant, p.now, p.now, true)
  {
  }

  lemma NothingForgotten(decay: real -> real, x: real)
    requires IsDecay(decay)
    ensures Times(x, decay(0.0)) == x
  {
  }

  /** However the passes fall: of what the first reading differs by from one that all the others give, the
      average has left what the decay leaves over the time they account for. Passes without peers enough
      add nothing, nor does the time up to them. */
  lemma {:induction false} AverageForgets(decay: real -> real, ps: seq<Pass>, b: nat, j: nat, n: nat, x: real)
    requires IsDecay(decay) && InOrder(ps) && b <= j < n <= |ps| && Afresh(Exponential(Gain(decay)), ps, b)
    requires Heard(ps[j]) && forall m :: b <= m < j ==> !Heard(ps[m])
    requires forall m :: j < m < n && Heard(ps[m]) ==> ps[m].reading.value.instant == x
    requires forall m :: j <= m < n ==> !Orders(Exponential(Gain(decay)), ps, m)
    ensures
      var ra := Run(Exponential(Gain(decay)), ps[..n]).residual;
      && ra.seeded && ra.lastAt == ps[LastRead(ps, j, n)].now
      && ra.averaged - x == Times(ps[j].reading.value.instant - x, decay(HeardTime(ps, j, n)))
  {
    hide Step, Run, Afresh, IsDecay, Times;
    var smooth := Exponential(Gain(decay));
    RunNext(smooth, ps, n - 1);
    assert !Orders(smooth, ps, n - 1);
    var m, p := Run(smooth, ps[..n - 1]), ps[n - 1];
    if n - 1 == j {
      StillUnseeded(smooth, ps, b, j);
      StepSeeds(decay, m, p);
      NothingForgotten(decay, p.reading.value.instant - x);
    } else {
      AverageForgets(decay, ps, b, j, n - 1, x);
      StepForgets(decay, m, p, x);
      HeardTimeIsPositive(ps, j, n - 1);
      if Heard(p) {
        Forgets(decay, m.residual.averaged, x, ps[j].reading.value.instant, HeardTime(ps, j, n - 1), p.now - m.residual.lastAt);
      }
    }
  }

  // ---- how often a source is sent back ------------------------------------------------------------

  /** Nothing happened to the source between `i` and `j`: it was neither accepted nor sent back. */
  predicate Quiet(smooth: Smoothing, ps: seq<Pass>, i: nat, j: nat)
    requires i < j <= |ps|
  {
    forall m :: i < m < j ==> !VerdictAt(smooth, ps, m).Accepted() && !Orders(smooth, ps, m)
  }

  /** How many times in a row a source has been sent back is what its backoff counts. */
  lemma {:induction false} CountIsOrdersInARow(smooth: Smoothing, ps: seq<Pass>)
    ensures Run(smooth, ps).count == OrdersInARow(smooth, ps)
  {
    if ps != [] {
      CountIsOrdersInARow(smooth, ps[..|ps| - 1]);
    }
  }

  function OrdersInARow(smooth: Smoothing, ps: seq<Pass>): nat {
    if ps == [] then 0
    else
      var before := OrdersInARow(smooth, ps[..|ps| - 1]);
      var v := VerdictAt(smooth, ps, |ps| - 1);
      if v.Accepted() then 0 else before + if v.reacquire then 1 else 0
  }

  /** After an order the source starts afresh: its settling time and its refusal both count from
      readings taken later. */
  lemma {:induction false} StartsAfresh(smooth: Smoothing, ps: seq<Pass>, i: nat, j: nat)
    requires InOrder(ps) && i < j <= |ps| && Orders(smooth, ps, i) && Quiet(smooth, ps, i, j)
    ensures
      var m := Run(smooth, ps[..j]);
      && m.count == Run(smooth, ps[..i + 1]).count
      && (m.residual.seeded ==> m.residual.firstAt >= ps[i].now)
      && (m.refusedSince == 0.0 || m.refusedSince >= ps[i].now + RESIDUAL_SETTLE_SEC)
    decreases j
  {
    RunNext(smooth, ps, j - 1);
    if j > i + 1 {
      StartsAfresh(smooth, ps, i, j - 1);
      assert !VerdictAt(smooth, ps, j - 1).Accepted() && !Orders(smooth, ps, j - 1);
    }
  }

  lemma WaitIsLong(n: nat)
    ensures Wait(n) >= REACQUIRE_AFTER_SEC
  {
    Pow2AtLeastOne(n);
  }

  lemma {:induction false} Pow2AtLeastOne(n: nat)
    ensures Pow2(n) >= 1.0
  {
    if n > 0 {
      Pow2AtLeastOne(n - 1);
    }
  }

  /** In every run, across passes where the source is missing or cannot be judged: two orders to it
      with no accepting verdict between them are apart by the settling time and the wait that has
      grown with the orders in a row so far. */
  lemma OrdersAreApart(smooth: Smoothing, ps: seq<Pass>, i: nat, j: nat)
    requires InOrder(ps) && i < j < |ps|
    requires Orders(smooth, ps, i) && Orders(smooth, ps, j) && Quiet(smooth, ps, i, j)
    ensures ps[j].now - ps[i].now >= RESIDUAL_SETTLE_SEC + Wait(OrdersInARow(smooth, ps[..i + 1]))
  {
    StartsAfresh(smooth, ps, i, j);
    CountIsOrdersInARow(smooth, ps[..i + 1]);
    WaitIsLong(Run(smooth, ps[..j]).count);
  }

  // ---- when a source is sent back ------------------------------------------------------------------

  /** Refused at `r`, and neither accepted nor sent back from then until before `i`. */
  predicate RefusedFrom(smooth: Smoothing, ps: seq<Pass>, r: nat, i: nat)
    requires r < |ps| && i <= |ps|
  {
    VerdictAt(smooth, ps, r).refused && forall m :: r <= m < i ==> LeftAsItWas(smooth, ps, m)
  }

  /** Neither accepted at the pass nor sent back. */
  predicate LeftAsItWas(smooth: Smoothing, ps: seq<Pass>, m: nat)
    requires m < |ps|
  {
    !VerdictAt(smooth, ps, m).Accepted() && !Orders(smooth, ps, m)
  }

  /** What is remembered as the start of a refusal is the earliest such pass. */
  lemma {:induction false} RefusalBegan(smooth: Smoothing, ps: seq<Pass>, n: nat) returns (r: nat)
    requires InOrder(ps) && n <= |ps|
    ensures Run(smooth, ps[..n]).refusedSince != 0.0 ==>
              r < n && RefusedFrom(smooth, ps, r, n) && Run(smooth, ps[..n]).refusedSince == ps[r].now
    ensures forall q :: 0 <= q < n && RefusedFrom(smooth, ps, q, n) ==> 0.0 < Run(smooth, ps[..n]).refusedSince <= ps[q].now
    ensures Run(smooth, ps[..n]).refusedSince >= 0.0
  {
    r := 0;
    if n > 0 {
      r := RefusalBegan(smooth, ps, n - 1);
      RefusalNext(smooth, ps, n - 1);
      RefusedOn(smooth, ps, n - 1);
      hide Run, RefusedFrom, LeftAsItWas, VerdictAt;
      if Run(smooth, ps[..n - 1]).refusedSince == 0.0 {
        r := n - 1;
      }
    }
  }

  lemma RefusedOn(smooth: Smoothing, ps: seq<Pass>, n: nat)
    requires n < |ps|
    ensures RefusedFrom(smooth, ps, n, n + 1) <==> VerdictAt(smooth, ps, n).refused && LeftAsItWas(smooth, ps, n)
    ensures forall q: nat :: q < n ==>
              (RefusedFrom(smooth, ps, q, n + 1) <==> RefusedFrom(smooth, ps, q, n) && LeftAsItWas(smooth, ps, n))
  {
    hide VerdictAt, LeftAsItWas;
    forall q: nat | q < n
      ensures RefusedFrom(smooth, ps, q, n + 1) <==> RefusedFrom(smooth, ps, q, n) && LeftAsItWas(smooth, ps, n)
    {
    }
  }

  /** An acceptance or an order ends a refusal, and the first refusal after one begins another. */
  lemma RefusalNext(smooth: Smoothing, ps: seq<Pass>, n: nat)
    requires n < |ps| && ps[n].now > 0.0 && Run(smooth, ps[..n]).refusedSince >= 0.0
    ensures
      var since := Run(smooth, ps[..n]).refusedSince;
      Run(smooth, ps[..n + 1]).refusedSince
      == if !LeftAsItWas(smooth, ps, n) then 0.0
         else if VerdictAt(smooth, ps, n).refused && since == 0.0 then ps[n].now
         else since
  {
    RunNext(smooth, ps, n);
    hide Averaged, Run;
  }

  /** A source is sent back exactly when it is refused and has been, without once being accepted or sent
      back, for the wait that has grown with the orders in a row so far. */
  lemma SentBackExactly(smooth: Smoothing, ps: seq<Pass>, i: nat)
    requires InOrder(ps) && i < |ps|
    ensures Orders(smooth, ps, i)
            <==> VerdictAt(smooth, ps, i).refused
                 && exists r :: 0 <= r <= i && RefusedFrom(smooth, ps, r, i)
                                && ps[i].now - ps[r].now >= Wait(OrdersInARow(smooth, ps[..i]))
  {
    var b := RefusalBegan(smooth, ps, i);
    CountIsOrdersInARow(smooth, ps[..i]);
    WaitIsLong(Run(smooth, ps[..i]).count);
  }
}
