/** The level while the jitter spikes: the last calm one is carried on at the rate, until there has been
    calm for a minute, or for ten minutes at the most, and the gap left is slewed out. */
module SpikeHold {
  import opened Folds
  import opened Medians
  import opened Arithmetic

  const SPIKE_FACTOR := 5.0
  const SPIKE_FLOOR_SEC := 0.0001
  const CALM_FRACTION := 0.5
  const BASELINE_EVERY_SEC := 10.0
  const BASELINE_WINDOW_SEC := 1800.0
  const BASELINE_MIN_RECORDS := 60
  const MAX_CALM_AGE_SEC := 300.0
  const CALM_TO_RELEASE_SEC := 60.0
  const MAX_HOLD_SEC := 600.0
  const REJOIN_SEC := 60.0
  const REJOIN_MIN_SLEW := 0.00001

  /** What one recompute hands over: when, the live level, its jitter and the rate carrying it. */
  datatype Reading = Reading(at: real, live: real, jitter: real, rate: real)

  datatype Record = Record(at: real, jitter: real)

  datatype Hold = Hold(
    history: seq<Record>, nextRecordAt: real,
    haveCalm: bool, calmAt: real, calmOffset: real,
    holding: bool, holdStart: real, calmSince: real, rearmOnCalm: bool,
    gap: real, gapSlew: real, lastAt: real, holds: nat, timedOut: nat)

  const Initial := Hold([], 0.0, false, 0.0, 0.0, false, 0.0, -1.0, false, 0.0, 0.0, 0.0, 0, 0)

  /** A cleared source starts again: nothing held, no gap, no calm level and no jitter history. */
  function Cleared(h: Hold): Hold {
    h.(history := [], nextRecordAt := 0.0, haveCalm := false, holding := false, calmSince := -1.0,
       rearmOnCalm := false, gap := 0.0, gapSlew := 0.0, lastAt := 0.0)
  }

  /** The records no older than `cutoff`, dropped from the front. */
  function Recent(history: seq<Record>, cutoff: real): seq<Record> {
    if history != [] && history[0].at < cutoff then Recent(history[1..], cutoff) else history
  }

  function Recorded(h: Hold, r: Reading): seq<Record> {
    Recent(if !h.holding && r.at >= h.nextRecordAt then h.history + [Record(r.at, r.jitter)] else h.history,
           r.at - BASELINE_WINDOW_SEC)
  }

  predicate Armed(history: seq<Record>) {
    |history| >= BASELINE_MIN_RECORDS
  }

  function Jitters(history: seq<Record>): (js: seq<real>)
    ensures |js| == |history| && forall i :: 0 <= i < |js| ==> js[i] == history[i].jitter
  {
    seq(|history|, i requires 0 <= i < |history| => history[i].jitter)
  }

  /** Past this the jitter is a spike; at half of it or less it is calm. */
  function Threshold(history: seq<Record>): real
    requires Armed(history)
  {
    Max(SPIKE_FLOOR_SEC, SPIKE_FACTOR * Median(Jitters(history)))
  }

  predicate Spiking(history: seq<Record>, jitter: real) {
    Armed(history) && jitter > Threshold(history)
  }

  /** Half the spike threshold; zero with no baseline. */
  function CalmLevel(history: seq<Record>): real {
    if Armed(history) then CALM_FRACTION * Threshold(history) else 0.0
  }

  /** While nothing is held, a source with no baseline yet is taken to be calm. */
  predicate Calm(history: seq<Record>, jitter: real) {
    !Armed(history) || jitter <= CalmLevel(history)
  }

  /** What is left of a gap after slewing it by `step`. */
  function Slewed(gap: real, step: real): real {
    if Abs(gap) <= step then 0.0 else if gap > 0.0 then gap - step else gap + step
  }

  /** What is left of it after slewing it for so long. */
  function Shrunk(gap: real, slew: real, seconds: real): real {
    Slewed(gap, slew * seconds)
  }

  function SinceLast(h: Hold, at: real): real {
    if h.lastAt > 0.0 then Max(0.0, at - h.lastAt) else 0.0
  }

  function GapLeft(h: Hold, at: real): real {
    Shrunk(h.gap, h.gapSlew, SinceLast(h, at))
  }

  predicate StartsHold(h: Hold, r: Reading) {
    && !h.holding && Spiking(Recorded(h, r), r.jitter) && !h.rearmOnCalm
    && h.haveCalm && r.at - h.calmAt <= MAX_CALM_AGE_SEC
  }

  /** The state once a reading has been taken in and a hold perhaps begun, before one is ended. */
  function Before(h: Hold, r: Reading): Hold {
    var history := Recorded(h, r);
    var gap := GapLeft(h, r.at);
    var h1 := h.(history := history, gap := gap, lastAt := r.at,
                 nextRecordAt := if !h.holding && r.at >= h.nextRecordAt then r.at + BASELINE_EVERY_SEC else h.nextRecordAt);
    if StartsHold(h, r) then
      h1.(holding := true, holdStart := r.at, calmSince := -1.0, holds := h.holds + 1)
    else if !h.holding && Calm(history, r.jitter) then
      h1.(haveCalm := true, calmAt := r.at, calmOffset := r.live + gap, rearmOnCalm := false)
    else
      h1
  }

  /** The level held: the last calm one, carried along the rate. */
  function Held(h: Hold, r: Reading): real {
    h.calmOffset + r.rate * (r.at - h.calmAt)
  }

  /** Since when the jitter has been calm while holding; negative if it is not now. */
  function CalmSince(h: Hold, r: Reading): real {
    if r.jitter <= CalmLevel(h.history) then (if h.calmSince < 0.0 then r.at else h.calmSince) else -1.0
  }

  /** One recompute: the new state, and the level published. */
  function Step(h: Hold, r: Reading): (Hold, real) {
    var b := Before(h, r);
    if !b.holding then
      (b, r.live + b.gap)
    else
      var held, since := Held(b, r), CalmSince(b, r);
      var settled := since >= 0.0 && r.at - since >= CALM_TO_RELEASE_SEC;
      if settled || r.at - b.holdStart >= MAX_HOLD_SEC then
        var gap := held - r.live;
        (b.(holding := false, calmSince := since, gap := gap, haveCalm := false,
            gapSlew := Max(REJOIN_MIN_SLEW, Abs(gap) / REJOIN_SEC),
            timedOut := if settled then b.timedOut else b.timedOut + 1,
            rearmOnCalm := b.rearmOnCalm || !settled), held)
      else
        (b.(calmSince := since), held)
  }

  // ---- one step, one question at a time ------------------------------------------------------------

  lemma StepHolds(h: Hold, r: Reading)
    requires Step(h, r).0.holding
    ensures Step(h, r).0.holdStart == if h.holding then h.holdStart else r.at
    ensures r.at - Step(h, r).0.holdStart < MAX_HOLD_SEC
    ensures !h.holding ==> StartsHold(h, r)
  {
    hide Spiking, Recorded, GapLeft, Calm, CalmSince, Held;
  }

  /** Unless a hold is released, the gap is slewed on and nothing else happens to it. */
  lemma StepSlews(h: Hold, r: Reading)
    requires !(Before(h, r).holding && !Step(h, r).0.holding)
    ensures Step(h, r).0.gap == GapLeft(h, r.at) && Step(h, r).0.gapSlew == h.gapSlew
  {
    hide StartsHold, Recorded, GapLeft, Calm, CalmSince, Held;
  }

  lemma StepDates(h: Hold, r: Reading)
    ensures Step(h, r).0.lastAt == r.at
    ensures h.gapSlew >= 0.0 ==> Step(h, r).0.gapSlew >= 0.0
  {
    hide StartsHold, Recorded, GapLeft, Calm, CalmSince, Held;
  }

  /** A release forgets the calm level, and only a calm reading sets another. */
  lemma StepForgets(h: Hold, r: Reading)
    ensures Before(h, r).holding && !Step(h, r).0.holding ==> !Step(h, r).0.haveCalm
    ensures !h.holding && !h.haveCalm && !Calm(Recorded(h, r), r.jitter) ==>
              !Step(h, r).0.holding && !Step(h, r).0.haveCalm
    ensures StartsHold(h, r) ==> !h.holding && h.haveCalm
  {
    hide Spiking, Recorded, GapLeft, Calm, CalmSince, Held;
  }

  lemma StepRecords(h: Hold, r: Reading)
    ensures Step(h, r).0.history == Recorded(h, r)
    ensures Step(h, r).0.nextRecordAt ==
              if !h.holding && r.at >= h.nextRecordAt then r.at + BASELINE_EVERY_SEC else h.nextRecordAt
  {
    hide StartsHold, Recorded, GapLeft, Calm, CalmSince, Held;
  }

  // ---- runs --------------------------------------------------------------------------------------

  /** The state after readings taken since the source was last cleared. */
  function Run(h0: Hold, rs: seq<Reading>): Hold {
    if rs == [] then Cleared(h0) else Step(Run(h0, rs[..|rs| - 1]), rs[|rs| - 1]).0
  }

  function At(h0: Hold, rs: seq<Reading>, i: nat): Hold
    requires i <= |rs|
  {
    Run(h0, rs[..i])
  }

  function Published(h0: Hold, rs: seq<Reading>, i: nat): real
    requires i < |rs|
  {
    Step(At(h0, rs, i), rs[i]).1
  }

  lemma AtNext(h0: Hold, rs: seq<Reading>, i: nat)
    requires i < |rs|
    ensures At(h0, rs, i + 1) == Step(At(h0, rs, i), rs[i]).0
  {
    assert rs[..i + 1][..i] == rs[..i];
  }

  ghost predicate InOrder(rs: seq<Reading>) {
    && (forall i :: 0 <= i < |rs| ==> rs[i].at > 0.0)
    && (forall i, j :: 0 <= i <= j < |rs| ==> rs[i].at <= rs[j].at)
  }

  predicate Begins(h0: Hold, rs: seq<Reading>, i: nat)
    requires i < |rs|
  {
    StartsHold(At(h0, rs, i), rs[i])
  }

  /** A hold, perhaps begun at this very reading, ends at it. */
  predicate Releases(h0: Hold, rs: seq<Reading>, i: nat)
    requires i < |rs|
  {
    Before(At(h0, rs, i), rs[i]).holding && !At(h0, rs, i + 1).holding
  }

  // ---- a hold always ends --------------------------------------------------------------------------

  lemma NotHolding(h: Hold, r: Reading)
    requires StartsHold(h, r)
    ensures !h.holding
  {
  }

  lemma {:induction false} HeldSince(h0: Hold, rs: seq<Reading>, i: nat, j: nat)
    requires InOrder(rs) && i < j <= |rs| && Begins(h0, rs, i)
    requires forall m :: i < m <= j ==> At(h0, rs, m).holding
    ensures At(h0, rs, j).holdStart == rs[i].at
    ensures rs[j - 1].at - rs[i].at < MAX_HOLD_SEC
  {
    hide Step, StartsHold;
    AtNext(h0, rs, j - 1);
    StepHolds(At(h0, rs, j - 1), rs[j - 1]);
    if j > i + 1 {
      HeldSince(h0, rs, i, j - 1);
    } else {
      NotHolding(At(h0, rs, i), rs[i]);
    }
  }

  /** Every hold has ended by the first recompute ten minutes or more after it began. */
  lemma HoldEnds(h0: Hold, rs: seq<Reading>, i: nat, j: nat)
    requires InOrder(rs) && i < j < |rs| && Begins(h0, rs, i)
    requires rs[j].at - rs[i].at >= MAX_HOLD_SEC
    ensures exists m :: i < m <= j + 1 && !At(h0, rs, m).holding
  {
    if forall m :: i < m <= j + 1 ==> At(h0, rs, m).holding {
      HeldSince(h0, rs, i, j + 1);
    }
  }

  // ---- its end is not a step -----------------------------------------------------------------------

  /** At its release the level published is still the held one, which is the live level plus the gap then
      left to slew; and the slew closes it in a minute, or sooner a gap of less than 0.6 ms. */
  lemma ReleaseIsNoStep(h0: Hold, rs: seq<Reading>, i: nat)
    requires i < |rs| && Releases(h0, rs, i)
    ensures
      var h := At(h0, rs, i + 1);
      && Published(h0, rs, i) == Held(Before(At(h0, rs, i), rs[i]), rs[i]) == rs[i].live + h.gap
      && h.gapSlew * 60.0 == Max(Abs(h.gap), 0.0006)
  {
    AtNext(h0, rs, i);
    var gap := At(h0, rs, i + 1).gap;
    assert Abs(gap) / REJOIN_SEC * REJOIN_SEC == Abs(gap);
  }

  /** Outside a hold the level published is the live one plus what is left of the gap. */
  lemma PublishedIsLivePlusGap(h0: Hold, rs: seq<Reading>, i: nat)
    requires i < |rs| && !Before(At(h0, rs, i), rs[i]).holding
    ensures Published(h0, rs, i) == rs[i].live + At(h0, rs, i + 1).gap
  {
    AtNext(h0, rs, i);
  }

  lemma SlewedTwice(gap: real, a: real, b: real)
    requires a >= 0.0 && b >= 0.0
    ensures Slewed(Slewed(gap, a), b) == Slewed(gap, a + b)
  {
  }

  lemma {:induction false} LastAt(h0: Hold, rs: seq<Reading>)
    ensures Run(h0, rs).lastAt == if rs == [] then 0.0 else rs[|rs| - 1].at
    ensures Run(h0, rs).gapSlew >= 0.0
  {
    hide Step;
    if rs != [] {
      LastAt(h0, rs[..|rs| - 1]);
      StepDates(Run(h0, rs[..|rs| - 1]), rs[|rs| - 1]);
    }
  }

  lemma SlewOn(gap: real, slew: real, before: real, dt: real)
    requires slew >= 0.0 && before >= 0.0 && dt >= 0.0
    ensures Shrunk(Shrunk(gap, slew, before), slew, dt) == Shrunk(gap, slew, before + dt)
  {
    Ordered(slew, 0.0, before);
    Ordered(slew, 0.0, dt);
    SlewedTwice(gap, slew * before, slew * dt);
    Distribute(slew, before, dt);
  }

  lemma NothingSlewed(gap: real, slew: real)
    ensures Shrunk(gap, slew, 0.0) == gap
  {
  }

  /** From a release until another, through whatever holds begin, what is left of the gap is the gap
      less the slew over all the time that has passed. */
  lemma {:induction false} GapShrinks(h0: Hold, rs: seq<Reading>, i: nat, j: nat)
    requires InOrder(rs) && i < j <= |rs|
    requires forall m :: i < m < j ==> !Releases(h0, rs, m)
    ensures
      var h := At(h0, rs, i + 1);
      && At(h0, rs, j).gapSlew == h.gapSlew >= 0.0
      && At(h0, rs, j).gap == Shrunk(h.gap, h.gapSlew, rs[j - 1].at - rs[i].at)
  {
    hide Step, Before, Shrunk;
    LastAt(h0, rs[..i + 1]);
    var h := At(h0, rs, i + 1);
    if j == i + 1 {
      NothingSlewed(h.gap, h.gapSlew);
    } else {
      GapShrinks(h0, rs, i, j - 1);
      AtNext(h0, rs, j - 1);
      LastAt(h0, rs[..j - 1]);
      assert !Releases(h0, rs, j - 1);
      StepSlews(At(h0, rs, j - 1), rs[j - 1]);
      var before, dt := rs[j - 2].at - rs[i].at, rs[j - 1].at - rs[j - 2].at;
      assert SinceLast(At(h0, rs, j - 1), rs[j - 1].at) == dt;
      SlewOn(h.gap, h.gapSlew, before, dt);
      assert before + dt == rs[j - 1].at - rs[i].at;
    }
  }

  lemma SlewedOrder(gap: real, a: real, b: real)
    requires 0.0 <= a <= b
    ensures Abs(Slewed(gap, b)) <= Abs(Slewed(gap, a)) <= Abs(gap)
    ensures gap >= 0.0 ==> Slewed(gap, b) >= 0.0
    ensures gap <= 0.0 ==> Slewed(gap, b) <= 0.0
  {
  }

  lemma ShrunkMore(gap: real, slew: real, t: real, t': real)
    requires slew >= 0.0 && 0.0 <= t <= t' && slew * REJOIN_SEC >= Abs(gap)
    ensures
      var g', g'' := Shrunk(gap, slew, t), Shrunk(gap, slew, t');
      && Abs(g'') <= Abs(g') <= Abs(gap)
      && (gap >= 0.0 ==> g'' >= 0.0) && (gap <= 0.0 ==> g'' <= 0.0)
      && (t' >= REJOIN_SEC ==> g'' == 0.0)
  {
    NonNegativeProduct(slew, t);
    Ordered(slew, t, t');
    SlewedOrder(gap, slew * t, slew * t');
    if t' >= REJOIN_SEC {
      Ordered(slew, REJOIN_SEC, t');
    }
  }

  /** So it keeps its sign, only ever shrinks, and is gone a minute after the release. */
  lemma GapCloses(h0: Hold, rs: seq<Reading>, i: nat, j: nat, k: nat)
    requires InOrder(rs) && i < j <= k <= |rs| && Releases(h0, rs, i)
    requires forall m :: i < m < k ==> !Releases(h0, rs, m)
    ensures
      var g, g', g'' := At(h0, rs, i + 1).gap, At(h0, rs, j).gap, At(h0, rs, k).gap;
      && Abs(g'') <= Abs(g') <= Abs(g)
      && (g >= 0.0 ==> g'' >= 0.0) && (g <= 0.0 ==> g'' <= 0.0)
      && (rs[k - 1].at - rs[i].at >= REJOIN_SEC ==> g'' == 0.0)
  {
    hide Step, Before, Shrunk;
    var h := At(h0, rs, i + 1);
    ReleaseIsNoStep(h0, rs, i);
    GapShrinks(h0, rs, i, j);
    GapShrinks(h0, rs, i, k);
    ShrunkMore(h.gap, h.gapSlew, rs[j - 1].at - rs[i].at, rs[k - 1].at - rs[i].at);
  }

  // ---- no hold straight after another ----------------------------------------------------------------

  /** A reading taken as calm, outside any hold. */
  predicate CalmReading(h0: Hold, rs: seq<Reading>, i: nat)
    requires i < |rs|
  {
    !At(h0, rs, i).holding && !Begins(h0, rs, i) && Calm(Recorded(At(h0, rs, i), rs[i]), rs[i].jitter)
  }

  lemma {:induction false} NoCalmYet(h0: Hold, rs: seq<Reading>, i: nat, j: nat)
    requires i < j <= |rs| && Releases(h0, rs, i)
    requires forall m :: i < m < j ==> !CalmReading(h0, rs, m)
    ensures !At(h0, rs, j).holding && !At(h0, rs, j).haveCalm
  {
    hide Step, Before, Calm, StartsHold;
    AtNext(h0, rs, j - 1);
    StepForgets(At(h0, rs, j - 1), rs[j - 1]);
    if j > i + 1 {
      NoCalmYet(h0, rs, i, j - 1);
      assert !CalmReading(h0, rs, j - 1);
    }
  }

  /** However a hold ended, timed out or settled, no other begins before a reading that is calm: at no
      more than half the spike threshold, or with too little history for there to be one. */
  lemma CalmBetweenHolds(h0: Hold, rs: seq<Reading>, i: nat, j: nat)
    requires i < j < |rs| && Releases(h0, rs, i) && Begins(h0, rs, j)
    ensures exists m :: i < m < j && CalmReading(h0, rs, m)
  {
    hide Step, Before, Calm, Spiking;
    if forall m :: i < m < j ==> !CalmReading(h0, rs, m) {
      NoCalmYet(h0, rs, i, j);
    }
  }

  // ---- what begins a hold, and what is held -----------------------------------------------------------

  /** With sixty records or more, a jitter over five times their median, and over a tenth of a millisecond. */
  predicate Spikes(history: seq<Record>, jitter: real) {
    |history| >= 60 && jitter > 0.0001 && jitter > 5.0 * Median(Jitters(history))
  }

  /** At half of that or less; with fewer records, no jitter at all. */
  predicate IsQuiet(history: seq<Record>, jitter: real) {
    if |history| >= 60 then jitter <= 0.00005 || jitter <= 2.5 * Median(Jitters(history)) else jitter <= 0.0
  }

  lemma SpikesIs(history: seq<Record>, jitter: real)
    ensures Spiking(history, jitter) <==> Spikes(history, jitter)
    ensures jitter <= CalmLevel(history) <==> IsQuiet(history, jitter)
    ensures Calm(history, jitter) <==> |history| < 60 || IsQuiet(history, jitter)
  {
    hide Median;
  }

  /** The latest calm reading before reading `i`, if no hold has been released since. */
  function LastCalm(h0: Hold, rs: seq<Reading>, i: nat): (c: Option<nat>)
    requires i <= |rs|
    ensures c.Some? ==> c.value < i
  {
    if i == 0 then None
    else if Releases(h0, rs, i - 1) then None
    else if CalmReading(h0, rs, i - 1) then Some(i - 1)
    else LastCalm(h0, rs, i - 1)
  }

  lemma StepCalm(h: Hold, r: Reading)
    requires (h.rearmOnCalm ==> !h.haveCalm) && (h.holding ==> h.haveCalm)
    ensures
      var (t, published) := Step(h, r);
      var calm := !h.holding && !StartsHold(h, r) && Calm(Recorded(h, r), r.jitter);
      var released := Before(h, r).holding && !t.holding;
      && (t.rearmOnCalm ==> !t.haveCalm) && (t.holding ==> t.haveCalm)
      && t.haveCalm == (!released && (calm || h.haveCalm))
      && (if calm then t.calmAt == r.at && t.calmOffset == published else t.calmAt == h.calmAt && t.calmOffset == h.calmOffset)
  {
    hide Spiking, Recorded, GapLeft, Calm, CalmSince, Held;
  }

  /** The calm level that is kept is the one published at that reading. */
  lemma {:induction false} CalmIs(h0: Hold, rs: seq<Reading>, i: nat)
    requires i <= |rs|
    ensures
      var h, c := At(h0, rs, i), LastCalm(h0, rs, i);
      && (h.rearmOnCalm ==> !h.haveCalm) && (h.holding ==> h.haveCalm) && h.haveCalm == c.Some?
      && (c.Some? ==> h.calmAt == rs[c.value].at && h.calmOffset == Published(h0, rs, c.value))
  {
    hide Step, Before, StartsHold, Calm, Recorded, Run;
    if i > 0 {
      CalmIs(h0, rs, i - 1);
      AtNext(h0, rs, i - 1);
      StepCalm(At(h0, rs, i - 1), rs[i - 1]);
    } else {
      StartsCleared(h0, rs);
    }
  }

  lemma StartsCleared(h0: Hold, rs: seq<Reading>)
    ensures At(h0, rs, 0) == Cleared(h0)
  {
    assert rs[..0] == [];
  }

  /** A hold begins at exactly those spikes that come, outside any hold, within five minutes of the latest
      calm reading, if no hold has been released since that. */
  lemma BeginsExactly(h0: Hold, rs: seq<Reading>, i: nat)
    requires i < |rs|
    ensures Begins(h0, rs, i)
            <==> !At(h0, rs, i).holding && Spikes(Recorded(At(h0, rs, i), rs[i]), rs[i].jitter)
                 && LastCalm(h0, rs, i).Some? && rs[i].at - rs[LastCalm(h0, rs, i).value].at <= 300.0
  {
    CalmIs(h0, rs, i);
    SpikesIs(Recorded(At(h0, rs, i), rs[i]), rs[i].jitter);
    hide Spiking, Spikes, Run, LastCalm, Published;
  }

  /** From its first reading to its last, what a hold publishes is what was published at the latest calm
      reading before it, carried along the rate used there: on a line of that rate it stays. */
  lemma PublishedWhileHeld(h0: Hold, rs: seq<Reading>, j: nat)
    requires j < |rs| && Before(At(h0, rs, j), rs[j]).holding
    ensures LastCalm(h0, rs, j).Some?
    ensures var c := LastCalm(h0, rs, j).value;
            Published(h0, rs, j) == Published(h0, rs, c) + rs[j].rate * (rs[j].at - rs[c].at)
  {
    hide Step, Before, LastCalm, Run;
    CalmIs(h0, rs, j);
    StepPublishes(At(h0, rs, j), rs[j]);
  }

  lemma StepPublishes(h: Hold, r: Reading)
    requires Before(h, r).holding
    ensures h.holding || h.haveCalm
    ensures Step(h, r).1 == h.calmOffset + r.rate * (r.at - h.calmAt)
  {
    hide Spiking, Recorded, GapLeft, Calm, CalmSince;
  }

  /** What is held on to is the calm level there was. */
  lemma StepHoldsOn(h: Hold, r: Reading)
    requires Step(h, r).0.holding
    ensures
      var t := Step(h, r).0;
      && (h.holding || h.haveCalm) && t.calmAt == h.calmAt && t.calmOffset == h.calmOffset
      && Step(h, r).1 == t.calmOffset + r.rate * (r.at - t.calmAt)
  {
    hide Spiking, Recorded, GapLeft, Calm, CalmSince;
  }

  lemma HeldStaysOnTheLine(h0: Hold, rs: seq<Reading>, j: nat, a: real, b: real)
    requires j < |rs| && Before(At(h0, rs, j), rs[j]).holding && rs[j].rate == b
    requires LastCalm(h0, rs, j).Some? ==>
               var c := LastCalm(h0, rs, j).value; Published(h0, rs, c) == a + b * rs[c].at
    ensures Published(h0, rs, j) == a + b * rs[j].at
  {
    hide Before, Published, LastCalm, Run;
    PublishedWhileHeld(h0, rs, j);
    Distribute(b, rs[j].at, rs[LastCalm(h0, rs, j).value].at);
  }

  // ---- and what ends one ------------------------------------------------------------------------------

  predicate QuietAt(h0: Hold, rs: seq<Reading>, m: nat)
    requires m < |rs|
  {
    IsQuiet(Recorded(At(h0, rs, m), rs[m]), rs[m].jitter)
  }

  /** The first of the quiet readings that lead up to reading `m`, none before reading `i`. */
  function QuietFrom(h0: Hold, rs: seq<Reading>, i: nat, m: nat): (c: nat)
    requires i <= m <= |rs|
    ensures i <= c <= m
  {
    if m == i || !QuietAt(h0, rs, m - 1) then m else QuietFrom(h0, rs, i, m - 1)
  }

  lemma {:induction false} QuietSince(h0: Hold, rs: seq<Reading>, i: nat, m: nat)
    requires i <= m <= |rs|
    ensures var c := QuietFrom(h0, rs, i, m);
            (forall n :: c <= n < m ==> QuietAt(h0, rs, n)) && (c > i ==> !QuietAt(h0, rs, c - 1))
  {
    hide QuietAt;
    if m > i && QuietAt(h0, rs, m - 1) {
      QuietSince(h0, rs, i, m - 1);
    }
  }

  lemma StepWaits(h: Hold, r: Reading)
    requires Before(h, r).holding
    ensures
      var t, quiet, start := Step(h, r).0, IsQuiet(Recorded(h, r), r.jitter), Before(h, r).holdStart;
      var was := if h.holding then h.calmSince else -1.0;
      var since := if !quiet then -1.0 else if was < 0.0 then r.at else was;
      && start == (if h.holding then h.holdStart else r.at)
      && (t.holding <==> !(since >= 0.0 && r.at - since >= 60.0) && r.at - start < 600.0)
      && (t.holding ==> t.calmSince == since && t.holdStart == start)
      && t.timedOut == h.timedOut + if t.holding || (since >= 0.0 && r.at - since >= 60.0) then 0 else 1
  {
    SpikesIs(Recorded(h, r), r.jitter);
    hide Spiking, Recorded, GapLeft, Calm, Held, CalmLevel, IsQuiet;
  }

  /** All through a hold: since when, and since when it has been quiet. */
  lemma {:induction false} HoldIs(h0: Hold, rs: seq<Reading>, i: nat, j: nat)
    requires InOrder(rs) && i <= j < |rs| && Begins(h0, rs, i) && forall m :: i <= m < j ==> !Releases(h0, rs, m)
    ensures Before(At(h0, rs, j), rs[j]).holding
    ensures j > i ==>
              var h, c := At(h0, rs, j), QuietFrom(h0, rs, i, j);
              && h.holding && h.holdStart == rs[i].at
              && h.calmSince == if c < j then rs[c].at else -1.0
  {
    hide Step, Before, StartsHold, IsQuiet, Recorded, Run;
    if j > i {
      HoldIs(h0, rs, i, j - 1);
      AtNext(h0, rs, j - 1);
      assert !Releases(h0, rs, j - 1);
      StepWaits(At(h0, rs, j - 1), rs[j - 1]);
      StillHeld(At(h0, rs, j), rs[j]);
      if j - 1 == i {
        NotHolding(At(h0, rs, i), rs[i]);
      }
    } else {
      BegunIsHeld(At(h0, rs, i), rs[i]);
    }
  }

  lemma BegunIsHeld(h: Hold, r: Reading)
    requires StartsHold(h, r)
    ensures Before(h, r).holding
  {
  }

  lemma StillHeld(h: Hold, r: Reading)
    requires h.holding
    ensures Before(h, r).holding
  {
    hide Recorded, GapLeft;
  }

  /** A hold is released at exactly the first reading ten minutes or more after it began, or that ends a
      minute or more of quiet readings. */
  lemma ReleasesExactly(h0: Hold, rs: seq<Reading>, i: nat, j: nat)
    requires InOrder(rs) && i <= j < |rs| && Begins(h0, rs, i) && forall m :: i <= m < j ==> !Releases(h0, rs, m)
    ensures Releases(h0, rs, j)
            <==> rs[j].at - rs[i].at >= 600.0
                 || exists c :: i <= c <= j && (forall m :: c <= m <= j ==> QuietAt(h0, rs, m)) && rs[j].at - rs[c].at >= 60.0
  {
    hide Step, Before, StartsHold, IsQuiet, Recorded, Run;
    HoldIs(h0, rs, i, j);
    AtNext(h0, rs, j);
    StepWaits(At(h0, rs, j), rs[j]);
    if j == i {
      NotHolding(At(h0, rs, i), rs[i]);
    }
    QuietMinute(h0, rs, i, j);
  }

  /** A hold counts as timed out exactly when it is released with less than a minute of quiet readings. */
  lemma TimesOutExactly(h0: Hold, rs: seq<Reading>, i: nat, j: nat)
    requires InOrder(rs) && i <= j < |rs| && Begins(h0, rs, i) && forall m :: i <= m < j ==> !Releases(h0, rs, m)
    ensures
      var quiet := exists c :: i <= c <= j && (forall m :: c <= m <= j ==> QuietAt(h0, rs, m)) && rs[j].at - rs[c].at >= 60.0;
      At(h0, rs, j + 1).timedOut == At(h0, rs, j).timedOut + if Releases(h0, rs, j) && !quiet then 1 else 0
  {
    hide Step, Before, StartsHold, IsQuiet, Recorded, Run;
    HoldIs(h0, rs, i, j);
    AtNext(h0, rs, j);
    StepWaits(At(h0, rs, j), rs[j]);
    if j == i {
      NotHolding(At(h0, rs, i), rs[i]);
    }
    QuietMinute(h0, rs, i, j);
  }

  /** Every hold begun is counted, and nothing times out that is not held. */
  lemma HoldsAreCounted(h0: Hold, rs: seq<Reading>, i: nat)
    requires i < |rs|
    ensures At(h0, rs, i + 1).holds == At(h0, rs, i).holds + if Begins(h0, rs, i) then 1 else 0
    ensures !Releases(h0, rs, i) ==> At(h0, rs, i + 1).timedOut == At(h0, rs, i).timedOut
  {
    hide Recorded, Spiking, Calm, GapLeft, Held, CalmSince, Run;
    AtNext(h0, rs, i);
  }

  lemma QuietMinute(h0: Hold, rs: seq<Reading>, i: nat, j: nat)
    requires InOrder(rs) && i <= j < |rs|
    ensures
      var f := QuietFrom(h0, rs, i, j + 1);
      (f <= j && rs[j].at - rs[f].at >= 60.0)
      <==> exists c :: i <= c <= j && (forall m :: c <= m <= j ==> QuietAt(h0, rs, m)) && rs[j].at - rs[c].at >= 60.0
  {
    hide QuietAt, QuietFrom;
    var f := QuietFrom(h0, rs, i, j + 1);
    QuietSince(h0, rs, i, j + 1);
    if c :| i <= c <= j && (forall m :: c <= m <= j ==> QuietAt(h0, rs, m)) && rs[j].at - rs[c].at >= 60.0 {
      if c < f {
        assert false;
      }
      assert rs[f].at <= rs[c].at;
    }
  }

  // ---- what a spike is judged against ----------------------------------------------------------------

  /** The records are in order, ten seconds apart, none older than half an hour. */
  ghost predicate Spaced(history: seq<Record>, nextRecordAt: real, at: real) {
    && Apart(history)
    && (forall i :: 0 <= i < |history| ==> at - BASELINE_WINDOW_SEC <= history[i].at <= at)
    && (history != [] ==> history[|history| - 1].at + BASELINE_EVERY_SEC <= nextRecordAt)
  }

  ghost predicate Apart(r: seq<Record>) {
    forall i, j :: 0 <= i < j < |r| ==> r[i].at + BASELINE_EVERY_SEC * (j - i) as real <= r[j].at
  }

  lemma {:induction false} RecentApart(history: seq<Record>, cutoff: real, at: real)
    requires Apart(history) && forall i :: 0 <= i < |history| ==> history[i].at <= at
    ensures
      var r := Recent(history, cutoff);
      && Apart(r)
      && (forall i :: 0 <= i < |r| ==> cutoff <= r[i].at <= at)
      && (r != [] ==> r[|r| - 1] == history[|history| - 1])
  {
    hide Apart;
    if history == [] {
    } else {
      RestApart(history);
      if history[0].at < cutoff {
        RecentApart(history[1..], cutoff, at);
      }
    }
  }

  lemma RestApart(history: seq<Record>)
    requires Apart(history) && history != []
    ensures Apart(history[1..])
    ensures forall i :: 0 < i < |history| ==> history[0].at <= history[i].at
  {
    var rest := history[1..];
    forall i, j | 0 <= i < j < |rest|
      ensures rest[i].at + BASELINE_EVERY_SEC * (j - i) as real <= rest[j].at
    {
      assert rest[i] == history[i + 1] && rest[j] == history[j + 1];
    }
    forall i | 0 < i < |history|
      ensures history[0].at <= history[i].at
    {
      assert history[0].at + BASELINE_EVERY_SEC * (i - 0) as real <= history[i].at;
    }
  }

  lemma ApartNext(history: seq<Record>, r: Record, nextRecordAt: real)
    requires Apart(history)
    requires history != [] ==> history[|history| - 1].at + BASELINE_EVERY_SEC <= nextRecordAt
    ensures r.at >= nextRecordAt ==> Apart(history + [r])
  {
    var added := history + [r];
    forall i, j | 0 <= i < j < |added| && r.at >= nextRecordAt
      ensures added[i].at + BASELINE_EVERY_SEC * (j - i) as real <= added[j].at
    {
      var last := |history| - 1;
      assert i < last ==> history[i].at + BASELINE_EVERY_SEC * (last - i) as real <= history[last].at;
    }
  }

  lemma SpacedNext(h: Hold, r: Reading)
    requires Spaced(h.history, h.nextRecordAt, h.lastAt) && h.lastAt <= r.at
    ensures Spaced(Recorded(h, r),
                   if !h.holding && r.at >= h.nextRecordAt then r.at + BASELINE_EVERY_SEC else h.nextRecordAt, r.at)
  {
    hide Apart;
    ApartNext(h.history, Record(r.at, r.jitter), h.nextRecordAt);
    var added := if !h.holding && r.at >= h.nextRecordAt then h.history + [Record(r.at, r.jitter)] else h.history;
    RecentApart(added, r.at - BASELINE_WINDOW_SEC, r.at);
  }

  lemma {:induction false} RecordsAreSpaced(h0: Hold, rs: seq<Reading>)
    requires InOrder(rs)
    ensures Spaced(Run(h0, rs).history, Run(h0, rs).nextRecordAt, Run(h0, rs).lastAt)
  {
    hide Step, Recorded, Spaced;
    if rs == [] {
      assert Spaced([], 0.0, 0.0) by {
        NoRecords();
      }
    } else {
      var before, r := Run(h0, rs[..|rs| - 1]), rs[|rs| - 1];
      RecordsAreSpaced(h0, rs[..|rs| - 1]);
      LastAt(h0, rs[..|rs| - 1]);
      SpacedNext(before, r);
      StepRecords(before, r);
      StepDates(before, r);
    }
  }

  lemma NoRecords()
    ensures Spaced([], 0.0, 0.0)
  {
  }

  /** Every record taken: of the readings that come outside any hold the first, and then each that comes ten
      seconds or more after the last one taken. */
  function Taken(h0: Hold, rs: seq<Reading>, i: nat): seq<Record>
    requires i <= |rs|
  {
    if i == 0 then []
    else
      var before, r := Taken(h0, rs, i - 1), rs[i - 1];
      if !At(h0, rs, i - 1).holding && (before != [] ==> r.at >= before[|before| - 1].at + 10.0)
      then before + [Record(r.at, r.jitter)] else before
  }

  lemma {:induction false} RecentTwice(taken: seq<Record>, more: seq<Record>, cutoff: real, later: real)
    requires cutoff <= later
    ensures Recent(Recent(taken, cutoff) + more, later) == Recent(taken + more, later)
  {
    if taken != [] && taken[0].at < cutoff {
      RecentTwice(taken[1..], more, cutoff, later);
      assert (taken + more)[1..] == taken[1..] + more;
    }
  }

  lemma StepTakes(h: Hold, r: Reading, taken: seq<Record>)
    requires h.history == Recent(taken, h.lastAt - BASELINE_WINDOW_SEC) && h.lastAt <= r.at && r.at > 0.0
    requires h.nextRecordAt == if taken == [] then 0.0 else taken[|taken| - 1].at + 10.0
    ensures
      var takes := !h.holding && (taken != [] ==> r.at >= taken[|taken| - 1].at + 10.0);
      var now, t := (if takes then taken + [Record(r.at, r.jitter)] else taken), Step(h, r).0;
      && t.history == Recent(now, r.at - BASELINE_WINDOW_SEC)
      && t.nextRecordAt == if now == [] then 0.0 else now[|now| - 1].at + 10.0
  {
    StepRecords(h, r);
    hide Step, Recent;
    var takes := !h.holding && (taken != [] ==> r.at >= taken[|taken| - 1].at + 10.0);
    RecentTwice(taken, if takes then [Record(r.at, r.jitter)] else [], h.lastAt - BASELINE_WINDOW_SEC, r.at - BASELINE_WINDOW_SEC);
    assert taken + [] == taken && Recent(taken, h.lastAt - BASELINE_WINDOW_SEC) + [] == h.history;
  }

  /** What a spike is judged against is exactly the records of the last half hour. */
  lemma {:induction false} HistoryIsTaken(h0: Hold, rs: seq<Reading>, i: nat)
    requires InOrder(rs) && i <= |rs|
    ensures
      var h, taken := At(h0, rs, i), Taken(h0, rs, i);
      && h.history == Recent(taken, (if i == 0 then 0.0 else rs[i - 1].at) - 1800.0)
      && h.nextRecordAt == if taken == [] then 0.0 else taken[|taken| - 1].at + 10.0
  {
    hide Step, Recorded, Run, Recent;
    LastAt(h0, rs[..i]);
    if i == 0 {
      StartsCleared(h0, rs);
      NoneRecent(-1800.0);
    } else {
      HistoryIsTaken(h0, rs, i - 1);
      LastAt(h0, rs[..i - 1]);
      AtNext(h0, rs, i - 1);
      StepTakes(At(h0, rs, i - 1), rs[i - 1], Taken(h0, rs, i - 1));
    }
  }

  lemma NoneRecent(cutoff: real)
    ensures Recent([], cutoff) == []
  {
  }

  /** Nothing is held before there are nearly ten minutes of the source's own jitter to judge by, all
      of it from the last half hour. */
  lemma HistoryBeforeAnyHold(h0: Hold, rs: seq<Reading>, i: nat)
    requires InOrder(rs) && i < |rs| && Begins(h0, rs, i)
    ensures
      var history := Recorded(At(h0, rs, i), rs[i]);
      && |history| >= BASELINE_MIN_RECORDS
      && history[0].at >= rs[i].at - BASELINE_WINDOW_SEC
      && history[|history| - 1].at - history[0].at >= BASELINE_EVERY_SEC * 59.0
  {
    hide Step, Recorded;
    AtNext(h0, rs, i);
    StepRecords(At(h0, rs, i), rs[i]);
    StepDates(At(h0, rs, i), rs[i]);
    RecordsAreSpaced(h0, rs[..i + 1]);
    var history := At(h0, rs, i + 1).history;
    assert history[0].at + BASELINE_EVERY_SEC * (|history| - 1) as real <= history[|history| - 1].at;
  }

  // ---- as it is computed ---------------------------------------------------------------------------

  method RecordJitter(h: Hold, at: real, jitter: real) returns (history: seq<Record>, nextRecordAt: real)
    ensures forall live, rate :: history == Recorded(h, Reading(at, live, jitter, rate))
    ensures nextRecordAt == if !h.holding && at >= h.nextRecordAt then at + BASELINE_EVERY_SEC else h.nextRecordAt
  {
    history, nextRecordAt := h.history, h.nextRecordAt;
    if !h.holding && at >= nextRecordAt {
      history, nextRecordAt := history + [Record(at, jitter)], at + BASELINE_EVERY_SEC;
    }
    ghost var added := history;
    while history != [] && history[0].at < at - BASELINE_WINDOW_SEC
      invariant Recent(history, at - BASELINE_WINDOW_SEC) == Recent(added, at - BASELINE_WINDOW_SEC)
    {
      history := history[1..];
    }
  }

  method SlewGap(h: Hold, at: real) returns (gap: real)
    requires h.gapSlew >= 0.0
    ensures gap == GapLeft(h, at)
  {
    var dt := if h.lastAt > 0.0 then Max(0.0, at - h.lastAt) else 0.0;
    NonNegativeProduct(h.gapSlew, dt);
    gap := h.gap;
    if gap != 0.0 {
      gap := Slewed(gap, h.gapSlew * dt);
    }
  }

  /** Takes the live level and its jitter, and publishes it, or a held or a rejoining level instead. */
  method HoldThroughSpikes(was: Hold, r: Reading) returns (h: Hold, published: real)
    requires was.gapSlew >= 0.0
    ensures (h, published) == Step(was, r)
  {
    hide GapLeft, Recent, Threshold;
    var gap := SlewGap(was, r.at);
    var history, nextRecordAt := RecordJitter(was, r.at, r.jitter);
    h := was.(history := history, nextRecordAt := nextRecordAt, gap := gap, lastAt := r.at);
    var armed := |history| >= BASELINE_MIN_RECORDS;
    var threshold, calm := 0.0, 0.0;
    if armed {
      threshold := Threshold(history);
      calm := CALM_FRACTION * threshold;
    }
    published := r.live + gap;
    if !h.holding {
      if armed && !h.rearmOnCalm && r.jitter > threshold && h.haveCalm && r.at - h.calmAt <= MAX_CALM_AGE_SEC {
        h := h.(holding := true, holdStart := r.at, calmSince := -1.0, holds := h.holds + 1);
      } else if !armed || r.jitter <= calm {
        h := h.(haveCalm := true, calmAt := r.at, calmOffset := published, rearmOnCalm := false);
      }
    }
    assert h == Before(was, r) && calm == CalmLevel(h.history);
    if h.holding {
      h, published := CarryOn(was, h, r, calm);
    }
  }

  /** While holding: the held level, and whether the hold ends. */
  method CarryOn(ghost was: Hold, begun: Hold, r: Reading, calm: real) returns (h: Hold, held: real)
    requires begun == Before(was, r) && begun.holding && calm == CalmLevel(begun.history)
    ensures (h, held) == Step(was, r)
  {
    hide Before, CalmLevel;
    h := begun;
    held := h.calmOffset + r.rate * (r.at - h.calmAt);
    if r.jitter <= calm {
      if h.calmSince < 0.0 {
        h := h.(calmSince := r.at);
      }
    } else {
      h := h.(calmSince := -1.0);
    }
    var settled := h.calmSince >= 0.0 && r.at - h.calmSince >= CALM_TO_RELEASE_SEC;
    if settled || r.at - h.holdStart >= MAX_HOLD_SEC {
      var gap := held - r.live;
      h := h.(holding := false, gap := gap, gapSlew := Max(REJOIN_MIN_SLEW, Abs(gap) / REJOIN_SEC), haveCalm := false);
      if !settled {
        h := h.(timedOut := h.timedOut + 1, rearmOnCalm := true);
      }
    }
    assert held == Held(begun, r) && h.calmSince == CalmSince(begun, r);
    assert h == Step(was, r).0;
  }
}
