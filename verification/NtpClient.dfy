/** An upstream NTP peer: what a reply says of the clock, which replies are handed on to the estimator,
    and how a server that asks to be polled less is obliged. */
module NtpClient {
  import opened Folds
  import opened Medians
  import opened Arithmetic

  // ---- offset and delay ----------------------------------------------------------------------------

  /** UTC minus the daemon clock, from the four instants of a round trip: sent and received back by the
      daemon clock, received and answered by the server's. */
  function Offset(t1: real, t2: real, t3: real, t4: real, extraDelay: real): real {
    ((t2 - t1) + (t3 - t4)) / 2.0 + extraDelay / 2.0
  }

  function Delay(t1: real, t2: real, t3: real, t4: real, minDelay: real): real {
    Max((t4 - t1) - (t3 - t2), minDelay)
  }

  /** Whatever the two legs take and the server holds the request for, the offset is within half the round
      trip of the server's; and with the asymmetry of the legs configured it is exact. */
  lemma OffsetIsWithinHalfTheDelay(t1: real, theta: real, out: real, held: real, back: real, minDelay: real)
    requires out >= 0.0 && back >= 0.0
    ensures
      var t2 := t1 + out + theta;
      var t3 := t2 + held;
      var t4 := t3 - theta + back;
      && Abs(Offset(t1, t2, t3, t4, 0.0) - theta) <= Delay(t1, t2, t3, t4, minDelay) / 2.0
      && Offset(t1, t2, t3, t4, back - out) == theta
  {
  }

  // ---- the clock filter ----------------------------------------------------------------------------

  const FILTER_SIZE := 8
  const SPIKE_RUN_LIMIT := 3
  const SPIKE_BIAS_FLOOR_SEC := 0.001
  const SPIKE_SPREAD_FACTOR := 3.0

  datatype Sample = Sample(offset: real, delay: real, at: real, seqNo: nat, valid: bool)

  const NoSample := Sample(0.0, 0.0, 0.0, 0, false)

  datatype State = State(filter: seq<Sample>, seqNo: nat, handedOn: nat, spikeRun: nat)

  const EmptyFilter := [NoSample, NoSample, NoSample, NoSample, NoSample, NoSample, NoSample, NoSample]

  /** A reply accepted, the peer's name resolved to another server, or its timing dropped. */
  datatype Event = Accept(offset: real, delay: real, at: real) | Moved | Dropped

  const IsValid: Sample -> bool := (s: Sample) => s.valid
  const DelayOf: Sample -> real := (s: Sample) => s.delay

  function Delays(filter: seq<Sample>): seq<real> { Map(Filter(filter, IsValid), DelayOf) }

  function Lowest(delays: seq<real>): (m: real)
    requires delays != []
    ensures m in delays && forall d :: d in delays ==> m <= d
  {
    var init, d := delays[..|delays| - 1], delays[|delays| - 1];
    assert delays == init + [d];
    if init == [] then d else Min(Lowest(init), d)
  }

  /** How far the clean round trips, the quickest quarter, spread above the quickest. */
  function CleanSpread(delays: seq<real>): real
    requires delays != []
  {
    Sort(delays)[|delays| / 4] - Lowest(delays)
  }

  function Allowed(delays: seq<real>): real
    requires delays != []
  {
    Max(Max(2.0 * SPIKE_BIAS_FLOOR_SEC, Lowest(delays)), SPIKE_SPREAD_FACTOR * CleanSpread(delays))
  }

  /** A round trip too far above the quickest in the register. */
  predicate Slow(delays: seq<real>, delay: real)
    requires delays != []
  {
    delay - Lowest(delays) > Allowed(delays)
  }

  function SampleOf(s: State, e: Event): Sample
    requires e.Accept?
  {
    Sample(e.offset, e.delay, e.at, s.seqNo + 1, true)
  }

  function Shifted(filter: seq<Sample>, s: Sample): (f: seq<Sample>)
    requires |filter| == FILTER_SIZE
    ensures |f| == FILTER_SIZE && f[0] == s
  {
    [s] + filter[..FILTER_SIZE - 1]
  }

  lemma SomeDelay(filter: seq<Sample>)
    requires filter != [] && filter[0].valid
    ensures Delays(filter) != []
  {
    assert filter[0] in Filter(filter, IsValid);
  }

  predicate IsSlow(s: State, e: Event)
    requires |s.filter| == FILTER_SIZE && e.Accept?
  {
    SomeDelay(Shifted(s.filter, SampleOf(s, e)));
    Slow(Delays(Shifted(s.filter, SampleOf(s, e))), e.delay)
  }

  /** Whether the sample is handed on to the estimator. */
  predicate Hands(s: State, e: Event)
    requires |s.filter| == FILTER_SIZE && e.Accept?
  {
    (IsSlow(s, e) ==> s.spikeRun + 1 >= SPIKE_RUN_LIMIT) && s.seqNo + 1 > s.handedOn
  }

  function Step(s: State, e: Event): (t: State)
    requires |s.filter| == FILTER_SIZE
    ensures |t.filter| == FILTER_SIZE
  {
    match e
    case Moved => s.(filter := EmptyFilter, spikeRun := 0)
    case Dropped => s.(filter := EmptyFilter, handedOn := 0)
    case Accept(_, _, _) =>
      var t := s.(filter := Shifted(s.filter, SampleOf(s, e)), seqNo := s.seqNo + 1);
      if IsSlow(s, e) && s.spikeRun + 1 < SPIKE_RUN_LIMIT then t.(spikeRun := s.spikeRun + 1)
      else if s.seqNo + 1 > s.handedOn then t.(spikeRun := 0, handedOn := s.seqNo + 1)
      else t.(spikeRun := 0)
  }

  const Initial := State(EmptyFilter, 0, 0, 0)

  // ---- runs ----------------------------------------------------------------------------------------

  function Run(es: seq<Event>): (s: State)
    ensures |s.filter| == FILTER_SIZE
  {
    if es == [] then Initial else Step(Run(es[..|es| - 1]), es[|es| - 1])
  }

  function At(es: seq<Event>, i: nat): (s: State)
    requires i <= |es|
    ensures |s.filter| == FILTER_SIZE
  {
    Run(es[..i])
  }

  lemma AtNext(es: seq<Event>, i: nat)
    requires i < |es|
    ensures At(es, i + 1) == Step(At(es, i), es[i])
  {
    assert es[..i + 1][..i] == es[..i];
  }

  predicate HandedOnAt(es: seq<Event>, i: nat)
    requires i < |es|
  {
    es[i].Accept? && Hands(At(es, i), es[i])
  }

  predicate SlowAt(es: seq<Event>, i: nat)
    requires i < |es| && es[i].Accept?
  {
    IsSlow(At(es, i), es[i])
  }

  /** The samples handed on, in the order they were. */
  function Handed(es: seq<Event>): seq<Sample> {
    if es == [] then []
    else
      var before := es[..|es| - 1];
      Handed(before) + if es[|es| - 1].Accept? && Hands(Run(before), es[|es| - 1])
                       then [SampleOf(Run(before), es[|es| - 1])] else []
  }

  lemma {:induction false} Numbered(es: seq<Event>, i: nat)
    requires i <= |es|
    ensures At(es, i).handedOn <= At(es, i).seqNo && At(es, i).spikeRun < SPIKE_RUN_LIMIT
  {
    hide IsSlow;
    if i > 0 {
      Numbered(es, i - 1);
      AtNext(es, i - 1);
    }
  }

  lemma StepCounts(s: State, e: Event)
    requires |s.filter| == FILTER_SIZE
    ensures Step(s, e).seqNo == s.seqNo + if e.Accept? then 1 else 0
  {
    hide IsSlow;
  }

  /** Numbered from 1 to `n` at the most, each higher than the one before. */
  ghost predicate Ascend(h: seq<Sample>, n: nat) {
    && (forall i :: 0 <= i < |h| ==> 1 <= h[i].seqNo <= n)
    && (forall i, j :: 0 <= i < j < |h| ==> h[i].seqNo < h[j].seqNo)
  }

  lemma AscendNext(h: seq<Sample>, n: nat, s: Sample)
    requires Ascend(h, n)
    ensures Ascend(h, n + 1) && (s.seqNo == n + 1 ==> Ascend(h + [s], n + 1))
  {
  }

  /** Each sample is handed on at most once, and they are handed on in order. */
  lemma {:induction false} HandedInOrder(es: seq<Event>)
    ensures Ascend(Handed(es), Run(es).seqNo)
  {
    hide Step, Hands, Ascend;
    if es == [] {
      assert Ascend([], 0) by {
        NoneAscend();
      }
    } else {
      var before, e := es[..|es| - 1], es[|es| - 1];
      HandedInOrder(before);
      StepCounts(Run(before), e);
      if e.Accept? {
        AscendNext(Handed(before), Run(before).seqNo, SampleOf(Run(before), e));
      }
      assert Handed(before) + [] == Handed(before);
    }
  }

  lemma NoneAscend()
    ensures Ascend([], 0)
  {
  }

  /** A register holding nothing but the new sample finds it clean. */
  lemma AloneIsClean(s: State, e: Event)
    requires s.filter == EmptyFilter && e.Accept?
    ensures !IsSlow(s, e)
  {
    var f := Shifted(s.filter, SampleOf(s, e));
    DelaysHeld(f, [e.delay]);
    assert Sort([e.delay])[..0] == [];
  }

  /** The register holds samples of these delays, the latest first, and nothing else. */
  ghost predicate HoldsDelays(filter: seq<Sample>, delays: seq<real>) {
    && |delays| <= |filter|
    && (forall i :: 0 <= i < |delays| ==> filter[i].valid && filter[i].delay == delays[i])
    && (forall i :: |delays| <= i < |filter| ==> !filter[i].valid)
  }

  lemma DelaysHeld(filter: seq<Sample>, delays: seq<real>)
    requires HoldsDelays(filter, delays)
    ensures Delays(filter) == delays
  {
    FirstValid(filter, |delays|, |filter|);
    assert filter[..|filter|] == filter;
  }

  lemma {:induction false} FirstValid(f: seq<Sample>, n: nat, m: nat)
    requires n <= |f| && m <= |f|
    requires forall i :: 0 <= i < |f| ==> (f[i].valid <==> i < n)
    ensures Filter(f[..m], IsValid) == f[..if m < n then m else n]
  {
    hide Filter;
    if m == 0 {
      FilterAll(f[..0], IsValid);
    } else {
      FirstValid(f, n, m - 1);
      assert f[..m] == f[..m - 1] + [f[m - 1]];
      KeptOne(f[..m - 1], f[m - 1], IsValid);
    }
  }

  /** The latest reply accepted before event `i`, if there is one. */
  function Previous(es: seq<Event>, i: nat): (p: Option<nat>)
    requires i <= |es|
    ensures p.Some? ==> p.value < i && es[p.value].Accept?
    ensures forall m :: (if p.Some? then p.value + 1 else 0) <= m < i ==> !es[m].Accept?
  {
    if i == 0 then None else if es[i - 1].Accept? then Some(i - 1) else Previous(es, i - 1)
  }

  /** The last `n` replies accepted before event `i` were all slow, and none of them was handed on. */
  predicate SlowRun(es: seq<Event>, i: nat, n: nat)
    requires i <= |es|
    decreases n
  {
    n > 0 ==> var p := Previous(es, i);
              p.Some? && SlowAt(es, p.value) && !HandedOnAt(es, p.value) && SlowRun(es, p.value, n - 1)
  }

  lemma StepRuns(s: State, e: Event)
    requires |s.filter| == FILTER_SIZE && e.Accept? && s.handedOn <= s.seqNo
    ensures Step(s, e).spikeRun == if Hands(s, e) then 0 else s.spikeRun + 1
    ensures Hands(s, e) <==> (IsSlow(s, e) ==> s.spikeRun + 1 >= SPIKE_RUN_LIMIT)
  {
    hide IsSlow;
  }

  lemma StepKeepsRun(s: State, e: Event)
    requires |s.filter| == FILTER_SIZE && !e.Accept?
    ensures Step(s, e).filter == EmptyFilter && Step(s, e).spikeRun <= s.spikeRun
    ensures e.Moved? ==> Step(s, e).spikeRun == 0
    ensures e.Dropped? ==> Step(s, e).spikeRun == s.spikeRun
  {
  }

  lemma {:induction false} Shorter(es: seq<Event>, i: nat, n: nat, m: nat)
    requires i <= |es| && m <= n && SlowRun(es, i, n)
    ensures SlowRun(es, i, m)
    decreases m
  {
    if m > 0 {
      Shorter(es, Previous(es, i).value, n - 1, m - 1);
    }
  }

  /** The count of slow samples is of the latest ones accepted. */
  lemma {:induction false} CountsSlowRun(es: seq<Event>, i: nat)
    requires i <= |es|
    ensures SlowRun(es, i, At(es, i).spikeRun)
  {
    hide IsSlow, Hands, Step;
    if i > 0 {
      CountsSlowRun(es, i - 1);
      AtNext(es, i - 1);
      Numbered(es, i - 1);
      var before, now := At(es, i - 1).spikeRun, At(es, i).spikeRun;
      if es[i - 1].Accept? {
        StepRuns(At(es, i - 1), es[i - 1]);
        if now > 0 {
          assert Previous(es, i) == Some(i - 1);
        }
      } else {
        StepKeepsRun(At(es, i - 1), es[i - 1]);
        Shorter(es, i - 1, before, now);
        SameRun(es, i, now);
      }
    } else {
      assert es[..0] == [];
    }
  }

  lemma SameRun(es: seq<Event>, i: nat, n: nat)
    requires 0 < i <= |es| && !es[i - 1].Accept? && SlowRun(es, i - 1, n)
    ensures SlowRun(es, i, n)
  {
    assert Previous(es, i) == Previous(es, i - 1);
  }

  /** A sample handed on is not slow, or is the third slow one in a row with neither of the two before it
      handed on. */
  lemma HandedOnIsCleanOrThird(es: seq<Event>, i: nat)
    requires i < |es| && HandedOnAt(es, i) && SlowAt(es, i)
    ensures SlowRun(es, i, SPIKE_RUN_LIMIT - 1)
  {
    hide IsSlow, Step;
    Numbered(es, i);
    CountsSlowRun(es, i);
  }

  /** Between two replies accepted one after the other: the count of slow ones stands, or the register has
      been emptied. */
  lemma {:induction false} Between(es: seq<Event>, a: nat, b: nat)
    requires a <= b <= |es| && forall m :: a <= m < b ==> !es[m].Accept?
    ensures At(es, b).spikeRun == At(es, a).spikeRun || At(es, b).filter == EmptyFilter
  {
    hide Step;
    if a < b {
      AtNext(es, b - 1);
      StepKeepsRun(At(es, b - 1), es[b - 1]);
    }
  }

  /** Of any three replies accepted one after the other at least one is handed on to the estimator, though
      the peer moves or its timing is dropped between them. */
  lemma OneOfThree(es: seq<Event>, a: nat, b: nat, c: nat)
    requires a < b < c < |es| && es[c].Accept? && Previous(es, c) == Some(b) && Previous(es, b) == Some(a)
    ensures HandedOnAt(es, a) || HandedOnAt(es, b) || HandedOnAt(es, c)
  {
    Advance(es, a, b);
    Advance(es, b, c);
    Numbered(es, a);
    AtNext(es, c);
    Numbered(es, c + 1);
    StepRuns(At(es, c), es[c]) by {
      Numbered(es, c);
    }
    hide IsSlow, Hands, Step;
  }

  /** A reply not handed on adds to the count, unless the next is handed on for finding the register
      empty. */
  lemma Advance(es: seq<Event>, a: nat, b: nat)
    requires a < b < |es| && es[b].Accept? && Previous(es, b) == Some(a)
    ensures HandedOnAt(es, a) || HandedOnAt(es, b) || At(es, b).spikeRun == At(es, a).spikeRun + 1
  {
    Numbered(es, a);
    Numbered(es, b);
    AtNext(es, a);
    StepRuns(At(es, a), es[a]);
    StepRuns(At(es, b), es[b]);
    Between(es, a + 1, b);
    if At(es, b).filter == EmptyFilter {
      AloneIsClean(At(es, b), es[b]);
    }
    hide IsSlow, Hands, Step;
  }

  // ---- which round trips are too slow ----------------------------------------------------------------

  /** The round trips of the last eight replies accepted before event `i` since the register was last
      emptied, the latest first. */
  function Recent(es: seq<Event>, i: nat): (ds: seq<real>)
    requires i <= |es|
    ensures |ds| <= FILTER_SIZE && (i > 0 && es[i - 1].Accept? ==> ds != [] && ds[0] == es[i - 1].delay)
  {
    if i == 0 || !es[i - 1].Accept? then []
    else
      var before := Recent(es, i - 1);
      [es[i - 1].delay] + if |before| < FILTER_SIZE then before else before[..FILTER_SIZE - 1]
  }

  lemma {:induction false} HoldsRecent(es: seq<Event>, i: nat)
    requires i <= |es|
    ensures HoldsDelays(At(es, i).filter, Recent(es, i))
  {
    NoneHeld();
    if i > 0 {
      AtNext(es, i - 1);
      if es[i - 1].Accept? {
        HoldsRecent(es, i - 1);
        ShiftedIs(At(es, i - 1), es[i - 1]);
        ShiftHolds(At(es, i - 1).filter, Recent(es, i - 1), SampleOf(At(es, i - 1), es[i - 1]));
      } else {
        StepKeepsRun(At(es, i - 1), es[i - 1]);
      }
    } else {
      assert es[..0] == [];
    }
    hide Step, IsSlow, HoldsDelays, Shifted;
  }

  lemma NoneHeld()
    ensures HoldsDelays(EmptyFilter, [])
  {
  }

  lemma ShiftHolds(filter: seq<Sample>, delays: seq<real>, s: Sample)
    requires |filter| == FILTER_SIZE && HoldsDelays(filter, delays) && s.valid
    ensures HoldsDelays(Shifted(filter, s),
                        [s.delay] + if |delays| < FILTER_SIZE then delays else delays[..FILTER_SIZE - 1])
  {
  }

  lemma ShiftedIs(s: State, e: Event)
    requires |s.filter| == FILTER_SIZE && e.Accept?
    ensures Step(s, e).filter == Shifted(s.filter, SampleOf(s, e))
  {
    hide IsSlow;
  }

  ghost predicate IsQuickest(ds: seq<real>, m: real) {
    m in ds && forall d :: d in ds ==> m <= d
  }

  function UpTo(x: real): real -> bool { (d: real) => d <= x }
  function Under(x: real): real -> bool { (d: real) => d < x }

  /** More than a quarter of them take no longer, but not more than a quarter take less. */
  ghost predicate IsQuarter(ds: seq<real>, q: real) {
    4 * Count(ds, UpTo(q)) > |ds| && 4 * Count(ds, Under(q)) <= |ds|
  }

  lemma CountFirst(s: seq<real>, p: real -> bool, k: nat)
    requires k <= |s| && forall i :: 0 <= i < k ==> p(s[i])
    ensures Count(s, p) >= k
  {
    assert s == s[..k] + s[k..];
    CountConcat(s[..k], s[k..], p);
    CountAll(s[..k], p);
  }

  lemma PlaceOf(s: seq<real>, k: nat, x: real)
    requires Ascending(s) && k < |s|
    ensures s[k] <= x ==> Count(s, UpTo(x)) >= k + 1
    ensures s[k] < x ==> Count(s, Under(x)) >= k + 1
    ensures s[k] > x ==> Count(s, UpTo(x)) <= k
    ensures s[k] >= x ==> Count(s, Under(x)) <= k
  {
    if s[k] <= x {
      CountFirst(s, UpTo(x), k + 1);
    }
    if s[k] < x {
      CountFirst(s, Under(x), k + 1);
    }
    if s[k] > x {
      CountFrom(s, UpTo(x), 0, k);
    }
    if s[k] >= x {
      CountFrom(s, Under(x), 0, k);
    }
  }

  /** The quarter of a sorted register is the element a quarter of the way up it. */
  lemma QuarterIs(ds: seq<real>, q: real)
    requires ds != []
    ensures IsQuarter(ds, q) <==> Sort(ds)[|ds| / 4] == q
  {
    SortKeeps(ds);
    CountOrder(ds, Sort(ds), UpTo(q));
    CountOrder(ds, Sort(ds), Under(q));
    PlaceOf(Sort(ds), |ds| / 4, q);
    hide Sort, Count;
  }

  lemma SlowIs(ds: seq<real>, delay: real, m: real, q: real)
    requires ds != [] && IsQuickest(ds, m) && IsQuarter(ds, q)
    ensures Slow(ds, delay) <==> delay > m + Max(Max(0.002, m), 3.0 * (q - m))
  {
    QuarterIs(ds, q);
    assert Lowest(ds) == m;
    hide Sort, Lowest;
  }

  /** The two replies accepted before event `i` were held back. */
  predicate TwoHeldBack(es: seq<Event>, i: nat)
    requires i <= |es|
  {
    var b := Previous(es, i);
    b.Some? && !HandedOnAt(es, b.value)
    && var a := Previous(es, b.value);
       a.Some? && !HandedOnAt(es, a.value)
  }

  /** A reply is handed on exactly when its round trip exceeds the quickest of the last eight by no more than
      2 ms, the quickest itself, or three times what their quickest quarter spreads above it, whichever is
      most; or when the two before it were both held back. */
  lemma HandedOnExactly(es: seq<Event>, i: nat, m: real, q: real)
    requires i < |es| && es[i].Accept?
    requires IsQuickest(Recent(es, i + 1), m) && IsQuarter(Recent(es, i + 1), q)
    ensures HandedOnAt(es, i) <==> es[i].delay <= m + Max(Max(0.002, m), 3.0 * (q - m)) || TwoHeldBack(es, i)
  {
    SlowAtIs(es, i, m, q);
    hide IsSlow, Step, IsQuickest, IsQuarter;
    Numbered(es, i);
    StepRuns(At(es, i), es[i]) by {
      hide Hands;
    }
    if HandedOnAt(es, i) && SlowAt(es, i) {
      HandedOnIsCleanOrThird(es, i);
    }
    if TwoHeldBack(es, i) {
      var b := Previous(es, i).value;
      OneOfThree(es, Previous(es, b).value, b, i);
    }
  }

  lemma SlowAtIs(es: seq<Event>, i: nat, m: real, q: real)
    requires i < |es| && es[i].Accept?
    requires IsQuickest(Recent(es, i + 1), m) && IsQuarter(Recent(es, i + 1), q)
    ensures SlowAt(es, i) <==> es[i].delay > m + Max(Max(0.002, m), 3.0 * (q - m))
  {
    AtNext(es, i);
    HoldsRecent(es, i + 1);
    DelaysHeld(At(es, i + 1).filter, Recent(es, i + 1));
    SlowIs(Recent(es, i + 1), es[i].delay, m, q);
    ShiftedIs(At(es, i), es[i]);
    hide Slow, Step, Recent, IsQuickest, IsQuarter, Run;
  }

  /** So where more than a quarter of the last eight are within `w` of the quickest, one further above it
      than 2 ms, the quickest and three times `w` is handed on only after two held back; and one no further
      above it than 2 ms or the quickest always is. */
  lemma SpikesAreHeldBack(es: seq<Event>, i: nat, m: real, w: real)
    requires i < |es| && es[i].Accept?
    requires IsQuickest(Recent(es, i + 1), m) && 4 * Count(Recent(es, i + 1), UpTo(m + w)) > |Recent(es, i + 1)|
    ensures es[i].delay > m + Max(Max(0.002, m), 3.0 * w) ==> (HandedOnAt(es, i) <==> TwoHeldBack(es, i))
    ensures es[i].delay <= m + Max(0.002, m) ==> HandedOnAt(es, i)
  {
    var ds := Recent(es, i + 1);
    var q := Sort(ds)[|ds| / 4];
    QuarterIs(ds, q);
    if m + w < q {
      CountMonotone(ds, UpTo(m + w), Under(q));
      assert false;
    }
    hide Recent, IsQuarter, IsQuickest, TwoHeldBack, HandedOnAt, Sort;
    HandedOnExactly(es, i, m, q);
  }

  // ---- the poll interval ---------------------------------------------------------------------------

  const MAX_BACKOFF_POLL_SEC := 1024.0
  const BACKOFF_RECOVER_AFTER := 8

  /** The interval a kiss-o'-death RATE put in place of the configured one, if any, and the good replies
      in a row since. */
  datatype Backoff = Backoff(interval: Option<real>, goodRun: nat)

  function PowerOfTwo(n: nat): real { if n == 0 then 1.0 else 2.0 * PowerOfTwo(n - 1) }

  /** The poll a server asks for in its packet, clamped. */
  function Asked(exponent: int): real {
    PowerOfTwo(if exponent < 4 then 4 else if exponent > 17 then 17 else exponent)
  }

  function Interval(b: Backoff, poll: real): real {
    if b.interval.Some? then b.interval.value else poll
  }

  function Rated(b: Backoff, poll: real, exponent: int): Backoff {
    Backoff(Some(Min(MAX_BACKOFF_POLL_SEC, Max(2.0 * Interval(b, poll), Asked(exponent)))), 0)
  }

  function Answered(b: Backoff, poll: real): Backoff {
    if b.interval.None? then b
    else if b.goodRun + 1 < BACKOFF_RECOVER_AFTER then b.(goodRun := b.goodRun + 1)
    else
      var eased := b.interval.value / 2.0;
      Backoff(if eased <= poll then None else Some(eased), 0)
  }

  /** A RATE never makes the peer poll faster, exactly when it was not already polling more slowly than the
      most that a RATE stretches the interval to; below half of that it at least halves the pace, and
      obeys what the server asked for; and slower than both, or than the most, it never makes it. */
  lemma RateNeverSpeedsUp(b: Backoff, poll: real, exponent: int)
    requires poll > 0.0 && (b.interval.Some? ==> b.interval.value > 0.0)
    ensures
      var before, after := Interval(b, poll), Interval(Rated(b, poll, exponent), poll);
      && (after >= before <==> before <= MAX_BACKOFF_POLL_SEC)
      && after >= Min(MAX_BACKOFF_POLL_SEC, 2.0 * before)
      && after >= Min(MAX_BACKOFF_POLL_SEC, Asked(exponent))
      && after <= Min(MAX_BACKOFF_POLL_SEC, Max(2.0 * before, Asked(exponent)))
  {
  }

  /** After one RATE after another. */
  function RatedAll(b: Backoff, poll: real, exponents: seq<int>): Backoff {
    if exponents == [] then b
    else Rated(RatedAll(b, poll, exponents[..|exponents| - 1]), poll, exponents[|exponents| - 1])
  }

  /** A peer polled every 4096 s, the slowest that may be configured, is polled every 1024 s from its first
      RATE on, whatever the server asks for and however many follow. */
  lemma {:induction false} RateCanSpeedUp(exponents: seq<int>)
    requires exponents != []
    ensures Interval(Backoff(None, 0), 4096.0) == 4096.0
    ensures Interval(RatedAll(Backoff(None, 0), 4096.0, exponents), 4096.0) == 1024.0
  {
    var before := exponents[..|exponents| - 1];
    if before == [] {
      assert RatedAll(Backoff(None, 0), 4096.0, before) == Backoff(None, 0);
    } else {
      RateCanSpeedUp(before);
    }
  }

  function Answers(b: Backoff, poll: real, n: nat): Backoff {
    if n == 0 then b else Answered(Answers(b, poll, n - 1), poll)
  }

  /** In force, the interval lies between the configured one and the cap. */
  predicate Backed(b: Backoff, poll: real) {
    b.goodRun < BACKOFF_RECOVER_AFTER && (b.interval.Some? ==> Min(poll, MAX_BACKOFF_POLL_SEC) <= b.interval.value <= MAX_BACKOFF_POLL_SEC)
  }

  lemma BackedStays(b: Backoff, poll: real, exponent: int)
    requires Backed(b, poll) && poll > 0.0
    ensures Backed(Rated(b, poll, exponent), poll) && Backed(Answered(b, poll), poll)
  {
  }

  /** Eight good replies halve the interval, or put the configured one back. */
  lemma EightEase(b: Backoff, poll: real)
    requires b.interval.Some? && b.goodRun == 0
    ensures
      var eased := b.interval.value / 2.0;
      Answers(b, poll, 8) == Backoff(if eased <= poll then None else Some(eased), 0)
  {
    assert Answers(b, poll, 0) == b;
    assert Answers(b, poll, 1) == b.(goodRun := 1);
    assert Answers(b, poll, 2) == b.(goodRun := 2);
    assert Answers(b, poll, 3) == b.(goodRun := 3);
    assert Answers(b, poll, 4) == b.(goodRun := 4);
    assert Answers(b, poll, 5) == b.(goodRun := 5);
    assert Answers(b, poll, 6) == b.(goodRun := 6);
    assert Answers(b, poll, 7) == b.(goodRun := 7);
  }

  lemma {:induction false} AnswersAdd(b: Backoff, poll: real, m: nat, n: nat)
    ensures Answers(Answers(b, poll, m), poll, n) == Answers(b, poll, m + n)
  {
    if n > 0 {
      AnswersAdd(b, poll, m, n - 1);
    }
  }

  lemma {:induction false} Unbacked(poll: real, goodRun: nat, n: nat)
    ensures Answers(Backoff(None, goodRun), poll, n) == Backoff(None, goodRun)
  {
    if n > 0 {
      Unbacked(poll, goodRun, n - 1);
    }
  }

  /** However often a server has asked, 56 good replies in a row after the last time put back the
      configured poll of eight seconds or more: no peer stays slow for good. */
  lemma {:induction false} Recovers(b: Backoff, poll: real, k: nat)
    requires b.interval.Some? && b.goodRun == 0 && poll >= 8.0 && b.interval.value <= 8.0 * PowerOfTwo(k) && k >= 1
    ensures Answers(b, poll, 8 * k).interval == None
    decreases k
  {
    EightEase(b, poll);
    var eased := Answers(b, poll, 8);
    AnswersAdd(b, poll, 8, 8 * (k - 1));
    if eased.interval.None? {
      Unbacked(poll, eased.goodRun, 8 * (k - 1));
    } else {
      assert PowerOfTwo(k) == 2.0 * PowerOfTwo(k - 1);
      assert k > 1;
      Recovers(eased, poll, k - 1);
    }
  }

  lemma NoPeerStaysSlow(b: Backoff, poll: real, exponent: int)
    requires poll >= 8.0
    ensures Answers(Rated(b, poll, exponent), poll, 56).interval == None
  {
    assert PowerOfTwo(7) == 128.0;
    Recovers(Rated(b, poll, exponent), poll, 7);
  }

  // ---- as it is computed ---------------------------------------------------------------------------

  /** The round trips in the register, and the quickest of them. */
  method CollectDelays(filter: seq<Sample>) returns (delays: seq<real>, lowest: real)
    ensures delays == Delays(filter) && (delays != [] ==> lowest == Lowest(delays))
  {
    delays, lowest := [], 0.0;
    for i := 0 to |filter|
      invariant delays == Delays(filter[..i]) && (delays != [] ==> lowest == Lowest(delays))
    {
      DelaysNext(filter, i);
      if filter[i].valid {
        LowestNext(delays, filter[i].delay);
        lowest := if delays == [] then filter[i].delay else Min(lowest, filter[i].delay);
        delays := delays + [filter[i].delay];
      }
    }
    assert filter[..|filter|] == filter;
  }

  lemma DelaysNext(filter: seq<Sample>, i: nat)
    requires i < |filter|
    ensures Delays(filter[..i + 1]) == Delays(filter[..i]) + if filter[i].valid then [filter[i].delay] else []
  {
    Extend(filter, i);
  }

  lemma LowestNext(delays: seq<real>, d: real)
    ensures Lowest(delays + [d]) == if delays == [] then d else Min(Lowest(delays), d)
  {
    assert (delays + [d])[..|delays|] == delays;
  }

  class NtpPeer {
    const pollSeconds: real
    const filter: array<Sample>
    var seqNo: nat
    var handedOn: nat
    var spikeRun: nat
    var backoff: Backoff

    /** What has happened, and the samples given to the estimator. */
    ghost var events: seq<Event>
    ghost var handed: seq<Sample>

    function Current(): State
      reads `seqNo, `handedOn, `spikeRun, filter
    {
      State(filter[..], seqNo, handedOn, spikeRun)
    }

    ghost predicate Valid()
      reads this, filter
    {
      filter.Length == FILTER_SIZE && Current() == Run(events) && handed == Handed(events) && Backed(backoff, pollSeconds)
    }

    constructor (pollSeconds: real)
      ensures Valid() && fresh(filter) && this.pollSeconds == pollSeconds && events == [] && backoff == Backoff(None, 0)
    {
      this.pollSeconds := pollSeconds;
      filter := new Sample[FILTER_SIZE](_ => NoSample);
      seqNo, handedOn, spikeRun, backoff, events, handed := 0, 0, 0, Backoff(None, 0), [], [];
      new;
      assert filter[..] == EmptyFilter;
    }

    /** The name resolved to another server: the register is of the old path. */
    method MoveTo()
      requires Valid()
      modifies this, filter
      ensures Valid() && events == old(events) + [Moved] && handed == old(handed) && backoff == old(backoff)
    {
      Appended(events, Moved);
      Empty();
      spikeRun := 0;
      events := events + [Moved];
    }

    method DropTiming()
      requires Valid()
      modifies this, filter
      ensures Valid() && events == old(events) + [Dropped] && handed == old(handed) && backoff == old(backoff)
    {
      Appended(events, Dropped);
      Empty();
      handedOn := 0;
      events := events + [Dropped];
    }

    method Empty()
      requires filter.Length == FILTER_SIZE
      modifies filter
      ensures filter[..] == EmptyFilter
    {
      for i := 0 to filter.Length
        invariant forall j :: 0 <= j < i ==> filter[j] == NoSample
      {
        filter[i] := NoSample;
      }
    }

    /** A reply accepted: into the register, and on to the estimator if its round trip is clean. */
    method FilterAdd(offset: real, delay: real, at: real)
      requires Valid()
      modifies this, filter
      ensures Valid() && events == old(events) + [Accept(offset, delay, at)] && backoff == old(backoff)
      ensures handed == old(handed) || handed == old(handed) + [Sample(offset, delay, at, seqNo, true)]
    {
      hide Slow, Run, Handed, Delays, Backed;
      ghost var e, s0 := Accept(offset, delay, at), Current();
      Appended(events, e);
      events := events + [e];
      seqNo := seqNo + 1;
      var s := Sample(offset, delay, at, seqNo, true);
      ShiftIn(s);
      assert filter[..] == Shifted(s0.filter, SampleOf(s0, e));
      SomeDelay(filter[..]);
      var slow := Gate(delay);
      if slow {
        spikeRun := spikeRun + 1;
        if spikeRun < SPIKE_RUN_LIMIT {
          return;
        }
      }
      spikeRun := 0;
      if seqNo > handedOn {
        handedOn := seqNo;
        handed := handed + [s];
      }
    }

    /** In at the front; the oldest falls off the end. */
    method ShiftIn(s: Sample)
      requires filter.Length == FILTER_SIZE
      modifies filter
      ensures filter[..] == Shifted(old(filter[..]), s)
    {
      var i := FILTER_SIZE - 1;
      while i > 0
        invariant 0 <= i < FILTER_SIZE
        invariant forall j :: 0 <= j <= i ==> filter[j] == old(filter[j])
        invariant forall j :: i < j < FILTER_SIZE ==> filter[j] == old(filter[j - 1])
      {
        filter[i] := filter[i - 1];
        i := i - 1;
      }
      filter[0] := s;
    }

    method Gate(delay: real) returns (slow: bool)
      requires filter.Length == FILTER_SIZE && Delays(filter[..]) != []
      ensures slow == Slow(Delays(filter[..]), delay)
    {
      var delays, best := CollectDelays(filter[..]);
      var cleanSpread := Sort(delays)[|delays| / 4] - best;
      var excess := delay - best;
      var allowed := Max(Max(2.0 * SPIKE_BIAS_FLOOR_SEC, best), SPIKE_SPREAD_FACTOR * cleanSpread);
      slow := excess > allowed;
    }

    method OnRateKiss(exponent: int)
      requires Valid() && pollSeconds > 0.0
      modifies `backoff
      ensures Valid() && backoff == Rated(old(backoff), pollSeconds, exponent)
    {
      hide Run, Handed, Backed, Asked;
      BackedStays(backoff, pollSeconds, exponent);
      var current := Interval(backoff, pollSeconds);
      backoff := Backoff(Some(Min(MAX_BACKOFF_POLL_SEC, Max(current * 2.0, Asked(exponent)))), 0);
    }

    method OnGoodReply()
      requires Valid() && pollSeconds > 0.0
      modifies `backoff
      ensures Valid() && backoff == Answered(old(backoff), pollSeconds)
    {
      hide Run, Handed, Backed;
      BackedStays(backoff, pollSeconds, 0);
      if backoff.interval.Some? {
        backoff := backoff.(goodRun := backoff.goodRun + 1);
        if backoff.goodRun >= BACKOFF_RECOVER_AFTER {
          var eased := backoff.interval.value / 2.0;
          backoff := Backoff(if eased <= pollSeconds then None else Some(eased), 0);
        }
      }
    }
  }

  lemma Appended(es: seq<Event>, e: Event)
    ensures Run(es + [e]) == Step(Run(es), e)
    ensures Handed(es + [e]) == Handed(es) + if e.Accept? && Hands(Run(es), e) then [SampleOf(Run(es), e)] else []
  {
    assert (es + [e])[..|es|] == es;
  }
}
