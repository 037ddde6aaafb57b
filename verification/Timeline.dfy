/** The count of samples written, kept level with what the server has sent: a loss on the way shows as a
    step of the stamps against the count, and is filled with silence. */
module Timeline {
  import opened Folds
  import opened Arithmetic

  const NANOS := 1000000000
  const MAX_FILL_SEC := 1.5
  const MAX_BACK_STEP_SEC := 0.1
  const CAPTURE_FRAME_TOLERANCE_SEC := 0.00005
  const WORD := 0x1_0000_0000_0000_0000

  /** The difference of two unsigned 64-bit stamps, read as a signed one. */
  function Signed(x: int): int {
    var u := x % WORD;
    if u < WORD / 2 then u else u - WORD
  }

  /** Rounding to the nearest whole number, halves away from zero. */
  function Round(x: real): int {
    if x >= 0.0 then (x + 0.5).Floor else -(-x + 0.5).Floor
  }

  function Duration(samples: int, rate: int): (d: real)
    requires rate > 0
    ensures samples > 0 ==> d > 0.0
  {
    samples as real / rate as real
  }

  /** The whole number of frames nearest a step. */
  function Frames(step: real, frameSec: real): int
    requires frameSec != 0.0
  {
    Round(step / frameSec)
  }

  predicate WholeFrames(step: real, frameSec: real)
    requires frameSec != 0.0
  {
    Abs(step - Frames(step, frameSec) as real * frameSec) <= CAPTURE_FRAME_TOLERANCE_SEC
  }

  datatype State = State(
    decoderRate: int, capture: bool, samplesWritten: int, lastFrameSamples: int,
    have: bool, originNanos: int, originSample: int, baseline: real,
    blockHave: bool, blockStartNanos: int, blockMin: real, gapFills: nat, discards: nat)

  /** How far a frame's stamp runs ahead of the samples counted before it. */
  function Drift(s: State, stamp: int, rate: int): real
    requires rate > 0
  {
    Signed(stamp - s.originNanos) as real * 0.000000001 - Duration(s.samplesWritten - s.originSample, rate)
  }

  /** The end of a block: its smallest drift against the baseline. */
  function CloseBlock(s: State, rate: int): State
    requires rate > 0 && s.lastFrameSamples > 0
  {
    var step, frameSec := s.blockMin - s.baseline, Duration(s.lastFrameSamples, rate);
    var closed := s.(blockHave := false, baseline := s.blockMin);
    if s.capture && step > 0.5 * frameSec && !WholeFrames(step, frameSec) && step <= MAX_FILL_SEC then
      closed
    else if step > 0.5 * frameSec && step <= MAX_FILL_SEC then
      var fill := Frames(step, frameSec) * s.lastFrameSamples;
      closed.(baseline := s.blockMin - Duration(fill, rate),
              samplesWritten := s.samplesWritten + if fill > 0 then fill else 0,
              gapFills := s.gapFills + if fill > 0 then 1 else 0)
    else if step > MAX_FILL_SEC || step < -MAX_BACK_STEP_SEC then
      closed.(discards := s.discards + 1)
    else
      closed
  }

  /** A decoder takes a rate only in multiples of 200 Hz. */
  predicate Decodable(rate: int) {
    rate > 0 ==> rate % 200 == 0
  }

  function FrameLength(s: State, rate: int, frameSamples: int): int {
    if frameSamples > 0 then frameSamples else if s.lastFrameSamples > 0 then s.lastFrameSamples else rate / 50
  }

  function Begun(s: State, stamp: int): State {
    if s.have then s
    else s.(have := true, originNanos := stamp, originSample := s.samplesWritten, baseline := 0.0, blockHave := false)
  }

  /** A block begins with a frame, or its smallest drift is that of a later one. */
  function Observe(s: State, stamp: int, d: real): State {
    if !s.blockHave then s.(blockHave := true, blockStartNanos := stamp, blockMin := d)
    else s.(blockMin := Min(s.blockMin, d))
  }

  /** What a frame's stamp does, before its samples are counted. */
  function Track(s: State, stamp: int, rate: int, frameSamples: int): State
    requires Decodable(s.decoderRate)
  {
    if rate <= 0 || rate != s.decoderRate then s.(have := false)
    else if stamp == 0 then s
    else
      var s1 := Begun(s.(lastFrameSamples := FrameLength(s, rate, frameSamples)), stamp);
      var s2 := if s1.blockHave && Signed(stamp - s1.blockStartNanos) >= NANOS
                then CloseBlock(s1, rate) else s1;
      Observe(s2, stamp, Drift(s2, stamp, rate))
  }

  /** A frame received: its stamp is followed, then its samples are counted. */
  function Receive(s: State, stamp: int, rate: int, frameSamples: int): State
    requires Decodable(s.decoderRate)
  {
    var t := Track(s, stamp, rate, frameSamples);
    t.(samplesWritten := t.samplesWritten + if frameSamples > 0 then frameSamples else 0)
  }

  class Source {
    var decoderRate: int
    var capture: bool
    var samplesWritten: int
    var lastFrameSamples: int
    var tsHave: bool
    var tsOriginNanos: int
    var tsOriginSample: int
    var tsBaseline: real
    var tsBlockHave: bool
    var tsBlockStartNanos: int
    var tsBlockMin: real
    var gapFills: nat
    var discards: nat

    function Current(): State
      reads this
    {
      State(decoderRate, capture, samplesWritten, lastFrameSamples, tsHave, tsOriginNanos, tsOriginSample, tsBaseline,
            tsBlockHave, tsBlockStartNanos, tsBlockMin, gapFills, discards)
    }

    constructor (rate: int, capture: bool)
      requires Decodable(rate)
      ensures Current() == State(rate, capture, 0, TruncatedFrame(rate), false, 0, 0, 0.0, false, 0, 0.0, 0, 0)
    {
      decoderRate, this.capture, samplesWritten, lastFrameSamples := rate, capture, 0, TruncatedFrame(rate);
      tsHave, tsOriginNanos, tsOriginSample, tsBaseline := false, 0, 0, 0.0;
      tsBlockHave, tsBlockStartNanos, tsBlockMin, gapFills, discards := false, 0, 0.0, 0, 0;
    }

    method FeedSamples(count: int)
      modifies `samplesWritten
      ensures samplesWritten == old(samplesWritten) + if count > 0 then count else 0
    {
      if count <= 0 {
        return;
      }
      samplesWritten := samplesWritten + count;
    }

    /** A piece at a time, none longer than a second. */
    method FeedSilence(count: int, rate: int)
      modifies `samplesWritten
      ensures samplesWritten == old(samplesWritten) + if count > 0 then count else 0
    {
      var chunk := if rate > 1 then rate else 1;
      var left := count;
      while left > 0
        invariant count > 0 ==> left >= 0 && samplesWritten - old(samplesWritten) == count - left
        invariant count <= 0 ==> left == count && samplesWritten == old(samplesWritten)
      {
        var n := if left < chunk then left else chunk;
        FeedSamples(n);
        left := left - n;
      }
    }

    method CloseTimeBlock(rate: int)
      requires rate > 0 && lastFrameSamples > 0
      modifies `samplesWritten, `tsBaseline, `tsBlockHave, `gapFills, `discards
      ensures Current() == CloseBlock(old(Current()), rate)
    {
      hide Duration, Frames, WholeFrames;
      var step := tsBlockMin - tsBaseline;
      var frameSec := Duration(lastFrameSamples, rate);
      var reanchor := capture && step > 0.5 * frameSec && !WholeFrames(step, frameSec);
      if reanchor && step <= MAX_FILL_SEC {
        tsBaseline := tsBlockMin;
      } else if step > 0.5 * frameSec && step <= MAX_FILL_SEC {
        var fill := Frames(step, frameSec) * lastFrameSamples;
        if fill > 0 {
          gapFills := gapFills + 1;
          FeedSilence(fill, rate);
        }
        tsBaseline := tsBlockMin - Duration(fill, rate);
      } else if step > MAX_FILL_SEC || step < -MAX_BACK_STEP_SEC {
        discards := discards + 1;
        tsBaseline := tsBlockMin;
      } else {
        tsBaseline := tsBlockMin;
      }
      tsBlockHave := false;
    }

    method TrackTimeline(timestampNanos: int, rate: int, frameSamples: int)
      requires Decodable(decoderRate)
      modifies this
      ensures Current() == Track(old(Current()), timestampNanos, rate, frameSamples)
    {
      hide CloseBlock, Drift, Observe, Signed;
      if rate <= 0 || rate != decoderRate {
        tsHave := false;
        return;
      }
      if timestampNanos == 0 {
        return;
      }
      if frameSamples > 0 {
        lastFrameSamples := frameSamples;
      }
      if lastFrameSamples <= 0 {
        lastFrameSamples := rate / 50;
      }
      if !tsHave {
        tsHave, tsOriginNanos, tsOriginSample, tsBaseline, tsBlockHave := true, timestampNanos, samplesWritten, 0.0, false;
      }
      if tsBlockHave && Signed(timestampNanos - tsBlockStartNanos) >= NANOS {
        CloseTimeBlock(rate);
      }
      ObserveDrift(timestampNanos, Drift(Current(), timestampNanos, rate));
    }

    method ObserveDrift(timestampNanos: int, d: real)
      modifies `tsBlockHave, `tsBlockStartNanos, `tsBlockMin
      ensures Current() == Observe(old(Current()), timestampNanos, d)
    {
      if !tsBlockHave {
        tsBlockHave, tsBlockStartNanos, tsBlockMin := true, timestampNanos, d;
      } else {
        tsBlockMin := Min(tsBlockMin, d);
      }
    }

    method OnFrame(timestampNanos: int, rate: int, frameSamples: int)
      requires Decodable(decoderRate)
      modifies this
      ensures Current() == Receive(old(Current()), timestampNanos, rate, frameSamples)
    {
      TrackTimeline(timestampNanos, rate, frameSamples);
      FeedSamples(frameSamples);
    }
  }

  /** The frame length taken for granted before one has been seen. */
  function TruncatedFrame(rate: int): int {
    if rate >= 0 then rate / 50 else -(-rate / 50)
  }

  // ---- the end of a block, whatever the stamps ---------------------------------------------------------

  /** How far a step is from so many frames. */
  function OffFrames(step: real, frameSec: real, k: int): real { Abs(step - k as real * frameSec) }

  lemma RoundIsNearest(x: real, k: int)
    ensures Abs(x - Round(x) as real) <= 0.5 && Abs(x - Round(x) as real) <= Abs(x - k as real)
  {
    assert Round(x) as real - 0.5 <= x <= Round(x) as real + 0.5;
    assert k == Round(x) || k <= Round(x) - 1 || k >= Round(x) + 1;
  }

  lemma OffFramesIs(step: real, frameSec: real, k: int)
    requires frameSec > 0.0
    ensures OffFrames(step, frameSec, k) == Times(Abs(step / frameSec - k as real), frameSec)
  {
    var q := step / frameSec;
    assert q * frameSec == step;
    Distribute(frameSec, q, k as real);
    ProductSign(q - k as real, frameSec);
  }

  /** No whole number of frames is nearer a step than the one taken, which is no more than half a frame off. */
  lemma FramesAreNearest(step: real, frameSec: real, k: int)
    requires frameSec > 0.0
    ensures OffFrames(step, frameSec, Frames(step, frameSec)) <= OffFrames(step, frameSec, k)
    ensures OffFrames(step, frameSec, Frames(step, frameSec)) <= 0.5 * frameSec
  {
    var q, n := step / frameSec, Frames(step, frameSec);
    OffFramesIs(step, frameSec, k);
    OffFramesIs(step, frameSec, n);
    RoundIsNearest(q, k);
    hide *;
    TimesOrdered(frameSec, Abs(q - n as real), Abs(q - k as real));
    TimesOrdered(frameSec, Abs(q - n as real), 0.5);
  }

  lemma TimesOrdered(w: real, x: real, y: real)
    requires w > 0.0 && x <= y
    ensures Times(x, w) <= Times(y, w) && Times(0.5, w) == 0.5 * w
  {
    Ordered(w, x, y);
  }

  lemma WholeFramesIs(step: real, frameSec: real)
    requires frameSec > 0.0
    ensures WholeFrames(step, frameSec) <==> exists k: int :: OffFrames(step, frameSec, k) <= 0.00005
  {
    assert WholeFrames(step, frameSec) <==> OffFrames(step, frameSec, Frames(step, frameSec)) <= 0.00005;
    hide WholeFrames, OffFrames, Frames;
    if k: int :| OffFrames(step, frameSec, k) <= 0.00005 {
      FramesAreNearest(step, frameSec, k);
    }
  }

  lemma SomeFrames(step: real, frameSec: real)
    requires frameSec > 0.0 && step > 0.5 * frameSec
    ensures Frames(step, frameSec) >= 1
  {
    var q := step / frameSec;
    assert q * frameSec == step;
    QuotientAtLeast(step, frameSec, 0.5);
  }

  lemma DurationOfFrames(frames: int, samples: int, rate: int)
    requires rate > 0
    ensures Duration(frames * samples, rate) == frames as real * Duration(samples, rate)
  {
    assert (frames * samples) as real == frames as real * samples as real;
  }

  /** How far the smallest drift of a block is from the last one's. */
  function BlockStep(s: State): real { s.blockMin - s.baseline }

  /** A loss is made good at the end of a block exactly when the drift has stepped up by more than half a
      frame and no more than a second and a half, and, of a capture, by some whole number of frames to within
      50 us; and then by the number of whole frames nearest the step. Longer steps, and steps back by over a
      tenth of a second, are counted and put up with. Whatever was filled, the drift is afterwards reckoned
      from where that leaves it. */
  lemma BlockClosesExactly(s: State, rate: int)
    requires rate > 0 && s.lastFrameSamples > 0
    ensures
      var t, step, frameSec := CloseBlock(s, rate), BlockStep(s), Duration(s.lastFrameSamples, rate);
      var fills := 0.5 * frameSec < step <= 1.5 && (s.capture ==> exists k: int :: OffFrames(step, frameSec, k) <= 0.00005);
      var filled := t.samplesWritten - s.samplesWritten;
      && filled == (if fills then Frames(step, frameSec) * s.lastFrameSamples else 0)
      && (fills ==> filled > 0 && Abs(step - Duration(filled, rate)) <= 0.5 * frameSec)
      && t.gapFills == s.gapFills + (if fills then 1 else 0)
      && t.discards == s.discards + (if step > 1.5 || step < -0.1 then 1 else 0)
      && t.baseline == s.blockMin - Duration(filled, rate) && !t.blockHave
  {
    hide WholeFrames, OffFrames, Frames, Duration;
    var step, frameSec := BlockStep(s), Duration(s.lastFrameSamples, rate);
    WholeFramesIs(step, frameSec);
    Fills(step, s.lastFrameSamples, rate);
  }

  lemma Fills(step: real, samples: int, rate: int)
    requires rate > 0 && samples > 0
    ensures
      var frameSec := Duration(samples, rate);
      var fill := Frames(step, frameSec) * samples;
      && Duration(0, rate) == 0.0
      && (step > 0.5 * frameSec ==> fill > 0 && Abs(step - Duration(fill, rate)) <= 0.5 * frameSec)
  {
    var frameSec := Duration(samples, rate);
    FramesAreNearest(step, frameSec, 0);
    DurationOfFrames(Frames(step, frameSec), samples, rate);
    if step > 0.5 * frameSec {
      SomeFrames(step, frameSec);
      hide Duration, Frames;
    }
  }

  // ---- a stream of equal frames with exact stamps -----------------------------------------------------

  /** Frames of `samples` at `rate`, each `nanos` long exactly; the first is stamped `first`. */
  datatype Stream = Stream(rate: int, samples: int, nanos: int, first: int)
  {
    function Nanos(frames: int): int { frames * nanos }
    function Stamp(k: nat): int { first + Nanos(k) }
    function Count(frames: int): int { samples * frames }
    function Seconds(frames: int): real { frames as real * (nanos as real * 0.000000001) }
  }

  predicate IsStream(g: Stream) {
    && g.rate > 0 && g.rate % 200 == 0 && g.samples > 0 && g.nanos > 0 && g.first > 0
    && g.samples * NANOS == g.nanos * g.rate
  }

  /** The numbers, in the stream the server sent, of the frames that arrive: some are lost. */
  ghost predicate Received(g: Stream, ks: seq<nat>) {
    && (ks != [] ==> ks[0] == 0)
    && (forall i, j :: 0 <= i < j < |ks| ==> ks[i] < ks[j])
    && (forall i :: 0 <= i < |ks| ==> g.Nanos(ks[i]) < WORD / 2)
  }

  /** How many frames were lost between two of those received. */
  function Lost(ks: seq<nat>, a: nat, b: nat): int
    requires a < |ks| && b < |ks|
  {
    ks[b] - ks[a] - (b - a)
  }

  /** Which received frame began the block now open and which the one before it, how many frames have been
      given up as lost for good, and how often. */
  datatype Ledger = Ledger(previous: nat, start: nat, owed: int, discards: nat)

  predicate TooMuch(g: Stream, lost: int) {
    g.Seconds(lost) > MAX_FILL_SEC
  }

  function Account(g: Stream, ks: seq<nat>, i: nat): (l: Ledger)
    requires i < |ks|
    ensures l.previous <= l.start <= i
  {
    if i == 0 then Ledger(0, 0, 0, 0)
    else
      var l := Account(g, ks, i - 1);
      if g.Nanos(ks[i]) - g.Nanos(ks[l.start]) >= NANOS then
        var lost := Lost(ks, l.previous, l.start);
        if TooMuch(g, lost) then Ledger(l.start, i, l.owed + lost, l.discards + 1)
        else Ledger(l.start, i, l.owed, l.discards)
      else l
  }

  /** The state after the first `n` frames that arrive. */
  function Run(s0: State, g: Stream, ks: seq<nat>, n: nat): (s: State)
    requires n <= |ks| && Decodable(s0.decoderRate)
    ensures s.decoderRate == s0.decoderRate
  {
    if n == 0 then s0 else Receive(Run(s0, g, ks, n - 1), g.Stamp(ks[n - 1]), g.rate, g.samples)
  }

  // ---- exact stamps ----------------------------------------------------------------------------------

  lemma SignedDifference(a: int, b: int)
    requires -WORD / 2 <= a - b < WORD / 2
    ensures Signed(a - b) == a - b
  {
  }

  lemma SecondsAdd(g: Stream, a: int, b: int)
    ensures g.Seconds(a + b) == g.Seconds(a) + g.Seconds(b) && g.Seconds(0) == 0.0
  {
    Distribute(g.nanos as real * 0.000000001, a as real, b as real);
  }

  lemma SecondsInOrder(g: Stream, a: int, b: int)
    requires IsStream(g) && a <= b
    ensures g.Seconds(a) <= g.Seconds(b) && (a < b ==> g.Seconds(a) < g.Seconds(b))
  {
    SecondsAdd(g, a, b - a);
    var n := (b - a) as real;
    ProductSign(n, g.nanos as real * 0.000000001);
  }

  /** The count of samples takes exactly as long as the stamps say. */
  lemma DurationIsSeconds(g: Stream, n: int)
    requires IsStream(g)
    ensures Duration(g.Count(n), g.rate) == g.Seconds(n)
  {
    var r, f, m := g.rate as real, g.samples as real, n as real;
    var frame := g.nanos as real * 0.000000001;
    assert f == frame * r by {
      assert f * 1000000000.0 == g.nanos as real * r;
    }
    assert (g.samples * n) as real == f * m;
    assert f * m == (m * frame) * r;
    QuotientOf(m * frame, r);
  }

  lemma FramesOfSeconds(g: Stream, n: nat)
    requires IsStream(g)
    ensures g.Seconds(1) > 0.0 && Frames(g.Seconds(n), g.Seconds(1)) == n
    ensures WholeFrames(g.Seconds(n), g.Seconds(1))
  {
    var frame := g.nanos as real * 0.000000001;
    assert g.Seconds(1) == frame > 0.0;
    FramesOf(g.Seconds(n), frame, n);
  }

  lemma FramesOf(step: real, frame: real, n: nat)
    requires frame > 0.0 && step == n as real * frame
    ensures Frames(step, frame) == n && WholeFrames(step, frame)
  {
    QuotientOf(n as real, frame);
    assert step / frame == n as real;
    assert (n as real + 0.5).Floor == n;
  }

  /** When a block closes, what was lost in the one before is filled, or given up if it is too much. */
  lemma ClosesBy(s: State, g: Stream, owed: int, lost: nat)
    requires IsStream(g) && s.lastFrameSamples == g.samples
    requires s.baseline == g.Seconds(owed) && s.blockMin == g.Seconds(owed + lost)
    ensures
      var closed := s.(blockHave := false, gapFills := CloseBlock(s, g.rate).gapFills);
      CloseBlock(s, g.rate)
      == if TooMuch(g, lost) then closed.(baseline := g.Seconds(owed + lost), discards := s.discards + 1)
         else closed.(baseline := g.Seconds(owed), samplesWritten := s.samplesWritten + g.Count(lost))
  {
    SecondsAdd(g, owed, lost);
    DurationIsSeconds(g, 1);
    DurationIsSeconds(g, lost);
    FramesOfSeconds(g, lost);
    SecondsInOrder(g, if lost > 0 then 1 else 0, lost);
    hide Duration, Frames, WholeFrames, Stream.Seconds;
    Whole(g, lost);
    hide Stream.Count;
  }

  lemma Whole(g: Stream, n: nat)
    requires g.samples > 0
    ensures g.Count(1) == g.samples && g.Count(0) == 0 && n * g.samples == g.Count(n) >= 0
    ensures n > 0 ==> g.Count(n) > 0
  {
  }

  // ---- the run --------------------------------------------------------------------------------------

  /** The samples counted before frame `i` is: all that the server had sent before the last block but one
      ended, the frames received since, and none of those given up. */
  function CountedBefore(g: Stream, ks: seq<nat>, i: nat): int
    requires i < |ks|
  {
    var l := Account(g, ks, i);
    ks[l.previous] + (i - l.previous) - l.owed
  }

  /** A source with a block open since the stamp `since`, `owed` frames given up, `late` missing when the
      block began, and `counted` frames counted. */
  ghost predicate Standing(s0: State, s: State, g: Stream, since: int, owed: int, late: int, discards: int, counted: int) {
    && s.decoderRate == g.rate && s.lastFrameSamples == g.samples && s.capture == s0.capture
    && s.have && s.originNanos == g.first && s.originSample == s0.samplesWritten
    && s.blockHave && s.blockStartNanos == since
    && s.baseline == g.Seconds(owed) && s.blockMin == g.Seconds(late)
    && s.discards == s0.discards + discards
    && s.samplesWritten == s0.samplesWritten + g.Count(counted)
  }

  ghost predicate InStep(s0: State, s: State, g: Stream, ks: seq<nat>, i: nat)
    requires i < |ks|
  {
    var l := Account(g, ks, i);
    Standing(s0, s, g, g.Stamp(ks[l.start]), l.owed, l.owed + Lost(ks, l.previous, l.start), l.discards,
             CountedBefore(g, ks, i) + 1)
  }

  lemma LostGrows(g: Stream, ks: seq<nat>, a: nat, b: nat, c: nat)
    requires Received(g, ks) && a <= b <= c < |ks|
    ensures 0 <= Lost(ks, a, b) <= Lost(ks, a, c)
    decreases c
  {
    if b < c {
      LostGrows(g, ks, a, b, c - 1);
      assert ks[c - 1] < ks[c];
    } else if a < b {
      LostGrows(g, ks, a, b - 1, b - 1);
      assert ks[b - 1] < ks[b];
    }
  }

  /** The drift of a frame: what is missing from the count when it comes. */
  lemma DriftIs(s: State, g: Stream, k: nat, counted: int)
    requires IsStream(g) && g.Nanos(k) < WORD / 2 && s.originNanos == g.first
    requires s.samplesWritten == s.originSample + g.Count(counted)
    ensures Drift(s, g.Stamp(k), g.rate) == g.Seconds(k - counted)
  {
    assert g.Nanos(k) >= 0;
    SignedDifference(g.Stamp(k), g.first);
    DurationIsSeconds(g, counted);
    SecondsAdd(g, k - counted, counted);
    assert g.Nanos(k) as real * 0.000000001 == g.Seconds(k);
  }

  lemma FirstFrame(s0: State, g: Stream, ks: seq<nat>)
    requires IsStream(g) && Received(g, ks) && ks != [] && s0.decoderRate == g.rate && !s0.have
    ensures InStep(s0, Receive(s0, g.Stamp(0), g.rate, g.samples), g, ks, 0)
  {
    SecondsAdd(g, 0, 0);
    var begun := Begun(s0.(lastFrameSamples := g.samples), g.first);
    assert g.Stamp(0) == g.first;
    DriftIs(begun, g, 0, 0);
    CountAdds(g, 0, 1);
    hide Drift;
  }

  /** A frame within the open block, no earlier than the block's first: only its samples count. */
  lemma WithinBlock(s: State, stamp: int, samples: int)
    requires Decodable(s.decoderRate) && s.decoderRate > 0 && s.have && s.blockHave && s.lastFrameSamples == samples > 0
    requires stamp != 0 && Signed(stamp - s.blockStartNanos) < NANOS && s.blockMin <= Drift(s, stamp, s.decoderRate)
    ensures Receive(s, stamp, s.decoderRate, samples) == s.(samplesWritten := s.samplesWritten + samples)
  {
    hide Drift, Signed, CloseBlock;
  }

  /** The first frame of the next block. */
  lemma EndsBlock(s: State, stamp: int, samples: int)
    requires Decodable(s.decoderRate) && s.decoderRate > 0 && s.have && s.blockHave && s.lastFrameSamples == samples > 0
    requires stamp != 0 && Signed(stamp - s.blockStartNanos) >= NANOS
    ensures
      var c := CloseBlock(s, s.decoderRate);
      !c.blockHave && Receive(s, stamp, s.decoderRate, samples)
      == c.(blockHave := true, blockStartNanos := stamp, blockMin := Drift(c, stamp, s.decoderRate),
            samplesWritten := c.samplesWritten + samples)
  {
    hide Drift, Signed, Duration, Frames, WholeFrames;
  }

  lemma CountAdds(g: Stream, a: int, b: int)
    ensures g.Count(a + b) == g.Count(a) + g.Count(b) && g.Count(1) == g.samples && g.Count(0) == 0
  {
  }

  /** A frame later in the block than its first is no less late, so the block's smallest drift stays. */
  lemma FrameInBlock(s0: State, s: State, g: Stream, since: int, owed: int, late: int, discards: int, counted: int, k: nat)
    requires IsStream(g) && Standing(s0, s, g, since, owed, late, discards, counted) && late <= k - counted
    requires g.Nanos(k) < WORD / 2 && g.Stamp(k) > 0 && Signed(g.Stamp(k) - since) < NANOS
    ensures Standing(s0, Receive(s, g.Stamp(k), g.rate, g.samples), g, since, owed, late, discards, counted + 1)
  {
    DriftIs(s, g, k, counted);
    SecondsInOrder(g, late, k - counted);
    hide Drift, Signed, Receive, Stream.Seconds, Stream.Stamp, Stream.Count, Stream.Nanos;
    WithinBlock(s, g.Stamp(k), g.samples);
    CountAdds(g, counted, 1);
  }

  lemma SameBlock(s0: State, s: State, g: Stream, ks: seq<nat>, i: nat)
    requires IsStream(g) && Received(g, ks) && 0 < i < |ks| && InStep(s0, s, g, ks, i - 1)
    requires g.Nanos(ks[i]) - g.Nanos(ks[Account(g, ks, i - 1).start]) < NANOS
    ensures InStep(s0, Receive(s, g.Stamp(ks[i]), g.rate, g.samples), g, ks, i)
  {
    var l := Account(g, ks, i - 1);
    SameAccount(g, ks, i);
    LostGrows(g, ks, l.previous, l.start, i);
    BlockAge(g, ks, l.start, i);
    hide Account, CountedBefore, Lost, Signed, Receive, Standing, IsStream, Received, Stream.Stamp, Stream.Nanos;
    FrameInBlock(s0, s, g, g.Stamp(ks[l.start]), l.owed, l.owed + Lost(ks, l.previous, l.start), l.discards,
                 CountedBefore(g, ks, i), ks[i]);
  }

  lemma SameAccount(g: Stream, ks: seq<nat>, i: nat)
    requires 0 < i < |ks| && g.Nanos(ks[i]) - g.Nanos(ks[Account(g, ks, i - 1).start]) < NANOS
    ensures
      var l := Account(g, ks, i - 1);
      && Account(g, ks, i) == l && CountedBefore(g, ks, i) == CountedBefore(g, ks, i - 1) + 1
      && ks[i] - CountedBefore(g, ks, i) == l.owed + Lost(ks, l.previous, i)
  {
    hide TooMuch, Stream.Nanos;
  }

  lemma BlockAge(g: Stream, ks: seq<nat>, start: nat, i: nat)
    requires IsStream(g) && Received(g, ks) && start <= i < |ks|
    ensures Signed(g.Stamp(ks[i]) - g.Stamp(ks[start])) == g.Nanos(ks[i]) - g.Nanos(ks[start])
    ensures g.Stamp(ks[i]) > 0 && g.Nanos(ks[i]) < WORD / 2
  {
    var a, b := g.Nanos(ks[i]), g.Nanos(ks[start]);
    assert a >= 0 && b >= 0;
    SignedDifference(g.Stamp(ks[i]), g.Stamp(ks[start]));
  }

  /** At the end of a block what was lost in the one before is made good, or given up. */
  lemma NextBlock(s0: State, s: State, g: Stream, ks: seq<nat>, i: nat)
    requires IsStream(g) && Received(g, ks) && 0 < i < |ks| && InStep(s0, s, g, ks, i - 1)
    requires g.Nanos(ks[i]) - g.Nanos(ks[Account(g, ks, i - 1).start]) >= NANOS
    ensures InStep(s0, Receive(s, g.Stamp(ks[i]), g.rate, g.samples), g, ks, i)
  {
    var l := Account(g, ks, i - 1);
    NextAccount(g, ks, i);
    LostGrows(g, ks, l.previous, l.start, i);
    BlockAge(g, ks, l.start, i);
    hide Account, CountedBefore, Lost, Signed, Receive, Standing, TooMuch, IsStream, Received, Stream.Stamp, Stream.Nanos;
    FrameEndsBlock(s0, s, g, g.Stamp(ks[l.start]), l.owed, Lost(ks, l.previous, l.start), l.discards,
                   CountedBefore(g, ks, i - 1) + 1, ks[i]);
  }

  /** The frame that ends a block: what closing it does, and the block that begins with the frame. */
  lemma FrameEndsBlock(s0: State, s: State, g: Stream, since: int, owed: int, lost: nat, discards: int, counted: int, k: nat)
    requires IsStream(g) && Standing(s0, s, g, since, owed, owed + lost, discards, counted)
    requires g.Nanos(k) < WORD / 2 && g.Stamp(k) > 0 && Signed(g.Stamp(k) - since) >= NANOS
    ensures
      var gaveUp := TooMuch(g, lost);
      var filled := if gaveUp then 0 else lost;
      Standing(s0, Receive(s, g.Stamp(k), g.rate, g.samples), g, g.Stamp(k), owed + lost - filled,
               k - counted - filled, discards + (if gaveUp then 1 else 0), counted + filled + 1)
  {
    var filled := if TooMuch(g, lost) then 0 else lost;
    ClosesBy(s, g, owed, lost);
    EndsBlock(s, g.Stamp(k), g.samples);
    hide Drift, Signed, Receive, CloseBlock, TooMuch, Stream.Seconds, Stream.Stamp, Stream.Count, Stream.Nanos;
    CountAdds(g, counted, filled);
    DriftIs(CloseBlock(s, g.rate), g, k, counted + filled);
    CountAdds(g, counted + filled, 1);
  }

  lemma NextAccount(g: Stream, ks: seq<nat>, i: nat)
    requires 0 < i < |ks| && g.Nanos(ks[i]) - g.Nanos(ks[Account(g, ks, i - 1).start]) >= NANOS
    ensures
      var l, l' := Account(g, ks, i - 1), Account(g, ks, i);
      var lost := Lost(ks, l.previous, l.start);
      var filled := if TooMuch(g, lost) then 0 else lost;
      && l' == Ledger(l.start, i, l.owed + lost - filled, l.discards + if TooMuch(g, lost) then 1 else 0)
      && CountedBefore(g, ks, i) == CountedBefore(g, ks, i - 1) + 1 + filled
      && ks[i] - CountedBefore(g, ks, i) == l'.owed + Lost(ks, l'.previous, i)
  {
    hide TooMuch, Stream.Nanos;
  }

  /** The whole run, whatever is lost. */
  lemma {:induction false} KeepsInStep(s0: State, g: Stream, ks: seq<nat>, n: nat)
    requires IsStream(g) && Received(g, ks) && 0 < n <= |ks| && s0.decoderRate == g.rate && !s0.have
    ensures InStep(s0, Run(s0, g, ks, n), g, ks, n - 1)
  {
    hide InStep, Receive, Account, Stream.Nanos;
    if n == 1 {
      FirstFrame(s0, g, ks);
    } else {
      KeepsInStep(s0, g, ks, n - 1);
      if g.Nanos(ks[n - 1]) - g.Nanos(ks[Account(g, ks, n - 2).start]) >= NANOS {
        NextBlock(s0, Run(s0, g, ks, n - 1), g, ks, n - 1);
      } else {
        SameBlock(s0, Run(s0, g, ks, n - 1), g, ks, n - 1);
      }
    }
  }

  /** No block yet closed found more missing than may be filled. */
  ghost predicate LossesSmall(g: Stream, ks: seq<nat>, n: nat)
    requires n <= |ks|
  {
    forall i :: 0 <= i < n ==> !TooMuch(g, Lost(ks, Account(g, ks, i).previous, Account(g, ks, i).start))
  }

  lemma {:induction false} Owed(g: Stream, ks: seq<nat>, i: nat)
    requires Received(g, ks) && i < |ks|
    ensures Account(g, ks, i).owed >= 0
    ensures LossesSmall(g, ks, i) ==> Account(g, ks, i).owed == 0 && Account(g, ks, i).discards == 0
  {
    hide TooMuch, Stream.Nanos;
    if i > 0 {
      Owed(g, ks, i - 1);
      var l := Account(g, ks, i - 1);
      LostGrows(g, ks, l.previous, l.start, l.start);
    }
  }

  /** Filling gaps never puts the count ahead of the stream's own, whatever is lost; and it is level with
      it exactly when nothing has been lost since the block before the open one began, and nothing given
      up. */
  lemma NeverAhead(s0: State, g: Stream, ks: seq<nat>, i: nat)
    requires IsStream(g) && Received(g, ks) && i < |ks| && s0.decoderRate == g.rate && !s0.have
    ensures
      var s, l := Run(s0, g, ks, i + 1), Account(g, ks, i);
      && s.samplesWritten <= s0.samplesWritten + g.Count(ks[i] + 1)
      && (s.samplesWritten == s0.samplesWritten + g.Count(ks[i] + 1) <==> Lost(ks, l.previous, i) == 0 && l.owed == 0)
  {
    hide Run, Account;
    KeepsInStep(s0, g, ks, i + 1);
    Owed(g, ks, i);
    var l := Account(g, ks, i);
    LostGrows(g, ks, l.previous, i, i);
    var behind := l.owed + Lost(ks, l.previous, i);
    CountAdds(g, CountedBefore(g, ks, i) + 1, behind);
    assert CountedBefore(g, ks, i) + 1 + behind == ks[i] + 1;
    Whole(g, behind);
  }

  /** While no block loses more than may be filled, every loss is made good by the end of the block after
      the one it fell in: all the server had sent before the block before the open one began is counted,
      and all received since. The mapping to host time is never given up for it. */
  lemma LossesMadeGood(s0: State, g: Stream, ks: seq<nat>, i: nat)
    requires IsStream(g) && Received(g, ks) && i < |ks| && s0.decoderRate == g.rate && !s0.have
    requires LossesSmall(g, ks, i)
    ensures
      var s, previous := Run(s0, g, ks, i + 1), Account(g, ks, i).previous;
      && s.samplesWritten == s0.samplesWritten + g.Count(ks[previous] + (i - previous) + 1)
      && s.discards == s0.discards
  {
    hide Run, Account, LossesSmall;
    KeepsInStep(s0, g, ks, i + 1);
    Owed(g, ks, i);
  }
}
