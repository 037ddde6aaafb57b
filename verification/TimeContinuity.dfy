/** UTC does not jump: a decoded time that lands away from a source's own history is refused, until it
    has held in every reading for long enough to be the history itself. */
module TimeContinuity {
  import opened Folds

  const JUMP_LIMIT_SEC := 0.5
  const DRIFT := 0.00005
  const AGREE_SEC := 0.25
  const FIRST_READINGS := 3
  const FIRST_SPAN_SEC := 115.0
  const ADOPT_READINGS := 6
  const ADOPT_SPAN_SEC := 600.0

  datatype Outcome = Accepted | FirstConfirmed | Confirming | Refused | Adopted | LeapSecond

  datatype Verdict = Verdict(outcome: Outcome, jump: real, readings: nat, span: real)
  {
    predicate Admitted() { outcome != Confirming && outcome != Refused }
  }

  /** A decoded time, or the filtered offset the source holds from here on. */
  datatype Event = Judge(offset: real, at: real, leapWindow: bool) | Filtered(offset: real, rate: real, at: real)

  datatype State = State(
    have: bool, offset: real, rate: real, at: real,
    pending: bool, pendingOffset: real, pendingFirstAt: real, pendingLastAt: real, pendingReadings: nat)

  const Initial := State(false, 0.0, 0.0, 0.0, false, 0.0, 0.0, 0.0, 0)

  /** Two readings of one time. */
  predicate Agree(offset: real, at: real, lastOffset: real, lastAt: real) {
    Abs(offset - lastOffset) <= AGREE_SEC + Abs(at - lastAt) * DRIFT
  }

  function NotePending(s: State, offset: real, at: real): State {
    var agrees := s.pending && Agree(offset, at, s.pendingOffset, s.pendingLastAt);
    s.(pending := true, pendingFirstAt := if agrees then s.pendingFirstAt else at,
       pendingReadings := if agrees then s.pendingReadings + 1 else 1, pendingOffset := offset, pendingLastAt := at)
  }

  function StartHistory(s: State, offset: real, at: real): State {
    s.(have := true, offset := offset, at := at, pending := false, pendingReadings := 0)
  }

  function Jump(s: State, offset: real, at: real): real {
    offset - (s.offset + s.rate * (at - s.at))
  }

  function Limit(s: State, at: real): real {
    JUMP_LIMIT_SEC + Abs(at - s.at) * DRIFT
  }

  /** The announced step of one second. */
  predicate IsLeap(jump: real, leapWindow: bool) {
    leapWindow && Abs(Abs(jump) - 1.0) <= AGREE_SEC
  }

  function Judged(s: State, e: Event): (State, Verdict)
    requires e.Judge?
  {
    var jump := if s.have then Jump(s, e.offset, e.at) else 0.0;
    if s.have && Abs(jump) <= Limit(s, e.at) then
      (s.(pending := false, pendingReadings := 0), Verdict(Accepted, jump, 0, 0.0))
    else if s.have && IsLeap(jump, e.leapWindow) then
      (StartHistory(s, e.offset, e.at), Verdict(LeapSecond, jump, 0, 0.0))
    else
      var p := NotePending(s, e.offset, e.at);
      var readings, span := p.pendingReadings, p.pendingLastAt - p.pendingFirstAt;
      if !s.have then
        if readings >= FIRST_READINGS && span >= FIRST_SPAN_SEC
        then (StartHistory(p, e.offset, e.at), Verdict(FirstConfirmed, jump, readings, span))
        else (p, Verdict(Confirming, jump, readings, span))
      else
        if readings >= ADOPT_READINGS && span >= ADOPT_SPAN_SEC
        then (StartHistory(p, e.offset, e.at), Verdict(Adopted, jump, readings, span))
        else (p, Verdict(Refused, jump, readings, span))
  }

  function Step(s: State, e: Event): State {
    match e
    case Judge(_, _, _) => Judged(s, e).0
    case Filtered(offset, rate, at) => s.(have := true, offset := offset, rate := rate, at := at)
  }

  class TimeContinuity {
    var have: bool
    var offset: real
    var rate: real
    var at: real
    var pending: bool
    var pendingOffset: real
    var pendingFirstAt: real
    var pendingLastAt: real
    var pendingReadings: nat
    ghost var events: seq<Event>

    function Current(): State
      reads `have, `offset, `rate, `at, `pending, `pendingOffset, `pendingFirstAt, `pendingLastAt, `pendingReadings
    {
      State(have, offset, rate, at, pending, pendingOffset, pendingFirstAt, pendingLastAt, pendingReadings)
    }

    ghost predicate Valid()
      reads this
    {
      Current() == Run(events)
    }

    constructor ()
      ensures Valid() && events == []
    {
      have, offset, rate, at := false, 0.0, 0.0, 0.0;
      pending, pendingOffset, pendingFirstAt, pendingLastAt, pendingReadings := false, 0.0, 0.0, 0.0, 0;
      events := [];
    }

    method NotePendingReading(offsetSec: real, atSec: real)
      modifies `pending, `pendingOffset, `pendingFirstAt, `pendingLastAt, `pendingReadings
      ensures Current() == NotePending(old(Current()), offsetSec, atSec)
    {
      var agrees := pending && Agree(offsetSec, atSec, pendingOffset, pendingLastAt);
      if !agrees {
        pending, pendingFirstAt, pendingReadings := true, atSec, 0;
      }
      pendingReadings := pendingReadings + 1;
      pendingOffset, pendingLastAt := offsetSec, atSec;
    }

    method BeginHistory(offsetSec: real, atSec: real)
      modifies `have, `offset, `at, `pending, `pendingReadings
      ensures Current() == StartHistory(old(Current()), offsetSec, atSec)
    {
      have, offset, at, pending, pendingReadings := true, offsetSec, atSec, false, 0;
    }

    method Judge(offsetSec: real, atSec: real, leapWindow: bool) returns (v: Verdict)
      requires Valid()
      modifies this
      ensures Valid() && events == old(events) + [Event.Judge(offsetSec, atSec, leapWindow)]
      ensures (Current(), v) == Judged(old(Current()), Event.Judge(offsetSec, atSec, leapWindow))
    {
      hide Agree, IsLeap, Limit, Jump, Run, NotePending, StartHistory;
      ghost var e := Event.Judge(offsetSec, atSec, leapWindow);
      Appended(events, e);
      events := events + [e];
      if !have {
        NotePendingReading(offsetSec, atSec);
        var readings, span := pendingReadings, pendingLastAt - pendingFirstAt;
        if readings >= FIRST_READINGS && span >= FIRST_SPAN_SEC {
          BeginHistory(offsetSec, atSec);
          return Verdict(FirstConfirmed, 0.0, readings, span);
        }
        return Verdict(Confirming, 0.0, readings, span);
      }
      var jump := Jump(Current(), offsetSec, atSec);
      if Abs(jump) <= Limit(Current(), atSec) {
        pending, pendingReadings := false, 0;
        return Verdict(Accepted, jump, 0, 0.0);
      }
      if IsLeap(jump, leapWindow) {
        BeginHistory(offsetSec, atSec);
        return Verdict(LeapSecond, jump, 0, 0.0);
      }
      NotePendingReading(offsetSec, atSec);
      var readings, span := pendingReadings, pendingLastAt - pendingFirstAt;
      if readings >= ADOPT_READINGS && span >= ADOPT_SPAN_SEC {
        BeginHistory(offsetSec, atSec);
        return Verdict(Adopted, jump, readings, span);
      }
      v := Verdict(Refused, jump, readings, span);
    }

    method NoteFiltered(offsetSec: real, rateSec: real, atSec: real)
      requires Valid()
      modifies this
      ensures Valid() && events == old(events) + [Filtered(offsetSec, rateSec, atSec)]
      ensures Current() == Step(old(Current()), Filtered(offsetSec, rateSec, atSec))
    {
      Appended(events, Filtered(offsetSec, rateSec, atSec));
      events := events + [Filtered(offsetSec, rateSec, atSec)];
      have, offset, rate, at := true, offsetSec, rateSec, atSec;
    }
  }

  // ---- runs ----------------------------------------------------------------------------------------

  function Run(es: seq<Event>): State {
    if es == [] then Initial else Step(Run(es[..|es| - 1]), es[|es| - 1])
  }

  lemma Appended(es: seq<Event>, e: Event)
    ensures Run(es + [e]) == Step(Run(es), e)
  {
    assert (es + [e])[..|es|] == es;
  }

  function At(es: seq<Event>, i: nat): State
    requires i <= |es|
  {
    Run(es[..i])
  }

  lemma AtNext(es: seq<Event>, i: nat)
    requires i < |es|
    ensures At(es, i + 1) == Step(At(es, i), es[i])
  {
    assert es[..i + 1][..i] == es[..i];
  }

  function VerdictOn(es: seq<Event>, i: nat): Verdict
    requires i < |es| && es[i].Judge?
  {
    Judged(At(es, i), es[i]).1
  }

  /** The latest reading judged before event `i`, if there is one. */
  function Previous(es: seq<Event>, i: nat): (p: Option<nat>)
    requires i <= |es|
    ensures p.Some? ==> p.value < i && es[p.value].Judge?
    ensures forall m :: (if p.Some? then p.value + 1 else 0) <= m < i ==> es[m].Filtered?
  {
    if i == 0 then None else if es[i - 1].Judge? then Some(i - 1) else Previous(es, i - 1)
  }

  /** How far apart two instants are. */
  function Span(x: real, y: real): real { if x < y then y - x else x - y }

  /** Two readings that no crystal's drift tells apart: a quarter of a second, and 50 ppm of the time
      between, either way. */
  predicate OneTime(offset: real, at: real, other: real, otherAt: real) {
    var tol := 0.25 + 0.00005 * Span(at, otherAt);
    other - tol <= offset <= other + tol
  }

  lemma AgreeIs(offset: real, at: real, other: real, otherAt: real)
    ensures Agree(offset, at, other, otherAt) <==> OneTime(offset, at, other, otherAt)
  {
  }

  /** The `n` readings ending with the one at `i` are successive and each agrees with the one before it. */
  predicate Agreeing(es: seq<Event>, i: nat, n: nat)
    requires i < |es|
    decreases n
  {
    && es[i].Judge? && n >= 1
    && (n > 1 ==> var p := Previous(es, i);
                  && p.Some? && OneTime(es[i].offset, es[i].at, es[p.value].offset, es[p.value].at)
                  && Agreeing(es, p.value, n - 1))
  }

  /** The first of them. */
  function First(es: seq<Event>, i: nat, n: nat): (f: nat)
    requires i < |es| && Agreeing(es, i, n)
    ensures f <= i && es[f].Judge?
    decreases n
  {
    if n == 1 then i else First(es, Previous(es, i).value, n - 1)
  }

  /** None of them but perhaps the last was admitted. */
  predicate NoneAdmittedBefore(es: seq<Event>, i: nat, n: nat)
    requires i < |es| && Agreeing(es, i, n)
    decreases n
  {
    n > 1 ==> var p := Previous(es, i).value;
              !VerdictOn(es, p).Admitted() && NoneAdmittedBefore(es, p, n - 1)
  }

  // ---- what adoption takes ---------------------------------------------------------------------------

  /** What is pending is exactly a run of successive readings, each agreeing with the one before, none
      of them admitted. */
  ghost predicate Tracks(es: seq<Event>, i: nat, s: State)
    requires i <= |es|
  {
    s.pending ==>
      var last := Previous(es, i);
      && last.Some? && Agreeing(es, last.value, s.pendingReadings)
      && NoneAdmittedBefore(es, last.value, s.pendingReadings) && !VerdictOn(es, last.value).Admitted()
      && s.pendingOffset == es[last.value].offset && s.pendingLastAt == es[last.value].at
      && s.pendingFirstAt == es[First(es, last.value, s.pendingReadings)].at
  }

  lemma JudgedPending(s: State, e: Event)
    requires e.Judge?
    ensures Judged(s, e).0.pending <==> !Judged(s, e).1.Admitted()
    ensures !Judged(s, e).1.Admitted() ==> Judged(s, e).0 == NotePending(s, e.offset, e.at)
    ensures var v, p := Judged(s, e).1, NotePending(s, e.offset, e.at);
            v.outcome == Adopted || v.outcome == FirstConfirmed ==>
              v.readings == p.pendingReadings && v.span == p.pendingLastAt - p.pendingFirstAt
  {
    hide Jump, Limit, IsLeap, Agree;
  }

  lemma NotedRun(es: seq<Event>, i: nat)
    requires i < |es| && es[i].Judge? && Tracks(es, i, At(es, i))
    ensures
      var p := NotePending(At(es, i), es[i].offset, es[i].at);
      && p.pending && p.pendingOffset == es[i].offset && p.pendingLastAt == es[i].at
      && Agreeing(es, i, p.pendingReadings) && NoneAdmittedBefore(es, i, p.pendingReadings)
      && p.pendingFirstAt == es[First(es, i, p.pendingReadings)].at
  {
    hide Judged, Agree, OneTime, Run, At, VerdictOn, Previous, Agreeing, NoneAdmittedBefore, First;
    var s := At(es, i);
    AgreeIs(es[i].offset, es[i].at, s.pendingOffset, s.pendingLastAt);
    JustOne(es, i);
    if s.pending && Agree(es[i].offset, es[i].at, s.pendingOffset, s.pendingLastAt) {
      OneMore(es, Previous(es, i).value, i, s.pendingReadings);
    }
  }

  lemma JustOne(es: seq<Event>, i: nat)
    requires i < |es| && es[i].Judge?
    ensures Agreeing(es, i, 1) && NoneAdmittedBefore(es, i, 1) && First(es, i, 1) == i
  {
  }

  lemma OneMore(es: seq<Event>, last: nat, i: nat, n: nat)
    requires last < i < |es| && es[i].Judge? && Previous(es, i) == Some(last)
    requires Agreeing(es, last, n) && NoneAdmittedBefore(es, last, n) && !VerdictOn(es, last).Admitted()
    requires OneTime(es[i].offset, es[i].at, es[last].offset, es[last].at)
    ensures Agreeing(es, i, n + 1) && NoneAdmittedBefore(es, i, n + 1) && First(es, i, n + 1) == First(es, last, n)
  {
    hide Judged, OneTime, Run;
  }

  lemma {:induction false} PendingIsARun(es: seq<Event>, i: nat)
    requires i <= |es|
    ensures Tracks(es, i, At(es, i))
  {
    hide Judged, NotePending, Agreeing, NoneAdmittedBefore;
    if i > 0 {
      PendingIsARun(es, i - 1);
      AtNext(es, i - 1);
      if es[i - 1].Judge? {
        NotedRun(es, i - 1);
        JudgedPending(At(es, i - 1), es[i - 1]);
      }
    }
  }

  /** A history is replaced by a time that contradicts it only after at least six successive readings of
      that time, over ten minutes or more, each agreeing with the one before, and none admitted before the
      last; and a first history begins only after three over two minutes. Filtered offsets may come
      between. */
  lemma AdoptionTakesAgreement(es: seq<Event>, i: nat)
    requires i < |es| && es[i].Judge?
    ensures
      var v := VerdictOn(es, i);
      v.outcome == Adopted || v.outcome == FirstConfirmed ==>
        && Agreeing(es, i, v.readings) && NoneAdmittedBefore(es, i, v.readings)
        && v.span == es[i].at - es[First(es, i, v.readings)].at
        && (v.outcome == Adopted ==> v.readings >= ADOPT_READINGS && v.span >= ADOPT_SPAN_SEC)
        && (v.outcome == FirstConfirmed ==> v.readings >= FIRST_READINGS && v.span >= FIRST_SPAN_SEC)
  {
    PendingIsARun(es, i);
    NotedRun(es, i);
    JudgedPending(At(es, i), es[i]);
    VerdictNeeds(At(es, i), es[i]);
    hide Judged, NotePending, Agreeing, NoneAdmittedBefore, Run;
  }

  lemma VerdictNeeds(s: State, e: Event)
    requires e.Judge?
    ensures var v := Judged(s, e).1;
            && (v.outcome == Adopted ==> v.readings >= ADOPT_READINGS && v.span >= ADOPT_SPAN_SEC)
            && (v.outcome == FirstConfirmed ==> v.readings >= FIRST_READINGS && v.span >= FIRST_SPAN_SEC)
  {
    hide Jump, Limit, IsLeap, NotePending;
  }

  // ---- no wrong history sticks -----------------------------------------------------------------------

  /** Readings come in time order. */
  ghost predicate InOrder(es: seq<Event>) {
    forall i, j :: 0 <= i <= j < |es| && es[i].Judge? && es[j].Judge? ==> es[i].at <= es[j].at
  }

  /** One of the `n` readings ending at `i` was admitted. */
  predicate SomeAdmitted(es: seq<Event>, i: nat, n: nat)
    requires i < |es| && Agreeing(es, i, n)
    decreases n
  {
    VerdictOn(es, i).Admitted() || (n > 1 && SomeAdmitted(es, Previous(es, i).value, n - 1))
  }

  lemma {:induction false} StatePersists(es: seq<Event>, i: nat)
    requires i <= |es| && Previous(es, i).Some?
    ensures
      var s, t := At(es, Previous(es, i).value + 1), At(es, i);
      && s.pending == t.pending && s.pendingReadings == t.pendingReadings && s.pendingOffset == t.pendingOffset
      && s.pendingFirstAt == t.pendingFirstAt && s.pendingLastAt == t.pendingLastAt
  {
    hide Judged;
    if es[i - 1].Filtered? {
      AtNext(es, i - 1);
      StatePersists(es, i - 1);
    }
  }

  /** While none is admitted, agreeing readings add up. */
  lemma {:induction false} AddsUp(es: seq<Event>, i: nat, n: nat)
    requires InOrder(es) && i < |es| && Agreeing(es, i, n) && !SomeAdmitted(es, i, n)
    ensures
      var s := At(es, i + 1);
      && s.pending && s.pendingReadings >= n && s.pendingOffset == es[i].offset && s.pendingLastAt == es[i].at
      && s.pendingFirstAt <= es[First(es, i, n)].at
    decreases n
  {
    hide Judged, Agree, OneTime;
    AtNext(es, i);
    JudgedPending(At(es, i), es[i]);
    if n > 1 {
      var p := Previous(es, i).value;
      AgreeIs(es[i].offset, es[i].at, es[p].offset, es[p].at);
      AddsUp(es, p, n - 1);
      StatePersists(es, i);
    } else {
      PendingBegan(es, i);
    }
  }

  lemma PendingBegan(es: seq<Event>, i: nat)
    requires InOrder(es) && i < |es| && es[i].Judge?
    ensures At(es, i).pending ==> At(es, i).pendingFirstAt <= es[i].at
  {
    hide Judged, Agreeing, NoneAdmittedBefore, Agree;
    PendingIsARun(es, i);
  }

  lemma EnoughIsAdmitted(s: State, e: Event)
    requires e.Judge?
    requires var p := NotePending(s, e.offset, e.at);
             p.pendingReadings >= ADOPT_READINGS && p.pendingLastAt - p.pendingFirstAt >= ADOPT_SPAN_SEC
    ensures Judged(s, e).1.Admitted()
  {
    hide Jump, Limit, IsLeap, NotePending;
  }

  /** Of six or more successive readings that agree each with the one before, over ten minutes or more, one
      is admitted, the last at the latest: a wrong history does not stick. */
  lemma NoWrongHistorySticks(es: seq<Event>, i: nat, n: nat)
    requires InOrder(es) && i < |es| && Agreeing(es, i, n)
    requires n >= ADOPT_READINGS && es[i].at - es[First(es, i, n)].at >= ADOPT_SPAN_SEC
    ensures SomeAdmitted(es, i, n)
  {
    hide Judged, Agree, Run;
    if !SomeAdmitted(es, i, n) {
      AddsUp(es, i, n);
      AtNext(es, i);
      JudgedPending(At(es, i), es[i]);
      EnoughIsAdmitted(At(es, i), es[i]);
    }
  }

  // ---- what is refused -------------------------------------------------------------------------------

  /** What a source holds to: an offset at an instant, and the rate it moves at. */
  datatype History = History(offset: real, rate: real, at: real)
  {
    function CarriedTo(t: real): real { offset + rate * (t - at) }
  }

  /** The last filtered offset and rate before event `i`, or the reading that has replaced them since, at the
      rate there was. */
  function HistoryAt(es: seq<Event>, i: nat): Option<History>
    requires i <= |es|
  {
    if i == 0 then None
    else
      var before := HistoryAt(es, i - 1);
      match es[i - 1]
      case Filtered(offset, rate, at) => Some(History(offset, rate, at))
      case Judge(offset, at, _) =>
        var outcome := VerdictOn(es, i - 1).outcome;
        if outcome == FirstConfirmed || outcome == Adopted || outcome == LeapSecond
        then Some(History(offset, if before.Some? then before.value.rate else 0.0, at))
        else before
  }

  lemma StepHistory(s: State, e: Event)
    requires e.Judge?
    ensures
      var (t, v) := Judged(s, e);
      && t.rate == s.rate
      && (if v.outcome == FirstConfirmed || v.outcome == Adopted || v.outcome == LeapSecond
          then t.have && t.offset == e.offset && t.at == e.at
          else t.have == s.have && t.offset == s.offset && t.at == s.at)
  {
    hide Jump, Limit, IsLeap, Agree;
  }

  lemma {:induction false} HistoryIs(es: seq<Event>, i: nat)
    requires i <= |es|
    ensures
      var s, h := At(es, i), HistoryAt(es, i);
      && s.have == h.Some?
      && (if h.Some? then h.value == History(s.offset, s.rate, s.at) else s.rate == 0.0)
  {
    if i > 0 {
      HistoryIs(es, i - 1);
      AtNext(es, i - 1);
      if es[i - 1].Judge? {
        StepHistory(At(es, i - 1), es[i - 1]);
      }
      hide Judged;
    } else {
      assert es[..0] == [];
    }
  }

  /** Within half a second of the history carried to the reading, and 50 ppm of the time since, either way. */
  predicate Lands(h: History, offset: real, at: real) {
    var tol := 0.5 + 0.00005 * Span(at, h.at);
    h.CarriedTo(at) - tol <= offset <= h.CarriedTo(at) + tol
  }

  /** Within a quarter of a second of a second more than that, or a second less. */
  predicate LandsASecondOff(h: History, offset: real, at: real) {
    || h.CarriedTo(at) + 0.75 <= offset <= h.CarriedTo(at) + 1.25
    || h.CarriedTo(at) - 1.25 <= offset <= h.CarriedTo(at) - 0.75
  }

  /** At least `n` successive readings of one time, up to the one at `i`, over so long, and none of them
      admitted before that one. */
  ghost predicate HasHeld(es: seq<Event>, i: nat, least: nat, span: real)
    requires i < |es| && es[i].Judge?
  {
    exists n: nat :: n >= least && Agreeing(es, i, n) && NoneAdmittedBefore(es, i, n) && es[i].at - es[First(es, i, n)].at >= span
  }

  /** What a reading is taken for, over every run: with no history it waits to be confirmed; with one it is
      accepted just when it lands on it, let through as the announced step of one second just when it lands
      on that in its window, and is otherwise refused, until it has held for long enough to be adopted. */
  lemma VerdictsExactly(es: seq<Event>, i: nat)
    requires InOrder(es) && i < |es| && es[i].Judge?
    ensures
      var e := es[i];
      VerdictOn(es, i).outcome
      == match HistoryAt(es, i)
         case None => if HasHeld(es, i, 3, 115.0) then FirstConfirmed else Confirming
         case Some(h) =>
           if Lands(h, e.offset, e.at) then Accepted
           else if e.leapWindow && LandsASecondOff(h, e.offset, e.at) then LeapSecond
           else if HasHeld(es, i, 6, 600.0) then Adopted
           else Refused
  {
    var s, e := At(es, i), es[i];
    HistoryIs(es, i);
    if s.have {
      LandsIs(s, e.offset, e.at, e.leapWindow);
    }
    HeldIs(es, i, 3, 115.0);
    HeldIs(es, i, 6, 600.0);
    hide HasHeld, Lands, LandsASecondOff, NotePending, Jump, Limit, IsLeap, InOrder, Run, HistoryAt;
  }

  lemma LandsIs(s: State, offset: real, at: real, leapWindow: bool)
    ensures var h := History(s.offset, s.rate, s.at);
            && (Lands(h, offset, at) <==> Abs(Jump(s, offset, at)) <= Limit(s, at))
            && (leapWindow && LandsASecondOff(h, offset, at) <==> IsLeap(Jump(s, offset, at), leapWindow))
  {
    var carried := s.offset + s.rate * (at - s.at);
    assert Jump(s, offset, at) == offset - carried && History(s.offset, s.rate, s.at).CarriedTo(at) == carried;
    hide Jump, History.CarriedTo;
  }

  lemma HeldIs(es: seq<Event>, i: nat, least: nat, span: real)
    requires InOrder(es) && i < |es| && es[i].Judge? && least >= 1 && span >= 0.0
    ensures
      var p := NotePending(At(es, i), es[i].offset, es[i].at);
      HasHeld(es, i, least, span) <==> p.pendingReadings >= least && p.pendingLastAt - p.pendingFirstAt >= span
  {
    hide Judged, OneTime, Agree, Run;
    PendingIsARun(es, i);
    NotedRun(es, i);
    var p := NotePending(At(es, i), es[i].offset, es[i].at);
    if HasHeld(es, i, least, span) {
      var n: nat :| n >= least && Agreeing(es, i, n) && NoneAdmittedBefore(es, i, n) && es[i].at - es[First(es, i, n)].at >= span;
      NotesAll(es, i, n);
    }
    hide NotePending, Agreeing, NoneAdmittedBefore;
    if p.pendingReadings >= least && p.pendingLastAt - p.pendingFirstAt >= span {
      assert HasHeld(es, i, least, span);
    }
  }

  lemma {:induction false} NoneAdmitted(es: seq<Event>, i: nat, n: nat)
    requires i < |es| && Agreeing(es, i, n) && NoneAdmittedBefore(es, i, n) && !VerdictOn(es, i).Admitted()
    ensures !SomeAdmitted(es, i, n)
    decreases n
  {
    hide Judged, OneTime;
    if n > 1 {
      NoneAdmitted(es, Previous(es, i).value, n - 1);
    }
  }

  /** A run none of which was admitted before the last is noted whole. */
  lemma NotesAll(es: seq<Event>, i: nat, n: nat)
    requires InOrder(es) && i < |es| && Agreeing(es, i, n) && NoneAdmittedBefore(es, i, n)
    ensures
      var p := NotePending(At(es, i), es[i].offset, es[i].at);
      p.pendingReadings >= n && p.pendingLastAt == es[i].at && p.pendingFirstAt <= es[First(es, i, n)].at
  {
    hide Judged, OneTime, Agree, Run;
    if n > 1 {
      var p := Previous(es, i).value;
      NoneAdmitted(es, p, n - 1);
      AddsUp(es, p, n - 1);
      StatePersists(es, i);
      AgreeIs(es[i].offset, es[i].at, es[p].offset, es[p].at);
    } else {
      PendingBegan(es, i);
    }
  }
}
