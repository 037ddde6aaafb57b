/** Naming the seconds of a pulse-per-second output, with the inserted second named 23:59:60. */
module Pps {
  import opened Folds
  import opened CivilTime
  import opened Selector
  import opened Arithmetic

  const LEAP_CATCH_UP_SEC := 3600
  const LEAP_ARMED_SEC := 7200

  /** The POSIX second a pulse starts, or the inserted second before midnight `posix`. */
  datatype Label = Label(posix: int, leap: bool)
  {
    /** Where the second lies on a scale that has room for an inserted one before each. */
    function Key(): int { if leap then 2 * posix - 1 else 2 * posix }
  }

  datatype Call = Next(served: int, leapPending: bool, consecutive: bool) | Reset

  datatype State = State(have: bool, last: Label, leapAnnouncedAt: int, leapLabelAt: int, resyncs: nat)

  const Initial := State(false, Label(0, false), -1, -1, 0)

  /** Which second follows the last, when that is not an inserted one. */
  function Expected(last: Label): int {
    if last.leap then last.posix else last.posix + 1
  }

  /** An inserted second is due before `expected`: a midnight that ends a month, lately announced. */
  predicate Armed(announcedAt: int, expected: int) {
    && announcedAt >= 0 && expected - announcedAt <= LEAP_ARMED_SEC
    && FloorMod(expected, DAY_SEC) == 0 && IsLastDayOfMonth((expected - 1) * 1000)
  }

  function AnnouncedAt(s: State, c: Call): int
    requires c.Next?
  {
    if c.leapPending then c.served else s.leapAnnouncedAt
  }

  predicate Inserts(s: State, c: Call)
    requires c.Next?
  {
    var expected := Expected(s.last);
    !s.last.leap && Armed(AnnouncedAt(s, c), expected) && (c.served == expected || c.served == expected - 1)
  }

  /** The served clock agrees with the count, or is still the second ahead that a leap leaves it. */
  predicate Agrees(s: State, c: Call)
    requires c.Next?
  {
    var expected := Expected(s.last);
    || c.served == expected
    || (s.leapLabelAt >= 0 && expected - s.leapLabelAt < LEAP_CATCH_UP_SEC && c.served == expected + 1)
  }

  function Step(s: State, c: Call): State {
    match c
    case Reset => s.(have := false)
    case Next(served, _, consecutive) =>
      var s1 := s.(leapAnnouncedAt := AnnouncedAt(s, c));
      var expected := Expected(s.last);
      if !s.have || !consecutive then s1.(have := true, last := Label(served, false))
      else if Inserts(s, c) then s1.(last := Label(expected, true), leapLabelAt := expected)
      else if Agrees(s, c) then s1.(last := Label(expected, false))
      else s1.(last := Label(served, false), resyncs := s.resyncs + 1)
  }

  class PpsLabeler {
    var have: bool
    var last: Label
    var leapAnnouncedAt: int
    var leapLabelAt: int
    var resyncs: nat
    ghost var calls: seq<Call>

    function Current(): State
      reads this
    {
      State(have, last, leapAnnouncedAt, leapLabelAt, resyncs)
    }

    ghost predicate Valid()
      reads this
    {
      Current() == Run(calls)
    }

    constructor ()
      ensures Valid() && calls == []
    {
      have, last, leapAnnouncedAt, leapLabelAt, resyncs := false, Label(0, false), -1, -1, 0;
      calls := [];
    }

    method Reset()
      requires Valid()
      modifies this
      ensures Valid() && calls == old(calls) + [Call.Reset] && Current() == Step(old(Current()), Call.Reset)
    {
      Appended(calls, Call.Reset);
      have := false;
      calls := calls + [Call.Reset];
    }

    method Next(served: int, leapPending: bool, consecutive: bool) returns (l: Label)
      requires Valid()
      modifies this
      ensures Valid() && calls == old(calls) + [Call.Next(served, leapPending, consecutive)]
      ensures Current() == Step(old(Current()), Call.Next(served, leapPending, consecutive)) && l == last
    {
      hide FloorMod, IsLastDayOfMonth, Run;
      Appended(calls, Call.Next(served, leapPending, consecutive));
      calls := calls + [Call.Next(served, leapPending, consecutive)];
      if leapPending {
        leapAnnouncedAt := served;
      }
      if !have || !consecutive {
        have, last := true, Label(served, false);
        return last;
      }
      var expected := if last.leap then last.posix else last.posix + 1;
      var armed := leapAnnouncedAt >= 0 && expected - leapAnnouncedAt <= LEAP_ARMED_SEC
                   && FloorMod(expected, DAY_SEC) == 0 && IsLastDayOfMonth((expected - 1) * 1000);
      if !last.leap && armed && (served == expected || served == expected - 1) {
        last, leapLabelAt := Label(expected, true), expected;
        return last;
      }
      if served == expected || (leapLabelAt >= 0 && expected - leapLabelAt < LEAP_CATCH_UP_SEC && served == expected + 1) {
        last := Label(expected, false);
        return last;
      }
      resyncs, last := resyncs + 1, Label(served, false);
      l := last;
    }
  }

  // ---- runs ----------------------------------------------------------------------------------------

  function Run(calls: seq<Call>): State {
    if calls == [] then Initial else Step(Run(calls[..|calls| - 1]), calls[|calls| - 1])
  }

  lemma Appended(calls: seq<Call>, c: Call)
    ensures Run(calls + [c]) == Step(Run(calls), c)
  {
    assert (calls + [c])[..|calls|] == calls;
  }

  function At(calls: seq<Call>, i: nat): State
    requires i <= |calls|
  {
    Run(calls[..i])
  }

  lemma Start(calls: seq<Call>)
    ensures At(calls, 0) == Initial
  {
  }

  lemma AtNext(calls: seq<Call>, i: nat)
    requires i < |calls|
    ensures At(calls, i + 1) == Step(At(calls, i), calls[i])
  {
    assert calls[..i + 1][..i] == calls[..i];
  }

  /** A call that carries the count on: not the first, and neither broken nor counted as a resync. */
  predicate Continues(calls: seq<Call>, i: nat)
    requires i < |calls|
  {
    calls[i].Next? && At(calls, i).have && calls[i].consecutive && At(calls, i + 1).resyncs == At(calls, i).resyncs
  }

  /** The second that follows on the leap-second scale, `inserted` telling whether a midnight has an
      inserted second before it. */
  predicate Succeeds(l: Label, m: Label) {
    if l.leap then m == Label(l.posix, false)
    else m.posix == l.posix + 1
  }

  /** A warning was given at call `j`, none since, and not too long before midnight. */
  predicate Warned(calls: seq<Call>, j: nat, i: nat, midnight: int)
    requires j <= i < |calls|
  {
    && calls[j].Next? && calls[j].leapPending && calls[j].served >= 0
    && midnight - calls[j].served <= LEAP_ARMED_SEC
    && forall m :: j < m <= i && calls[m].Next? ==> !calls[m].leapPending
  }

  /** The first second of the first day of a month. */
  predicate MonthMidnight(posix: int) {
    posix % DAY_SEC == 0 && CivilFromDays(posix / DAY_SEC).d == 1
  }

  lemma {:induction false} LatestWarning(calls: seq<Call>, i: nat)
    requires i <= |calls| && At(calls, i).leapAnnouncedAt >= 0
    ensures exists j :: 0 <= j < i && calls[j].Next? && calls[j].leapPending
                        && calls[j].served == At(calls, i).leapAnnouncedAt
                        && forall m :: j < m < i && calls[m].Next? ==> !calls[m].leapPending
  {
    assert i > 0;
    AtNext(calls, i - 1);
    if !(calls[i - 1].Next? && calls[i - 1].leapPending) {
      LatestWarning(calls, i - 1);
    }
  }

  lemma MidnightEndsMonth(posix: int)
    ensures FloorMod(posix, DAY_SEC) == 0 && IsLastDayOfMonth((posix - 1) * 1000) <==> MonthMidnight(posix)
  {
    hide CivilFromDays, FloorMod, IsLastDayOfMonth;
    FloorIs(posix, DAY_SEC);
    if posix % DAY_SEC == 0 {
      MonthEnds((posix - 1) * 1000);
      DayBefore(posix);
      MonthTurns(posix / DAY_SEC - 1);
    }
  }

  lemma DayBefore(posix: int)
    requires posix % DAY_SEC == 0
    ensures (posix - 1) * 1000 / 86400000 == posix / DAY_SEC - 1
  {
    QuotientIs((posix - 1) * 1000, 86400000, posix / DAY_SEC - 1, 86399000);
  }

  lemma MonthTurns(days: int)
    ensures
      var date := CivilFromDays(days);
      CivilFromDays(days + 1).d == 1 <==> date.d == DaysInMonth(date.y, date.m)
  {
    hide CivilFromDays, DaysFromCivil, DaysInMonth;
    TheNextDay(days);
    DayNumberToDate(days);
  }

  lemma StepSucceeds(s: State, c: Call)
    requires c.Next? && s.have && c.consecutive && Step(s, c).resyncs == s.resyncs
    ensures Succeeds(s.last, Step(s, c).last)
  {
    hide Armed, Agrees;
  }

  lemma StepInserts(s: State, c: Call)
    requires c.Next?
    ensures Step(s, c).last.leap <==> s.have && c.consecutive && Inserts(s, c)
    ensures Step(s, c).leapAnnouncedAt == AnnouncedAt(s, c)
  {
    hide Armed, Agrees;
  }

  /** Every label that carries the count on is the successor of the last, and the inserted second is
      named where the count reaches it, the served clock reads midnight or has stepped back to the
      second before, and it is due. */
  lemma LabelsSucceed(calls: seq<Call>, i: nat)
    requires i < |calls| && Continues(calls, i)
    ensures
      var s, l, m := At(calls, i), At(calls, i).last, At(calls, i + 1).last;
      && Succeeds(l, m) && m.Key() > l.Key()
      && (m.leap <==> !l.leap && Armed(At(calls, i + 1).leapAnnouncedAt, m.posix)
                      && (calls[i].served == m.posix || calls[i].served == m.posix - 1))
  {
    hide Armed, Step;
    AtNext(calls, i);
    StepSucceeds(At(calls, i), calls[i]);
    StepInserts(At(calls, i), calls[i]);
  }

  /** 23:59:60 is only ever issued right after 23:59:59 and before the midnight that begins a month,
      with a warning seen no more than two hours before that midnight. */
  lemma LeapOnlyWhenDue(calls: seq<Call>, i: nat)
    requires i < |calls| && calls[i].Next? && At(calls, i + 1).last.leap
    ensures
      var midnight := At(calls, i + 1).last.posix;
      && MonthMidnight(midnight) && At(calls, i).last == Label(midnight - 1, false)
      && exists j :: 0 <= j <= i && Warned(calls, j, i, midnight)
  {
    hide CivilFromDays, FloorMod, IsLastDayOfMonth;
    AtNext(calls, i);
    var s, midnight := At(calls, i), At(calls, i + 1).last.posix;
    StepInserts(s, calls[i]);
    assert Armed(At(calls, i + 1).leapAnnouncedAt, midnight);
    MidnightEndsMonth(midnight);
    LatestWarning(calls, i + 1);
    var j :| 0 <= j < i + 1 && calls[j].Next? && calls[j].leapPending
             && calls[j].served == At(calls, i + 1).leapAnnouncedAt
             && forall m :: j < m < i + 1 && calls[m].Next? ==> !calls[m].leapPending;
    assert Warned(calls, j, i, midnight);
  }

  /** The count is under way: the call before this one named a second. */
  predicate UnderWay(calls: seq<Call>, i: nat)
    requires i < |calls|
  {
    i > 0 && calls[i - 1].Next?
  }

  /** The served clock is at midnight `next`, or has stepped back to the second before it, and an inserted
      second is due there. */
  ghost predicate LeapDue(calls: seq<Call>, i: nat, next: int)
    requires i < |calls| && calls[i].Next?
  {
    && MonthMidnight(next) && (calls[i].served == next || calls[i].served == next - 1)
    && exists j :: 0 <= j <= i && Warned(calls, j, i, next)
  }

  predicate NamesLeap(calls: seq<Call>, i: nat)
    requires i < |calls|
  {
    calls[i].Next? && At(calls, i + 1).last.leap
  }

  /** The call that named the latest inserted second before call `i`. */
  function LatestLeap(calls: seq<Call>, i: nat): (j: Option<nat>)
    requires i <= |calls|
    ensures j.Some? ==> j.value < i
  {
    if i == 0 then None else if NamesLeap(calls, i - 1) then Some(i - 1) else LatestLeap(calls, i - 1)
  }

  /** That was less than an hour before second `next`. */
  predicate CatchingUp(calls: seq<Call>, i: nat, next: int)
    requires i <= |calls|
  {
    var j := LatestLeap(calls, i);
    j.Some? && At(calls, j.value + 1).last.posix >= 0 && next - At(calls, j.value + 1).last.posix < 3600
  }

  lemma HaveIs(calls: seq<Call>, i: nat)
    requires i < |calls|
    ensures At(calls, i).have <==> UnderWay(calls, i)
  {
    hide Armed, Agrees, Inserts, Run;
    Start(calls);
    if i > 0 {
      AtNext(calls, i - 1);
    }
  }

  lemma {:induction false} WarningIs(calls: seq<Call>, j: nat, i: nat)
    requires j < i <= |calls| && calls[j].Next? && calls[j].leapPending
    requires forall m :: j < m < i && calls[m].Next? ==> !calls[m].leapPending
    ensures At(calls, i).leapAnnouncedAt == calls[j].served
  {
    hide Armed, Agrees, Inserts, Run;
    AtNext(calls, i - 1);
    if j < i - 1 {
      WarningIs(calls, j, i - 1);
    }
  }

  lemma ArmedIs(calls: seq<Call>, i: nat, next: int)
    requires i < |calls| && calls[i].Next?
    ensures Armed(AnnouncedAt(At(calls, i), calls[i]), next)
            <==> MonthMidnight(next) && exists j :: 0 <= j <= i && Warned(calls, j, i, next)
  {
    hide MonthMidnight, FloorMod, IsLastDayOfMonth, Step, Run, Warned;
    MidnightEndsMonth(next);
    AtNext(calls, i);
    StepInserts(At(calls, i), calls[i]);
    WarnedIs(calls, i, next);
  }

  lemma WarnedIs(calls: seq<Call>, i: nat, next: int)
    requires i < |calls|
    ensures
      var at := At(calls, i + 1).leapAnnouncedAt;
      at >= 0 && next - at <= LEAP_ARMED_SEC <==> exists j :: 0 <= j <= i && Warned(calls, j, i, next)
  {
    hide At;
    var at := At(calls, i + 1).leapAnnouncedAt;
    if at >= 0 {
      LatestWarning(calls, i + 1);
      var j :| 0 <= j < i + 1 && calls[j].Next? && calls[j].leapPending && calls[j].served == at
               && forall m :: j < m < i + 1 && calls[m].Next? ==> !calls[m].leapPending;
      assert next - at <= LEAP_ARMED_SEC ==> Warned(calls, j, i, next);
    }
    if j :| 0 <= j <= i && Warned(calls, j, i, next) {
      WarningIs(calls, j, i + 1);
    }
  }

  lemma {:induction false} LeapLabelIs(calls: seq<Call>, i: nat)
    requires i <= |calls|
    ensures
      var j := LatestLeap(calls, i);
      At(calls, i).leapLabelAt == if j.Some? then At(calls, j.value + 1).last.posix else -1
  {
    hide Run, Step;
    Start(calls);
    if i > 0 {
      LeapLabelIs(calls, i - 1);
      AtNext(calls, i - 1);
      LabelOfLeap(At(calls, i - 1), calls[i - 1]);
    }
  }

  lemma LabelOfLeap(s: State, c: Call)
    ensures Step(s, c).leapLabelAt == if c.Next? && Step(s, c).last.leap then Step(s, c).last.posix else s.leapLabelAt
  {
    hide Armed, Agrees;
  }

  /** What every call names, by the calls and the labels before it: what the clock served, where the count is
      not under way or is broken; the inserted second, where it is due; the next second, where the clock
      serves it, or within the hour after an inserted one is a second ahead; and otherwise what the clock
      served again, which counts as a resync. */
  lemma LabelledExactly(calls: seq<Call>, i: nat)
    requires i < |calls| && calls[i].Next?
    ensures
      var l, served := At(calls, i).last, calls[i].served;
      var next := if l.leap then l.posix else l.posix + 1;
      var carriesOn := UnderWay(calls, i) && calls[i].consecutive;
      var leap := carriesOn && !l.leap && LeapDue(calls, i, next);
      var agrees := carriesOn && (served == next || (served == next + 1 && CatchingUp(calls, i, next)));
      && At(calls, i + 1).last == (if leap then Label(next, true) else if agrees then Label(next, false) else Label(served, false))
      && At(calls, i + 1).resyncs == At(calls, i).resyncs + if carriesOn && !leap && !agrees then 1 else 0
  {
    var s := At(calls, i);
    AtNext(calls, i);
    HaveIs(calls, i);
    ArmedIs(calls, i, Expected(s.last));
    LeapLabelIs(calls, i);
    hide Armed, LatestLeap, Warned, MonthMidnight, Run, UnderWay;
  }

  /** While the count is carried on it only ever goes forward, so no second is named twice. */
  lemma {:induction false} LabelsIncrease(calls: seq<Call>, i: nat, j: nat)
    requires i < j <= |calls| && forall m :: i <= m < j ==> Continues(calls, m)
    ensures At(calls, i).last.Key() < At(calls, j).last.Key()
  {
    hide Step, Continues;
    LabelsSucceed(calls, j - 1);
    if i < j - 1 {
      LabelsIncrease(calls, i, j - 1);
    }
  }

  // ---- as it is rendered -----------------------------------------------------------------------------

  datatype Civil = Civil(date: Date, hh: int, mi: int, ss: int)

  /** The civil fields of a label: an inserted second belongs to the day before its midnight. */
  function CivilOf(l: Label): Civil {
    var s := if l.leap then l.posix - 1 else l.posix;
    var rem := FloorMod(s, DAY_SEC);
    Civil(CivilFromDays(FloorDiv(s, DAY_SEC)), TruncDiv(rem, 3600), TruncMod(TruncDiv(rem, 60), 60),
          if l.leap then 60 else TruncMod(rem, 60))
  }

  predicate Earlier(a: Civil, b: Civil) {
    || CivilTime.Before(a.date, b.date)
    || (a.date == b.date && (a.hh < b.hh || (a.hh == b.hh && (a.mi < b.mi || (a.mi == b.mi && a.ss < b.ss)))))
  }

  /** What a label renders to, by day and by minute of the day. */
  lemma CivilOfIs(l: Label)
    ensures
      var s, c := if l.leap then l.posix - 1 else l.posix, CivilOf(l);
      && c.date == CivilFromDays(s / DAY_SEC)
      && c.hh == s % DAY_SEC / 3600 && c.mi == s % DAY_SEC / 60 % 60
      && c.ss == if l.leap then 60 else s % DAY_SEC % 60
  {
    hide CivilFromDays, FloorDiv, FloorMod;
    FloorIs(if l.leap then l.posix - 1 else l.posix, DAY_SEC);
  }

  lemma TimeOfDayInOrder(a: int, b: int, p: int, q: int)
    requires 0 <= a < DAY_SEC && 0 <= b < DAY_SEC
    requires a / 60 < b / 60 || (a / 60 == b / 60 && p < q)
    ensures a / 3600 < b / 3600 || (a / 3600 == b / 3600 && (a / 60 % 60 < b / 60 % 60 || (a / 60 % 60 == b / 60 % 60 && p < q)))
  {
    assert a / 3600 == a / 60 / 60 && b / 3600 == b / 60 / 60;
  }

  lemma {:induction false} DatesInOrder(days: int, days': int)
    requires days < days'
    ensures CivilTime.Before(CivilFromDays(days), CivilFromDays(days'))
    decreases days' - days
  {
    hide CivilFromDays, DaysFromCivil;
    DayNumberToDate(days' - 1);
    TheNextDay(days' - 1);
    if days < days' - 1 {
      DatesInOrder(days, days' - 1);
    }
  }

  lemma SameDayInOrder(l: Label, m: Label, s: int, t: int)
    requires l.Key() < m.Key() && (l.leap ==> l.posix % 60 == 0) && (m.leap ==> m.posix % 60 == 0)
    requires s == (if l.leap then l.posix - 1 else l.posix) && t == if m.leap then m.posix - 1 else m.posix
    requires s / DAY_SEC >= t / DAY_SEC
    ensures s / DAY_SEC == t / DAY_SEC
    ensures
      var a, b := s % DAY_SEC, t % DAY_SEC;
      a / 60 < b / 60 || (a / 60 == b / 60 && (if l.leap then 60 else a % 60) < if m.leap then 60 else b % 60)
  {
    assert s <= t;
    MinuteOfDay(s);
    MinuteOfDay(t);
    SameMinuteInOrder(l, m, s, t);
  }

  lemma MinuteOfDay(s: int)
    ensures s / 60 == s / DAY_SEC * 1440 + s % DAY_SEC / 60 && s % 60 == s % DAY_SEC % 60
  {
    var day, rest := s / DAY_SEC, s % DAY_SEC;
    QuotientIs(s, 60, day * 1440 + rest / 60, rest % 60);
  }

  lemma SameMinuteInOrder(l: Label, m: Label, s: int, t: int)
    requires l.Key() < m.Key() && (l.leap ==> l.posix % 60 == 0) && (m.leap ==> m.posix % 60 == 0)
    requires s == (if l.leap then l.posix - 1 else l.posix) && t == if m.leap then m.posix - 1 else m.posix
    ensures s / 60 <= t / 60
    ensures s / 60 == t / 60 ==> (if l.leap then 60 else s % 60) < if m.leap then 60 else t % 60
  {
    if l.leap {
      QuotientIs(s, 60, l.posix / 60 - 1, 59);
    }
    if m.leap {
      QuotientIs(t, 60, m.posix / 60 - 1, 59);
    }
  }

  /** The rendered fields keep the order of the labels. */
  lemma FieldsInOrder(l: Label, m: Label)
    requires l.Key() < m.Key() && (l.leap ==> l.posix % 60 == 0) && (m.leap ==> m.posix % 60 == 0)
    ensures Earlier(CivilOf(l), CivilOf(m))
  {
    hide CivilFromDays, CivilOf, CivilTime.Before;
    var s, t := if l.leap then l.posix - 1 else l.posix, if m.leap then m.posix - 1 else m.posix;
    CivilOfIs(l);
    CivilOfIs(m);
    if s / DAY_SEC < t / DAY_SEC {
      DatesInOrder(s / DAY_SEC, t / DAY_SEC);
    } else {
      SameDayInOrder(l, m, s, t);
      TimeOfDayInOrder(s % DAY_SEC, t % DAY_SEC, CivilOf(l).ss, CivilOf(m).ss);
    }
  }

  lemma {:induction false} LeapsAreAtMidnight(calls: seq<Call>, i: nat)
    requires i <= |calls|
    ensures At(calls, i).last.leap ==> At(calls, i).last.posix % 60 == 0
  {
    Start(calls);
    hide CivilFromDays, Step, Run, MonthMidnight;
    if i > 0 {
      LeapsAreAtMidnight(calls, i - 1);
      AtNext(calls, i - 1);
      if calls[i - 1].Next? {
        if At(calls, i).last.leap {
          LeapOnlyWhenDue(calls, i - 1);
          WholeMinute(At(calls, i).last.posix);
        }
      } else {
        ResetKeeps(At(calls, i - 1));
      }
    }
  }

  lemma WholeMinute(posix: int)
    requires MonthMidnight(posix)
    ensures posix % 60 == 0
  {
    hide CivilFromDays;
    assert posix == posix / DAY_SEC * 1440 * 60;
  }

  lemma ResetKeeps(s: State)
    ensures Step(s, Call.Reset).last == s.last
  {
  }

  /** The fields sent out strictly increase for as long as the count is carried on. */
  lemma RenderedIncrease(calls: seq<Call>, i: nat, j: nat)
    requires i < j <= |calls| && forall m :: i <= m < j ==> Continues(calls, m)
    ensures Earlier(CivilOf(At(calls, i).last), CivilOf(At(calls, j).last))
  {
    hide Step, Continues, CivilOf, Earlier;
    LabelsIncrease(calls, i, j);
    LeapsAreAtMidnight(calls, i);
    LeapsAreAtMidnight(calls, j);
    FieldsInOrder(At(calls, i).last, At(calls, j).last);
  }

  // ---- when a second is due --------------------------------------------------------------------------

  /** When a given UTC falls due, by the daemon clock. */
  function DaemonAtUtc(c: Combined, utc: real): real
    requires c.rate > -1.0
  {
    (utc - c.offsetSec + c.rate * c.atSec) / (1.0 + c.rate)
  }

  /** The served clock gives that UTC then, and at no other instant. */
  lemma DaemonAtUtcInverts(c: Combined, utc: real, t: real)
    requires c.rate > -1.0
    ensures c.UtcAt(t) == utc <==> t == DaemonAtUtc(c, utc)
  {
    var w := 1.0 + c.rate;
    var num := utc - c.offsetSec + c.rate * c.atSec;
    Distribute(c.rate, t, c.atSec);
    assert c.UtcAt(t) - utc == t * w - num;
    if t * w == num {
      QuotientOf(t, w);
    }
    assert num / w * w == num;
  }
}
