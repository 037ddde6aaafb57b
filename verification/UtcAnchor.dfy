/** Dating the second edges: whole seconds counted on from an edge that a decoded frame names, but never
    past a midnight at which a second may have been inserted. */
module UtcAnchor {
  import opened Folds
  import opened CivilTime
  import opened Pps
  import opened Arithmetic
  import Timeline

  const ANCHOR_MAX_AGE_SEC := 300.0

  /** The midnight after an instant on the last day of a month, in milliseconds, or -1. */
  function LeapBoundaryAfter(ms: int): int {
    if !IsLastDayOfMonth(ms) then -1
    else (FloorDiv(FloorDiv(ms, 1000), DAY_SEC) + 1) * DAY_SEC * 1000
  }

  predicate Crosses(from: int, to: int) {
    LeapBoundaryAfter(from) > 0 && to >= LeapBoundaryAfter(from)
  }

  class UtcAnchor {
    const rate: int
    var haveAnchor: bool
    var anchorEdgeSample: int
    var anchorUtcMs: int
    var anchorSetAt: real

    constructor (rate: int)
      ensures this.rate == rate && !haveAnchor
    {
      this.rate, haveAnchor, anchorEdgeSample, anchorUtcMs, anchorSetAt := rate, false, 0, 0, 0.0;
    }

    /** A voted frame and the latest edge: the anchor, if the count of seconds between them cannot have
        passed an inserted one, and the time is admitted. */
    method OnClockTime(f: TimeFields, frameStartSample: int, lastEdgeSample: int, now: real, admits: int -> bool)
      modifies this
      ensures
        rate > 0 ==>
          var base := UtcMsFromFields(f);
          var ms := base + Timeline.Round((lastEdgeSample - frameStartSample) as real / rate as real) * 1000;
          && haveAnchor == (!Crosses(base, ms) && (admits(ms) || old(haveAnchor)))
          && ((anchorEdgeSample, anchorUtcMs, anchorSetAt)
              == if !Crosses(base, ms) && admits(ms) then (lastEdgeSample, ms, now)
                 else (old(anchorEdgeSample), old(anchorUtcMs), old(anchorSetAt)))
    {
      hide UtcMsFromFields, LeapBoundaryAfter, Timeline.Round;
      if rate <= 0 {
        return;
      }
      var base := UtcMsFromFields(f);
      var elapsed := Timeline.Round((lastEdgeSample - frameStartSample) as real / rate as real);
      var decoded := base + elapsed * 1000;
      var boundary := LeapBoundaryAfter(base);
      if boundary > 0 && decoded >= boundary {
        haveAnchor := false;
        return;
      }
      if !admits(decoded) {
        return;
      }
      haveAnchor, anchorEdgeSample, anchorUtcMs, anchorSetAt := true, lastEdgeSample, decoded, now;
    }

    /** A second edge: the UTC it is dated by, if the anchor reaches it. An anchor too old, or with a
        possible inserted second between, is dropped. */
    method OnClockSecond(edgeSample: int, now: real) returns (utcMs: Option<int>)
      modifies `haveAnchor
      ensures
        rate > 0 ==>
          var elapsed := (edgeSample - anchorEdgeSample) as real / rate as real;
          var seconds := Timeline.Round(elapsed);
          var ms := anchorUtcMs + seconds * 1000;
          var reached := old(haveAnchor) && edgeSample >= anchorEdgeSample;
          var stale := now - anchorSetAt > ANCHOR_MAX_AGE_SEC;
          var whole := Abs(elapsed - seconds as real) <= 0.25;
          && utcMs == (if reached && !stale && whole && !Crosses(anchorUtcMs, ms) then Some(ms) else None)
          && haveAnchor == (old(haveAnchor) && !(reached && (stale || (whole && Crosses(anchorUtcMs, ms)))))
    {
      hide LeapBoundaryAfter, Timeline.Round;
      if !haveAnchor || edgeSample < anchorEdgeSample {
        return None;
      }
      if now - anchorSetAt > ANCHOR_MAX_AGE_SEC {
        haveAnchor := false;
        return None;
      }
      if rate <= 0 {
        return None;
      }
      var elapsed := (edgeSample - anchorEdgeSample) as real / rate as real;
      var seconds := Timeline.Round(elapsed);
      if Abs(elapsed - seconds as real) > 0.25 {
        return None;
      }
      var edgeMs := anchorUtcMs + seconds * 1000;
      var boundary := LeapBoundaryAfter(anchorUtcMs);
      if boundary > 0 && edgeMs >= boundary {
        haveAnchor := false;
        return None;
      }
      utcMs := Some(edgeMs);
    }
  }

  // ---- what an edge is truly called -------------------------------------------------------------------

  /** The second after another, where a second is inserted before each of some midnights. */
  function After(l: Label, leaps: set<int>): Label {
    if l.leap then Label(l.posix, false) else Label(l.posix + 1, l.posix + 1 in leaps)
  }

  /** The second that comes so many after POSIX second `u`. */
  function Named(u: int, seconds: nat, leaps: set<int>): Label {
    if seconds == 0 then Label(u, false) else After(Named(u, seconds - 1, leaps), leaps)
  }

  lemma {:induction false} NoneInserted(u: int, seconds: nat, leaps: set<int>)
    requires forall j :: u < j <= u + seconds ==> j !in leaps
    ensures Named(u, seconds, leaps) == Label(u + seconds, false)
  {
    if seconds > 0 {
      NoneInserted(u, seconds - 1, leaps);
    }
  }

  lemma {:induction false} OneInserted(u: int, seconds: nat, midnight: int)
    requires u < midnight <= u + seconds
    ensures Named(u, seconds, {midnight})
            == if u + seconds == midnight then Label(midnight, true) else Label(u + seconds - 1, false)
  {
    if midnight <= u + seconds - 1 {
      OneInserted(u, seconds - 1, midnight);
    } else {
      NoneInserted(u, seconds - 1, {midnight});
    }
  }

  /** The boundary is the midnight after, where it begins a month. */
  lemma BoundaryIs(u: int)
    ensures
      var midnight := (u / DAY_SEC + 1) * DAY_SEC;
      LeapBoundaryAfter(u * 1000) == if MonthMidnight(midnight) then midnight * 1000 else -1
  {
    hide CivilFromDays, FloorDiv, FloorMod;
    DayOfMs(u * 1000);
    assert u * 1000 / 86400000 == u / DAY_SEC;
    MonthEnds(u * 1000);
    TheNextDay(u / DAY_SEC);
    DayNumberToDate(u / DAY_SEC);
    assert (u / DAY_SEC + 1) * DAY_SEC / DAY_SEC == u / DAY_SEC + 1;
  }

  lemma FirstMidnight(u: int, j: int)
    requires u < j < u + DAY_SEC && j % DAY_SEC == 0
    ensures j == (u / DAY_SEC + 1) * DAY_SEC
  {
    assert j == j / DAY_SEC * DAY_SEC;
    assert u == u / DAY_SEC * DAY_SEC + u % DAY_SEC;
  }

  /** Counting whole seconds on from an anchor gives the right UTC wherever seconds are inserted, so long as
      they are inserted where they may be, exactly when the count does not cross the boundary. */
  lemma CountingIsSafeExactly(u: int, seconds: nat)
    requires u >= 0 && seconds < DAY_SEC
    ensures !Crosses(u * 1000, (u + seconds) * 1000)
            <==> forall leaps: set<int> :: (forall m :: m in leaps ==> MonthMidnight(m)) ==>
                   Named(u, seconds, leaps) == Label(u + seconds, false)
  {
    BoundaryIs(u);
    var midnight := (u / DAY_SEC + 1) * DAY_SEC;
    hide LeapBoundaryAfter, MonthMidnight;
    if Crosses(u * 1000, (u + seconds) * 1000) {
      assert u < midnight;
      OneInserted(u, seconds, midnight);
      assert forall m :: m in {midnight} ==> MonthMidnight(m);
    } else {
      forall leaps: set<int> | forall m :: m in leaps ==> MonthMidnight(m)
        ensures Named(u, seconds, leaps) == Label(u + seconds, false)
      {
        forall j | u < j <= u + seconds
          ensures j !in leaps
        {
          if j in leaps {
            StartsDay(j);
            FirstMidnight(u, j);
          }
        }
        NoneInserted(u, seconds, leaps);
      }
    }
  }

  lemma RoundsTo(x: real, k: int)
    ensures Timeline.Round(x) == k && Abs(x - k as real) <= 0.25 <==> Abs(x - k as real) <= 0.25
  {
  }

  /** An edge is taken for the one so many seconds after the anchor exactly when it is no more than a quarter
      of a second of samples from where that one is due. */
  lemma EdgeIsDatedExactly(edge: int, anchor: int, rate: int, seconds: int)
    requires rate > 0
    ensures
      var elapsed := (edge - anchor) as real / rate as real;
      var due := anchor + seconds * rate;
      Timeline.Round(elapsed) == seconds && Abs(elapsed - seconds as real) <= 0.25
      <==> -rate <= 4 * (edge - due) <= rate
  {
    var elapsed, r := (edge - anchor) as real / rate as real, rate as real;
    RoundsTo(elapsed, seconds);
    hide Timeline.Round;
    assert elapsed * r == (edge - anchor) as real;
    Distribute(r, elapsed, seconds as real);
    Within(elapsed - seconds as real, r, (edge - anchor) as real - seconds as real * r);
    assert (seconds * rate) as real == seconds as real * r;
  }

  lemma Within(x: real, r: real, y: real)
    requires r > 0.0 && x * r == y
    ensures Abs(x) <= 0.25 <==> -r <= 4.0 * y <= r
  {
    ProductSign(0.25 - x, r);
    ProductSign(x + 0.25, r);
  }

  lemma StartsDay(posix: int)
    requires MonthMidnight(posix)
    ensures posix % DAY_SEC == 0
  {
  }
}
