/** Sixty counters, one for each of the last sixty minutes: minute k is counted in bucket k modulo 60. */
module MinuteRing {
  import opened Folds
  import opened CivilTime

  const MINUTES := 60

  /** Where a minute is counted; the remainder of machine division keeps the sign of a negative minute. */
  function Slot(k: int): int {
    TruncMod(TruncMod(k, MINUTES) + MINUTES, MINUTES)
  }

  lemma SlotIs(k: int)
    ensures Slot(k) == k % MINUTES && 0 <= Slot(k) < MINUTES
  {
  }

  lemma SlotsApart(j: int, k: int)
    requires j < k < j + MINUTES
    ensures Slot(j) != Slot(k)
  {
    SlotIs(j);
    SlotIs(k);
    hide Slot;
  }

  /** A request counted, by the minute it fell in. */
  function During(k: int): int -> bool { (m: int) => m == k }

  function Between(lo: int, hi: int): int -> bool { (m: int) => lo <= m <= hi }

  /** A counter with a highest value stays there. */
  function Held(highest: Option<nat>, n: nat): nat {
    if highest.Some? && n > highest.value then highest.value else n
  }

  predicate AgreesAt(highest: Option<nat>, buckets: seq<nat>, k: int, log: seq<int>)
    requires |buckets| == MINUTES
  {
    SlotIs(k);
    buckets[Slot(k)] == Held(highest, Count(log, During(k)))
  }

  /** The buckets of the hour up to `last` agree with the log of everything ever counted. */
  ghost predicate HourAgrees(highest: Option<nat>, buckets: seq<nat>, last: int, log: seq<int>) {
    |buckets| == MINUTES && forall k :: last - MINUTES < k <= last ==> AgreesAt(highest, buckets, k, log)
  }

  /** And nothing has been counted since. */
  ghost predicate Agrees(highest: Option<nat>, buckets: seq<nat>, last: int, log: seq<int>) {
    HourAgrees(highest, buckets, last, log) && forall m :: m in log ==> m <= last
  }

  // ---- moving on -------------------------------------------------------------------------------------

  /** Clears the buckets of the minutes skipped. */
  method Advance(ghost highest: Option<nat>, was: seq<nat>, last: int, minute: int, ghost log: seq<int>)
      returns (buckets: seq<nat>)
    requires Agrees(highest, was, last, log)
    ensures Agrees(highest, buckets, if minute <= last then last else minute, log)
  {
    hide HourAgrees, Count;
    buckets := was;
    if minute <= last {
      return;
    }
    var gap := if minute - last < MINUTES then minute - last else MINUTES;
    for k := 1 to gap + 1
      invariant HourAgrees(highest, buckets, last + k - 1, log)
    {
      Sixty(highest, buckets, last + k - 1, log);
      ClearedAgrees(highest, buckets, last + k, log);
      buckets := Cleared(buckets, last + k);
    }
    if minute - last > MINUTES {
      LongAgo(highest, buckets, last, minute, log);
    }
  }

  lemma Sixty(highest: Option<nat>, buckets: seq<nat>, last: int, log: seq<int>)
    requires HourAgrees(highest, buckets, last, log)
    ensures |buckets| == MINUTES && 0 <= Slot(last) < MINUTES
  {
    SlotIs(last);
  }

  function Cleared(buckets: seq<nat>, k: int): (b: seq<nat>)
    requires |buckets| == MINUTES
    ensures |b| == MINUTES
  {
    SlotIs(k);
    buckets[Slot(k) := 0]
  }

  /** A minute further on, the bucket of the minute now out of the hour is for the new one. */
  lemma ClearedAgrees(highest: Option<nat>, buckets: seq<nat>, k: int, log: seq<int>)
    requires HourAgrees(highest, buckets, k - 1, log) && forall m :: m in log ==> m < k
    ensures HourAgrees(highest, Cleared(buckets, k), k, log)
  {
    SlotIs(k);
    forall j | k - MINUTES < j <= k
      ensures AgreesAt(highest, Cleared(buckets, k), j, log)
    {
      SlotIs(j);
      if j == k {
        CountNone(log, During(k));
      } else {
        SlotsApart(j, k);
        assert AgreesAt(highest, buckets, j, log);
      }
    }
  }

  /** With everything cleared, any later hour is empty. */
  lemma LongAgo(highest: Option<nat>, buckets: seq<nat>, last: int, minute: int, log: seq<int>)
    requires HourAgrees(highest, buckets, last + MINUTES, log)
    requires minute - last > MINUTES && forall m :: m in log ==> m <= last
    ensures HourAgrees(highest, buckets, minute, log)
  {
    forall k | minute - MINUTES < k <= minute
      ensures AgreesAt(highest, buckets, k, log)
    {
      var j := last + 1 + (k - last - 1) % MINUTES;
      SameSlot(j, k, (k - last - 1) / MINUTES);
      assert AgreesAt(highest, buckets, j, log);
      CountNone(log, During(j));
      CountNone(log, During(k));
    }
  }

  lemma SameSlot(j: int, k: int, n: int)
    requires k == j + n * MINUTES
    ensures Slot(j) == Slot(k)
  {
    SlotIs(j);
    SlotIs(k);
    hide Slot;
    QuotientIs(k, MINUTES, j / MINUTES + n, j % MINUTES);
  }

  // ---- counting --------------------------------------------------------------------------------------

  function Bumped(highest: Option<nat>, n: nat): nat {
    if highest.Some? && n >= highest.value then n else n + 1
  }

  /** One more in the bucket of the current minute. */
  lemma BumpAgrees(highest: Option<nat>, buckets: seq<nat>, last: int, log: seq<int>)
    requires Agrees(highest, buckets, last, log)
    ensures |buckets| == MINUTES && 0 <= Slot(last) < MINUTES
    ensures Agrees(highest, buckets[Slot(last) := Bumped(highest, buckets[Slot(last)])], last, log + [last])
  {
    SlotIs(last);
    var bumped := buckets[Slot(last) := Bumped(highest, buckets[Slot(last)])];
    forall k | last - MINUTES < k <= last
      ensures AgreesAt(highest, bumped, k, log + [last])
    {
      SlotIs(k);
      CountOne(log, last, During(k));
      assert AgreesAt(highest, buckets, k, log);
      if k != last {
        SlotsApart(k, last);
      }
    }
  }

  // ---- the past hour ---------------------------------------------------------------------------------

  /** The counters of some minutes of the log, each as far as it goes. */
  function Tally(highest: Option<nat>, log: seq<int>, lo: int, hi: int): nat
    decreases hi - lo + 1
  {
    if hi < lo then 0 else Tally(highest, log, lo, hi - 1) + Held(highest, Count(log, During(hi)))
  }

  /** The hour up to `minute`, added up from a ring last moved on at `last`. */
  method SumHour(ghost highest: Option<nat>, buckets: seq<nat>, last: int, minute: int, ghost log: seq<int>)
      returns (total: nat)
    requires Agrees(highest, buckets, last, log)
    ensures last <= minute ==> total == Tally(highest, log, minute - MINUTES + 1, minute)
  {
    hide Slot, HourAgrees, Count;
    total := 0;
    var lo := (if minute < last then last else minute) - MINUTES + 1;
    var hi := if minute < last then minute else last;
    var k := lo;
    while k <= hi
      invariant lo <= k && (k <= hi + 1 || k == lo)
      invariant total == Tally(highest, log, lo, k - 1)
    {
      BucketOf(highest, buckets, last, log, k);
      total := total + buckets[Slot(k)];
      k := k + 1;
    }
    if last <= minute {
      NoneLater(highest, log, lo, k - 1, minute);
    }
  }

  lemma BucketOf(highest: Option<nat>, buckets: seq<nat>, last: int, log: seq<int>, k: int)
    requires HourAgrees(highest, buckets, last, log) && last - MINUTES < k <= last
    ensures |buckets| == MINUTES && 0 <= Slot(k) < MINUTES
    ensures buckets[Slot(k)] == Held(highest, Count(log, During(k)))
  {
    SlotIs(k);
    assert AgreesAt(highest, buckets, k, log);
  }

  lemma {:induction false} NoneLater(highest: Option<nat>, log: seq<int>, lo: int, hi: int, later: int)
    requires hi <= later && (forall m :: m in log && lo <= m ==> m <= hi) && lo <= hi + 1
    ensures Tally(highest, log, lo, later) == Tally(highest, log, lo, hi)
    decreases later - hi
  {
    if hi < later {
      CountNone(log, During(later));
      NoneLater(highest, log, lo, hi, later - 1);
    }
  }

  /** What has not reached its highest adds up to the exact number of requests in those minutes. */
  lemma {:induction false} TallyIsCount(highest: Option<nat>, log: seq<int>, lo: int, hi: int)
    requires highest.Some? ==> forall k :: lo <= k <= hi ==> Count(log, During(k)) <= highest.value
    ensures Tally(highest, log, lo, hi) == Count(log, Between(lo, hi))
    decreases hi - lo + 1
  {
    if hi < lo {
      CountNone(log, Between(lo, hi));
    } else {
      TallyIsCount(highest, log, lo, hi - 1);
      OneMinuteMore(log, lo, hi);
    }
  }

  lemma {:induction false} OneMinuteMore(log: seq<int>, lo: int, hi: int)
    requires lo <= hi
    ensures Count(log, Between(lo, hi)) == Count(log, Between(lo, hi - 1)) + Count(log, During(hi))
  {
    if log != [] {
      OneMinuteMore(log[..|log| - 1], lo, hi);
    }
  }
}
