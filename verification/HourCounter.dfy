/** One of the NTP server's counters: how many ever, and how many in the past hour. */
module HourCounter {
  import opened Folds
  import opened MinuteRing

  /** The minute of the hour up to `last` that bucket `i` is for. */
  function MinuteOf(last: int, i: nat): (k: int)
    requires i < MINUTES
    ensures last - MINUTES < k <= last && k % MINUTES == i
  {
    last - (last - i) % MINUTES
  }

  /** Minutes of the hour up to `last` counted in the first `n` buckets. */
  function Early(last: int, n: int): int -> bool {
    (m: int) => last - MINUTES < m <= last && m % MINUTES < n
  }

  function SumTo(buckets: seq<nat>, n: nat): nat
    requires n <= |buckets|
  {
    if n == 0 then 0 else SumTo(buckets, n - 1) + buckets[n - 1]
  }

  lemma {:induction false} OneBucketMore(log: seq<int>, last: int, n: nat)
    requires n < MINUTES
    ensures Count(log, Early(last, n + 1)) == Count(log, Early(last, n)) + Count(log, During(MinuteOf(last, n)))
  {
    if log != [] {
      OneBucketMore(log[..|log| - 1], last, n);
      OnlyMinute(last, n, log[|log| - 1]);
    }
  }

  lemma OnlyMinute(last: int, n: nat, m: int)
    requires n < MINUTES
    ensures last - MINUTES < m <= last && m % MINUTES == n <==> m == MinuteOf(last, n)
  {
    var k := MinuteOf(last, n);
    if last - MINUTES < m <= last && m % MINUTES == n {
      assert (m - k) % MINUTES == 0;
    }
  }

  lemma {:induction false} SumIsCount(buckets: seq<nat>, last: int, log: seq<int>, n: nat)
    requires HourAgrees(None, buckets, last, log) && n <= MINUTES
    ensures SumTo(buckets, n) == Count(log, Early(last, n))
  {
    if n == 0 {
      CountNone(log, Early(last, 0));
    } else {
      SumIsCount(buckets, last, log, n - 1);
      OneBucketMore(log, last, n - 1);
      BucketOf(None, buckets, last, log, MinuteOf(last, n - 1));
      SlotIs(MinuteOf(last, n - 1));
    }
  }

  lemma WholeHour(log: seq<int>, last: int)
    ensures Count(log, Early(last, MINUTES)) == Count(log, Between(last - MINUTES + 1, last))
  {
    CountSame(log, Early(last, MINUTES), Between(last - MINUTES + 1, last));
  }

  class HourCounter {
    const minutes: array<nat>
    var minute: int
    var total: nat
    /** The minute of every request ever counted. */
    ghost var log: seq<int>

    ghost predicate Valid()
      reads this, minutes
    {
      minutes.Length == MINUTES && minute >= 0 && total == |log| && Agrees(None, minutes[..], minute, log)
    }

    constructor ()
      ensures Valid() && fresh(minutes) && log == []
    {
      minutes := new nat[MINUTES](_ => 0);
      minute, total, log := 0, 0, [];
    }

    /** Clears the minutes skipped, all of them at the most. */
    method AdvanceMinutes(now: int)
      requires Valid()
      modifies `minute, minutes
      ensures Valid() && minute == if now <= old(minute) then old(minute) else now
    {
      hide HourAgrees, Slot;
      if now <= minute {
        return;
      }
      var gap := if now - minute < MINUTES then now - minute else MINUTES;
      for k := 1 to gap + 1
        invariant HourAgrees(None, minutes[..], minute + k - 1, log)
        modifies minutes
      {
        Sixty(None, minutes[..], minute + k - 1, log);
        ClearedAgrees(None, minutes[..], minute + k, log);
        SlotIs(minute + k);
        ghost var was := minutes[..];
        minutes[(minute + k) % MINUTES] := 0;
        assert minutes[..] == Cleared(was, minute + k);
      }
      if now - minute > MINUTES {
        LongAgo(None, minutes[..], minute, now, log);
      }
      minute := now;
    }

    method Count(now: real)
      requires Valid() && now >= 0.0 && minute <= (now / 60.0).Floor
      modifies this, minutes
      ensures Valid() && log == old(log) + [(now / 60.0).Floor]
    {
      hide HourAgrees, Slot;
      AdvanceMinutes((now / 60.0).Floor);
      BumpAgrees(None, minutes[..], minute, log);
      SlotIs(minute);
      ghost var was := minutes[..];
      total := total + 1;
      minutes[minute % MINUTES] := minutes[minute % MINUTES] + 1;
      assert minutes[..] == was[minute % MINUTES := was[minute % MINUTES] + 1];
      log := log + [minute];
    }

    /** All the buckets together are exactly the requests of the last sixty minutes. */
    method PastHour(now: real) returns (n: nat)
      requires Valid() && now >= 0.0 && minute <= (now / 60.0).Floor
      modifies `minute, minutes
      ensures Valid() && log == old(log)
      ensures n == Folds.Count(log, Between((now / 60.0).Floor - MINUTES + 1, (now / 60.0).Floor))
    {
      hide HourAgrees;
      AdvanceMinutes((now / 60.0).Floor);
      n := 0;
      for i := 0 to minutes.Length
        invariant n == SumTo(minutes[..], i)
      {
        n := n + minutes[i];
      }
      SumIsCount(minutes[..], minute, log, MINUTES);
      WholeHour(log, minute);
    }
  }
}
