/** Bounded histories for the charts: figures gathered into buckets of time, and the instants at which a
    state changed. */
module Metrics {
  import opened Folds

  // ---- buckets ---------------------------------------------------------------------------------------

  /** A bucket starts at `number` widths. */
  datatype Bucket = Bucket(number: int, sum: real, min: real, max: real, count: nat)

  datatype Point = Point(unix: real, value: real)

  function NumberOf(width: real, unix: real): int
    requires width > 0.0
  {
    (unix / width).Floor
  }

  function Opened(number: int, value: real): Bucket { Bucket(number, value, value, value, 1) }

  function Folded(b: Bucket, value: real): Bucket {
    Bucket(b.number, b.sum + value, Min(b.min, value), Max(b.max, value), b.count + 1)
  }

  /** All the buckets there would be without a bound on their number, the one still filling last. */
  function Buckets(width: real, log: seq<Point>): seq<Bucket>
    requires width > 0.0
  {
    if log == [] then []
    else
      var bs, p := Buckets(width, log[..|log| - 1]), log[|log| - 1];
      if bs == [] || NumberOf(width, p.unix) > bs[|bs| - 1].number then bs + [Opened(NumberOf(width, p.unix), p.value)]
      else bs[..|bs| - 1] + [Folded(bs[|bs| - 1], p.value)]
  }

  predicate Rising(bs: seq<Bucket>) {
    forall i, j :: 0 <= i < j < |bs| ==> bs[i].number < bs[j].number
  }

  lemma RisingNext(bs: seq<Bucket>, b: Bucket)
    requires Rising(bs)
    ensures bs == [] || bs[|bs| - 1].number < b.number ==> Rising(bs + [b])
    ensures bs != [] && bs[|bs| - 1].number == b.number ==> Rising(bs[..|bs| - 1] + [b])
  {
  }

  lemma {:induction false} BucketsRise(width: real, log: seq<Point>)
    requires width > 0.0
    ensures Rising(Buckets(width, log)) && (log != [] ==> Buckets(width, log) != [])
  {
    hide NumberOf, Rising;
    if log == [] {
      assert Rising([]) by {
        NoneRising();
      }
    } else {
      var bs, p := Buckets(width, log[..|log| - 1]), log[|log| - 1];
      BucketsRise(width, log[..|log| - 1]);
      RisingNext(bs, Opened(NumberOf(width, p.unix), p.value));
      if bs != [] {
        RisingNext(bs, Folded(bs[|bs| - 1], p.value));
      }
    }
  }

  lemma NoneRising()
    ensures Rising([])
  {
  }

  function In(width: real, number: int): Point -> bool
    requires width > 0.0
  {
    (p: Point) => NumberOf(width, p.unix) == number
  }

  const ValueOf: Point -> real := (p: Point) => p.value

  /** The exact figures of some samples. */
  ghost predicate Summarises(b: Bucket, s: seq<Point>) {
    && b.count == |s| >= 1 && b.sum == Sum(s, ValueOf)
    && (forall p :: p in s ==> b.min <= p.value <= b.max)
    && (exists p :: p in s && p.value == b.min) && (exists p :: p in s && p.value == b.max)
  }

  lemma OpenedSummarises(p: Point, number: int)
    ensures Summarises(Opened(number, p.value), [p])
  {
    SumOne([], p, ValueOf);
    assert [] + [p] == [p];
    assert p in [p];
  }

  lemma FoldedSummarises(b: Bucket, s: seq<Point>, p: Point)
    requires Summarises(b, s)
    ensures Summarises(Folded(b, p.value), s + [p])
  {
    SumOne(s, p, ValueOf);
    var lo :| lo in s && lo.value == b.min;
    var hi :| hi in s && hi.value == b.max;
    assert p in s + [p] && lo in s + [p] && hi in s + [p];
  }

  /** In time order. */
  ghost predicate InOrder(log: seq<Point>) {
    forall i, j :: 0 <= i < j < |log| ==> log[i].unix <= log[j].unix
  }

  lemma NumbersInOrder(width: real, u: real, v: real)
    requires width > 0.0 && u <= v
    ensures NumberOf(width, u) <= NumberOf(width, v)
  {
    assert u / width <= v / width by {
      assert v / width * width == v && u / width * width == u;
    }
  }

  ghost predicate Exact(width: real, log: seq<Point>, b: Bucket)
    requires width > 0.0
  {
    Summarises(b, Filter(log, In(width, b.number)))
  }

  predicate Has(width: real, bs: seq<Bucket>, p: Point)
    requires width > 0.0
  {
    exists i :: 0 <= i < |bs| && bs[i].number == NumberOf(width, p.unix)
  }

  /** Each bucket has the exact sum, least, greatest and number of the samples of its stretch of time; a
      stretch with samples has one; they are in order, the newest sample's last. */
  ghost predicate AllExact(width: real, log: seq<Point>, bs: seq<Bucket>)
    requires width > 0.0
  {
    && Rising(bs) && (forall i :: 0 <= i < |bs| ==> Exact(width, log, bs[i]))
    && (forall p :: p in log ==> Has(width, bs, p))
    && (log != [] ==> bs != [] && bs[|bs| - 1].number == NumberOf(width, log[|log| - 1].unix))
  }

  lemma SameStretch(width: real, log: seq<Point>, p: Point, b: Bucket)
    requires width > 0.0 && Exact(width, log, b) && b.number != NumberOf(width, p.unix)
    ensures Exact(width, log + [p], b)
  {
    hide NumberOf, Summarises;
    FilterOne(log, p, In(width, b.number));
    assert Filter(log, In(width, b.number)) + [] == Filter(log, In(width, b.number));
  }

  lemma StillHas(width: real, log: seq<Point>, p: Point, bs: seq<Bucket>, cs: seq<Bucket>)
    requires width > 0.0 && forall q :: q in log ==> Has(width, bs, q)
    requires |bs| <= |cs| && forall i :: 0 <= i < |bs| ==> cs[i].number == bs[i].number
    requires cs != [] && cs[|cs| - 1].number == NumberOf(width, p.unix)
    ensures forall q :: q in log + [p] ==> Has(width, cs, q)
  {
    forall q | q in log + [p]
      ensures Has(width, cs, q)
    {
      if q in log {
        assert Has(width, bs, q);
        var i :| 0 <= i < |bs| && bs[i].number == NumberOf(width, q.unix);
        assert cs[i].number == NumberOf(width, q.unix);
      }
    }
  }

  /** A stretch later than every bucket has no samples yet. */
  lemma FirstExact(width: real, log: seq<Point>, p: Point, bs: seq<Bucket>)
    requires width > 0.0 && AllExact(width, log, bs) && (bs == [] || NumberOf(width, p.unix) > bs[|bs| - 1].number)
    ensures Exact(width, log + [p], Opened(NumberOf(width, p.unix), p.value))
  {
    hide NumberOf, Summarises, Exact;
    var n := NumberOf(width, p.unix);
    forall q | q in log
      ensures !In(width, n)(q)
    {
      assert Has(width, bs, q);
    }
    CountNone(log, In(width, n));
    FirstOfStretch(width, log, p);
  }

  lemma FirstOfStretch(width: real, log: seq<Point>, p: Point)
    requires width > 0.0 && Count(log, In(width, NumberOf(width, p.unix))) == 0
    ensures Exact(width, log + [p], Opened(NumberOf(width, p.unix), p.value))
  {
    hide Summarises, NumberOf;
    var n := NumberOf(width, p.unix);
    FilterOne(log, p, In(width, n));
    OpenedSummarises(p, n);
    assert [] + [p] == [p];
  }

  lemma OpensNew(width: real, log: seq<Point>, p: Point, bs: seq<Bucket>)
    requires width > 0.0 && AllExact(width, log, bs) && (bs == [] || NumberOf(width, p.unix) > bs[|bs| - 1].number)
    ensures AllExact(width, log + [p], bs + [Opened(NumberOf(width, p.unix), p.value)])
  {
    hide NumberOf, Exact, Has;
    var cs := bs + [Opened(NumberOf(width, p.unix), p.value)];
    StillHas(width, log, p, bs, cs);
    FirstExact(width, log, p, bs);
    forall i | 0 <= i < |bs|
      ensures Exact(width, log + [p], cs[i])
    {
      SameStretch(width, log, p, bs[i]);
    }
  }

  lemma NextExact(width: real, log: seq<Point>, p: Point, b: Bucket)
    requires width > 0.0 && Exact(width, log, b) && NumberOf(width, p.unix) == b.number
    ensures Exact(width, log + [p], Folded(b, p.value))
  {
    hide NumberOf, Summarises;
    FilterOne(log, p, In(width, b.number));
    FoldedSummarises(b, Filter(log, In(width, b.number)), p);
  }

  lemma FoldsIn(width: real, log: seq<Point>, p: Point, bs: seq<Bucket>)
    requires width > 0.0 && AllExact(width, log, bs) && bs != [] && NumberOf(width, p.unix) == bs[|bs| - 1].number
    ensures AllExact(width, log + [p], bs[..|bs| - 1] + [Folded(bs[|bs| - 1], p.value)])
  {
    hide NumberOf, Exact, Has;
    var last := |bs| - 1;
    var cs := bs[..last] + [Folded(bs[last], p.value)];
    StillHas(width, log, p, bs, cs);
    NextExact(width, log, p, bs[last]);
    forall i | 0 <= i < last
      ensures Exact(width, log + [p], cs[i])
    {
      SameStretch(width, log, p, bs[i]);
    }
  }

  lemma NoneExact(width: real)
    requires width > 0.0
    ensures AllExact(width, [], [])
  {
  }

  lemma LastInOrder(log: seq<Point>, p: Point)
    requires InOrder(log + [p])
    ensures InOrder(log) && (log != [] ==> log[|log| - 1].unix <= p.unix)
  {
    assert forall i :: 0 <= i < |log| ==> (log + [p])[i] == log[i];
    assert (log + [p])[|log|] == p;
  }

  lemma BucketsNext(width: real, log: seq<Point>, p: Point)
    requires width > 0.0
    ensures
      var bs, n := Buckets(width, log), NumberOf(width, p.unix);
      Buckets(width, log + [p])
      == if bs == [] || n > bs[|bs| - 1].number then bs + [Opened(n, p.value)]
         else bs[..|bs| - 1] + [Folded(bs[|bs| - 1], p.value)]
  {
    assert (log + [p])[..|log|] == log;
  }

  lemma {:induction false} BucketsAreExact(width: real, log: seq<Point>)
    requires width > 0.0 && InOrder(log)
    ensures AllExact(width, log, Buckets(width, log))
  {
    hide Rising, Exact, Has, InOrder, NumberOf;
    if log == [] {
      NoneExact(width);
    } else {
      var before, p := log[..|log| - 1], log[|log| - 1];
      assert log == before + [p];
      LastInOrder(before, p);
      BucketsAreExact(width, before);
      BucketsNext(width, before, p);
      if before != [] {
        NumbersInOrder(width, before[|before| - 1].unix, p.unix);
      }
      var bs := Buckets(width, before);
      hide AllExact, Buckets;
      if bs == [] || NumberOf(width, p.unix) > bs[|bs| - 1].number {
        OpensNew(width, before, p, bs);
      } else {
        FoldsIn(width, before, p, bs);
      }
    }
  }

  // ---- a bounded number of them ------------------------------------------------------------------------

  /** A bucket that starts later than `oldest`. */
  function After(oldest: int): Bucket -> bool { (b: Bucket) => b.number > oldest }

  /** The newest of all the buckets: the one still filling, and as many before it as there is room for. */
  ghost predicate Newest(all: seq<Bucket>, done: seq<Bucket>, current: Bucket, dropped: nat, capacity: nat) {
    && dropped + |done| + 1 == |all| && all[dropped..] == done + [current]
    && |done| <= capacity && (dropped > 0 ==> |done| == capacity)
  }

  lemma ClosesBucket(all: seq<Bucket>, done: seq<Bucket>, current: Bucket, dropped: nat, capacity: nat, b: Bucket)
    requires Newest(all, done, current, dropped, capacity)
    ensures
      if |done| < capacity then Newest(all + [b], done + [current], b, dropped, capacity)
      else Newest(all + [b], (done + [current])[1..], b, dropped + 1, capacity)
  {
    assert all == all[..dropped] + (done + [current]);
  }

  lemma FoldsBucket(all: seq<Bucket>, done: seq<Bucket>, current: Bucket, dropped: nat, capacity: nat, b: Bucket)
    requires Newest(all, done, current, dropped, capacity)
    ensures all[|all| - 1] == current && Newest(all[..|all| - 1] + [b], done, b, dropped, capacity)
  {
    assert all == all[..dropped] + (done + [current]);
  }

  lemma {:induction false} Spread(bs: seq<Bucket>, i: nat, j: nat)
    requires Rising(bs) && i <= j < |bs|
    ensures bs[i].number + (j - i) <= bs[j].number
    decreases j
  {
    if i < j {
      Spread(bs, i, j - 1);
    }
  }

  /** What has been dropped is older than any window. */
  lemma DroppedIsOld(all: seq<Bucket>, done: seq<Bucket>, current: Bucket, dropped: nat, capacity: nat, oldest: int)
    requires Newest(all, done, current, dropped, capacity) && Rising(all) && current.number - capacity <= oldest
    ensures Filter(all, After(oldest)) == Filter(done + [current], After(oldest))
  {
    var kept := all[dropped..];
    assert all == all[..dropped] + kept;
    forall b | b in all[..dropped]
      ensures !After(oldest)(b)
    {
      var i :| 0 <= i < dropped && all[i] == b;
      Spread(all, i, |all| - 1);
      assert all[|all| - 1] == kept[|kept| - 1] == current;
    }
    CountNone(all[..dropped], After(oldest));
    FilterConcat(all[..dropped], kept, After(oldest));
  }

  /** The bucket now closed joins the others; the oldest goes if there is no room. */
  method Close(ghost all: seq<Bucket>, was: seq<Bucket>, current: Bucket, ghost before: nat, capacity: nat, ghost b: Bucket)
      returns (done: seq<Bucket>, ghost dropped: nat)
    requires Newest(all, was, current, before, capacity)
    ensures Newest(all + [b], done, b, dropped, capacity)
  {
    ClosesBucket(all, was, current, before, capacity, b);
    Fits(all, was, current, before, capacity);
    hide Newest;
    done, dropped := was + [current], before;
    while |done| > capacity
      invariant |done| > capacity ==> |done| == capacity + 1 && done == was + [current] && dropped == before
      invariant |done| <= capacity ==> Newest(all + [b], done, b, dropped, capacity)
    {
      done, dropped := done[1..], dropped + 1;
    }
  }

  class MetricTier {
    const width: real
    const capacity: nat
    var done: seq<Bucket>
    var current: Bucket
    var haveCurrent: bool
    /** Every sample ever added, and how many of their buckets have been dropped. */
    ghost var log: seq<Point>
    ghost var dropped: nat

    ghost predicate Valid()
      reads this
    {
      && width > 0.0 && haveCurrent == (log != [])
      && (if haveCurrent then Newest(Buckets(width, log), done, current, dropped, capacity) else done == [] && dropped == 0)
    }

    constructor (width: real, capacity: nat)
      requires width > 0.0
      ensures Valid() && this.width == width && this.capacity == capacity && log == []
    {
      this.width, this.capacity := width, capacity;
      done, current, haveCurrent, log, dropped := [], Bucket(0, 0.0, 0.0, 0.0, 0), false, [], 0;
    }

    method Add(unix: real, value: real)
      requires Valid()
      modifies this
      ensures Valid() && log == old(log) + [Point(unix, value)]
    {
      ghost var p, all := Point(unix, value), Buckets(width, log);
      BucketsNext(width, log, p);
      NoBuckets(width);
      OnlyBucket(Opened(NumberOf(width, unix), value), capacity);
      hide NumberOf, Buckets, Newest, Opened, Folded;
      log := log + [p];
      var number := NumberOf(width, unix);
      if !haveCurrent {
        current, haveCurrent := Opened(number, value), true;
        return;
      }
      FoldsBucket(all, done, current, dropped, capacity, Folded(current, value));
      if number > current.number {
        done, dropped := Close(all, done, current, dropped, capacity, Opened(number, value));
        current := Opened(number, value);
      } else {
        current := Folded(current, value);
      }
    }

    /** The buckets of the last `capacity` widths up to `now`: exactly those there would be without the
        bound. */
    method Points(now: real) returns (r: seq<Bucket>)
      requires Valid()
      requires haveCurrent ==> current.number <= NumberOf(width, now)
      ensures r == Filter(Buckets(width, log), After(NumberOf(width, now) - capacity))
    {
      hide NumberOf, Newest, Buckets, Filter, Rising;
      var oldest := NumberOf(width, now) - capacity;
      r := Later(done, oldest);
      BucketsRise(width, log);
      if haveCurrent {
        DroppedIsOld(Buckets(width, log), done, current, dropped, capacity, oldest);
        FilterOne(done, current, After(oldest));
        if current.number > oldest {
          r := r + [current];
        }
      } else {
        NoBuckets(width);
      }
    }
  }

  lemma NoBuckets(width: real)
    requires width > 0.0
    ensures Buckets(width, []) == []
  {
  }

  lemma OnlyBucket(b: Bucket, capacity: nat)
    ensures Newest([] + [b], [], b, 0, capacity)
  {
  }

  lemma Fits(all: seq<Bucket>, done: seq<Bucket>, current: Bucket, dropped: nat, capacity: nat)
    requires Newest(all, done, current, dropped, capacity)
    ensures |done| <= capacity
  {
  }

  method Later(done: seq<Bucket>, oldest: int) returns (r: seq<Bucket>)
    ensures r == Filter(done, After(oldest))
  {
    r := [];
    for i := 0 to |done|
      invariant r == Filter(done[..i], After(oldest))
    {
      Extend(done, i);
      if done[i].number > oldest {
        r := r + [done[i]];
      }
    }
    assert done[..|done|] == done;
  }
}
