/** When each sample was captured, from the capture time of the packet nearest it. */
module CaptureClock {
  import opened Folds
  import opened Arithmetic

  const HISTORY_SEC := 900
  const MAX_EXTRAPOLATE_SEC := 2.0

  datatype Mark = Mark(sample: int, sec: real)

  predicate Increasing(marks: seq<Mark>) {
    forall i, j :: 0 <= i < j < |marks| ==> marks[i].sample < marks[j].sample
  }

  function From(first: int): Mark -> bool { (m: Mark) => m.sample >= first }

  function Gap(m: Mark, s: real): real { Abs(s - m.sample as real) }

  /** The nearest mark as a scan of all of them finds it, the earlier of two as near. */
  function Nearest(marks: seq<Mark>, s: real): (m: Mark)
    requires marks != []
  {
    var init, m := marks[..|marks| - 1], marks[|marks| - 1];
    if init == [] then m
    else
      var best := Nearest(init, s);
      if Gap(m, s) < Gap(best, s) then m else best
  }

  /** None is nearer, and none before it is as near. */
  ghost predicate IsNearest(marks: seq<Mark>, s: real, k: nat) {
    && k < |marks|
    && (forall i :: 0 <= i < |marks| ==> Gap(marks[k], s) <= Gap(marks[i], s))
    && (forall i :: 0 <= i < k ==> Gap(marks[k], s) < Gap(marks[i], s))
  }

  lemma {:induction false} NearestIsNearest(marks: seq<Mark>, s: real, k: nat)
    requires IsNearest(marks, s, k)
    ensures marks[k] == Nearest(marks, s)
  {
    var n := |marks| - 1;
    var init := marks[..n];
    if k < n {
      assert forall i :: 0 <= i < n ==> init[i] == marks[i];
      NearestIsNearest(init, s, k);
    } else if n > 0 {
      Among(init, s);
    }
  }

  lemma {:induction false} Among(marks: seq<Mark>, s: real)
    requires marks != []
    ensures Nearest(marks, s) in marks
  {
    var init, m := marks[..|marks| - 1], marks[|marks| - 1];
    assert marks == init + [m];
    if init != [] {
      Among(init, s);
    }
  }

  /** In marks that increase the nearest is the first not before the sample, or the one before that. */
  lemma NearestIsAtTheBound(marks: seq<Mark>, s: real, at: nat, k: nat)
    requires Increasing(marks) && at <= |marks| && marks != []
    requires forall i :: 0 <= i < at ==> marks[i].sample as real < s
    requires forall i :: at <= i < |marks| ==> marks[i].sample as real >= s
    requires
      k == if at == |marks| then at - 1
           else if at > 0 && s - marks[at - 1].sample as real <= marks[at].sample as real - s then at - 1
           else at
    ensures IsNearest(marks, s, k)
  {
    forall i | 0 <= i < |marks|
      ensures Gap(marks[k], s) <= Gap(marks[i], s) && (i < k ==> Gap(marks[k], s) < Gap(marks[i], s))
    {
      if i < at {
        assert marks[i].sample <= marks[at - 1].sample && (i < at - 1 ==> marks[i].sample < marks[at - 1].sample);
      } else {
        assert marks[at].sample <= marks[i].sample;
      }
    }
  }

  /** The marks no earlier than `first`. */
  function After(marks: seq<Mark>, first: int): seq<Mark> { Filter(marks, From(first)) }

  lemma AfterTwice(marks: seq<Mark>, earlier: int, first: int)
    requires earlier <= first
    ensures After(After(marks, earlier), first) == After(marks, first)
  {
    FilterTwice(marks, From(earlier), From(first));
  }

  lemma AfterOne(marks: seq<Mark>, m: Mark, first: int)
    requires first <= m.sample
    ensures After(marks + [m], first) == After(marks, first) + [m]
  {
    FilterOne(marks, m, From(first));
  }

  /** How many samples the history is long. */
  function Reach(rate: int): (r: int)
    ensures rate > 0 ==> r > 0
  {
    HISTORY_SEC * rate
  }

  /** The first sample still within the history at sample `s`. */
  function Horizon(s: int, rate: int): int { s - Reach(rate) }

  /** What of a stream is within the history of its newest mark; without a rate, all of it. */
  function InHistory(stream: seq<Mark>, rate: int): seq<Mark> {
    if stream == [] || rate <= 0 then stream
    else After(stream, Horizon(stream[|stream| - 1].sample, rate))
  }

  /** The stream a mark joins: a new one, if it goes back before the last of the present one. */
  function Joined(stream: seq<Mark>, m: Mark): seq<Mark> {
    if stream != [] && m.sample <= stream[|stream| - 1].sample then [m] else stream + [m]
  }

  /** The marks with a later one added, and what that puts out of the history dropped. */
  function Added(marks: seq<Mark>, m: Mark, rate: int): seq<Mark> {
    (if rate <= 0 then marks else After(marks, Horizon(m.sample, rate))) + [m]
  }

  /** Dropping what the newest mark puts out of the history leaves what is in it of the whole stream. */
  lemma HistoryNext(stream: seq<Mark>, m: Mark, rate: int)
    requires stream != [] ==> stream[|stream| - 1].sample < m.sample
    ensures InHistory(stream + [m], rate) == Added(InHistory(stream, rate), m, rate)
  {
    hide After;
    assert (stream + [m])[|stream|] == m;
    if rate > 0 {
      AfterOne(stream, m, Horizon(m.sample, rate));
      if stream != [] {
        AfterTwice(stream, Horizon(stream[|stream| - 1].sample, rate), Horizon(m.sample, rate));
      }
    }
  }

  /** The newest mark is among those kept; and a stream of none keeps none. */
  lemma LastIsKept(stream: seq<Mark>, rate: int)
    ensures InHistory([], rate) == []
    ensures var marks := InHistory(stream, rate);
            stream != [] ==> marks != [] && marks[|marks| - 1] == stream[|stream| - 1]
  {
    if stream != [] && rate > 0 {
      var n := |stream| - 1;
      assert stream == stream[..n] + [stream[n]];
      AfterOne(stream[..n], stream[n], Horizon(stream[n].sample, rate));
      hide After;
    }
  }

  lemma StartsAfresh()
    ensures Increasing([])
  {
  }

  lemma Joins(marks: seq<Mark>, m: Mark)
    requires Increasing(marks) && (marks != [] ==> marks[|marks| - 1].sample < m.sample)
    ensures Increasing(marks + [m])
  {
  }

  lemma KeepsOrder(marks: seq<Mark>, m: Mark, first: int)
    requires Increasing(marks) && (marks != [] ==> marks[|marks| - 1].sample < m.sample)
    ensures Increasing(After(marks, first) + [m])
  {
    FilterIncreasing(marks, From(first));
  }

  /** The nearest mark decides whether any is near enough. */
  lemma NearestDecides(marks: seq<Mark>, s: real, rate: int, k: nat)
    requires rate > 0 && IsNearest(marks, s, k)
    ensures Abs((s - marks[k].sample as real) / rate as real) <= MAX_EXTRAPOLATE_SEC
            <==> exists m :: m in marks && Gap(m, s) / rate as real <= MAX_EXTRAPOLATE_SEC
  {
    var best := marks[k];
    assert best in marks;
    AbsQuotient(s - best.sample as real, rate as real);
    hide Abs;
    forall m | m in marks
      ensures Gap(best, s) / rate as real <= Gap(m, s) / rate as real
    {
      QuotientOrdered(Gap(best, s), Gap(m, s), rate as real);
    }
  }

  lemma {:induction false} FilterIncreasing(marks: seq<Mark>, p: Mark -> bool)
    requires Increasing(marks)
    ensures Increasing(Filter(marks, p))
    ensures forall x :: x in Filter(marks, p) ==> x.sample <= marks[|marks| - 1].sample
  {
    if marks != [] {
      FilterIncreasing(marks[..|marks| - 1], p);
    }
  }

  /** A later mark added to what is kept of a stream: the history of the longer stream. */
  lemma MarkKept(stream: seq<Mark>, marks: seq<Mark>, m: Mark, rate: int)
    requires Increasing(stream) && Increasing(marks) && marks == InHistory(stream, rate)
    requires stream != [] ==> stream[|stream| - 1].sample < m.sample
    ensures Increasing(stream + [m]) && Increasing(marks + [m]) && Increasing(Added(marks, m, rate))
    ensures InHistory(stream + [m], rate) == Added(marks, m, rate)
  {
    hide Increasing, InHistory, After, Horizon;
    LastIsKept(stream, rate);
    Joins(stream, m);
    Joins(marks, m);
    HistoryNext(stream, m, rate);
    KeepsOrder(marks, m, Horizon(m.sample, rate));
  }

  /** Drops from the front what lies further back than `keep`. */
  method DropOld(all: seq<Mark>, keep: int, ghost before: seq<Mark>, ghost m: Mark) returns (marks: seq<Mark>)
    requires all == before + [m] && Increasing(all) && keep >= 0
    ensures marks == After(before, m.sample - keep) + [m]
  {
    hide After;
    marks := all;
    ghost var first := m.sample - keep;
    ghost var left := before;
    while |marks| > 1 && all[|all| - 1].sample - marks[0].sample > keep
      invariant marks == left + [m] && After(before, first) == After(left, first) && Increasing(marks)
      decreases |marks|
    {
      OldDropped(left, first);
      marks, left := marks[1..], left[1..];
    }
    NoneOld(left, m, first);
  }

  /** Adds a mark to those of its stream, and drops what it puts out of the history. */
  method AddMark(was: seq<Mark>, m: Mark, rate: int, ghost stream: seq<Mark>) returns (marks: seq<Mark>)
    requires Increasing(stream) && Increasing(was) && was == InHistory(stream, rate)
    requires stream != [] ==> stream[|stream| - 1].sample < m.sample
    ensures Increasing(stream + [m]) && Increasing(marks) && marks == InHistory(stream + [m], rate)
  {
    hide InHistory, Increasing, After, Reach;
    MarkKept(stream, was, m, rate);
    marks := was + [m];
    if rate > 0 {
      marks := DropOld(marks, Reach(rate), was, m);
    }
  }

  lemma OldDropped(left: seq<Mark>, first: int)
    requires left != [] && left[0].sample < first
    ensures After(left, first) == After(left[1..], first)
  {
    FilterFirst(left[0], left[1..], From(first));
    assert left == [left[0]] + left[1..];
    assert [] + After(left[1..], first) == After(left[1..], first);
  }

  lemma NoneOld(left: seq<Mark>, m: Mark, first: int)
    requires Increasing(left + [m]) && (left != [] ==> left[0].sample >= first)
    ensures After(left, first) == left
  {
    forall x | x in left
      ensures From(first)(x)
    {
      var i :| 0 <= i < |left| && left[i] == x;
      assert (left + [m])[0].sample <= (left + [m])[i].sample;
    }
    FilterAll(left, From(first));
  }

  class CaptureClock {
    var rate: int
    var marks: seq<Mark>
    /** Every mark of the present stream: since the rate was set, or since a mark last went back. */
    ghost var stream: seq<Mark>

    /** The marks strictly increase, and are those of the stream within the history of the newest. */
    ghost predicate Valid()
      reads this
    {
      Increasing(stream) && Increasing(marks) && marks == InHistory(stream, rate)
    }

    constructor (rate: int)
      ensures Valid() && stream == [] && this.rate == rate
    {
      this.rate, marks, stream := rate, [], [];
    }

    method SetSampleRate(rate: int)
      requires Valid()
      modifies this
      ensures Valid() && this.rate == rate && stream == if rate == old(this.rate) then old(stream) else []
    {
      if rate != this.rate {
        marks, stream := [], [];
      }
      this.rate := rate;
    }

    method Observe(firstSample: int, captureSec: real)
      requires Valid()
      modifies `marks, `stream
      ensures Valid() && stream == Joined(old(stream), Mark(firstSample, captureSec))
    {
      hide InHistory, Increasing;
      var m := Mark(firstSample, captureSec);
      LastIsKept(stream, rate);
      if marks != [] && firstSample <= marks[|marks| - 1].sample {
        StartsAfresh();
        marks, stream := [], [];
      }
      marks := AddMark(marks, m, rate, stream);
      stream := stream + [m];
    }

    method Reset()
      requires Valid()
      modifies `marks, `stream
      ensures Valid() && stream == []
    {
      marks, stream := [], [];
    }

    /** The first mark not before a sample, by bisection. */
    method LowerBound(s: real) returns (at: nat)
      requires Increasing(marks)
      ensures at <= |marks|
      ensures forall i :: 0 <= i < at ==> marks[i].sample as real < s
      ensures forall i :: at <= i < |marks| ==> marks[i].sample as real >= s
    {
      var lo, hi := 0, |marks|;
      while lo < hi
        invariant 0 <= lo <= hi <= |marks|
        invariant forall i :: 0 <= i < lo ==> marks[i].sample as real < s
        invariant forall i :: hi <= i < |marks| ==> marks[i].sample as real >= s
      {
        var mid := (lo + hi) / 2;
        if marks[mid].sample as real < s {
          lo := mid + 1;
        } else {
          hi := mid;
        }
      }
      at := lo;
    }

    /** The daemon time of a sample, by the mark nearest it; none when every mark is further than two
        seconds off. */
    method HostTimeAt(s: real) returns (host: Option<real>)
      requires Valid()
      ensures host.Some? <==> rate > 0 && exists m :: m in marks && Gap(m, s) / rate as real <= MAX_EXTRAPOLATE_SEC
      ensures host.Some? ==> var m := Nearest(marks, s); host.value == m.sec + (s - m.sample as real) / rate as real
    {
      hide Nearest, Gap, IsNearest, Increasing, InHistory;
      if marks == [] || rate <= 0 {
        return None;
      }
      var at := LowerBound(s);
      var k := if at < |marks| then at else at - 1;
      if at < |marks| && at > 0 && s - marks[at - 1].sample as real <= marks[at].sample as real - s {
        k := at - 1;
      }
      NearestIsAtTheBound(marks, s, at, k);
      NearestIsNearest(marks, s, k);
      NearestDecides(marks, s, rate, k);
      var best := marks[k];
      var dist := (s - best.sample as real) / rate as real;
      if Abs(dist) > MAX_EXTRAPOLATE_SEC {
        return None;
      }
      host := Some(best.sec + dist);
    }
  }

  lemma AbsQuotient(x: real, r: real)
    requires r > 0.0
    ensures Abs(x / r) == Abs(x) / r
  {
    QuotientAtLeast(Abs(x), r, 0.0);
    if x < 0.0 {
      assert -x / r == -(x / r);
    }
  }
}
