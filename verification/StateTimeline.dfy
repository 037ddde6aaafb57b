/** The states something was in over a day, held in a bounded space as its changes of state. */
module StateTimeline {
  import opened Folds

  const MAX_CHANGES := 2000
  const KEEP_SEC := 90000.0

  /** A state from an instant on. */
  datatype Span = Span(start: real, state: string)

  /** In time order. */
  ghost predicate InOrder(s: seq<Span>) {
    forall i, j :: 0 <= i < j < |s| ==> s[i].start <= s[j].start
  }

  /** The state in effect at an instant: that of the latest span begun by then, if any. */
  function StateAt(s: seq<Span>, t: real): Option<string> {
    if s == [] then None
    else if s[|s| - 1].start <= t then Some(s[|s| - 1].state)
    else StateAt(s[..|s| - 1], t)
  }

  /** A report is stamped no earlier than the last change, so a clock stepped back leaves the order. */
  function Stamped(changes: seq<Span>, unix: real): real {
    if changes == [] then unix else Max(unix, changes[|changes| - 1].start)
  }

  /** One report more: a change, unless the state is the one of the last change. */
  function Changed(cs: seq<Span>, s: Span): seq<Span> {
    if cs != [] && cs[|cs| - 1].state == s.state then cs
    else cs + [Span(Stamped(cs, s.start), s.state)]
  }

  /** All the changes there would be without bounds. */
  function Changes(log: seq<Span>): seq<Span> {
    if log == [] then [] else Changed(Changes(log[..|log| - 1]), log[|log| - 1])
  }

  lemma ChangedInOrder(cs: seq<Span>, s: Span)
    requires InOrder(cs)
    ensures
      var r := Changed(cs, s);
      && InOrder(r) && r != [] && r[|r| - 1].state == s.state
      && ((cs != [] ==> cs[|cs| - 1].start <= s.start) ==> r[|r| - 1].start <= s.start)
  {
  }

  lemma OrderBefore(log: seq<Span>)
    requires log != []
    ensures InOrder(log) ==> InOrder(log[..|log| - 1]) && (|log| > 1 ==> log[|log| - 2].start <= log[|log| - 1].start)
  {
  }

  lemma {:induction false} ChangesInOrder(log: seq<Span>)
    ensures InOrder(Changes(log)) && (log == [] ==> Changes(log) == [])
    ensures log != [] ==> Changes(log) != [] && Changes(log)[|Changes(log)| - 1].state == log[|log| - 1].state
    ensures InOrder(log) && log != [] ==> Changes(log)[|Changes(log)| - 1].start <= log[|log| - 1].start
  {
    if log == [] {
    } else {
      OrderBefore(log);
      hide InOrder, Changed;
      var before := log[..|log| - 1];
      ChangesInOrder(before);
      ChangedInOrder(Changes(before), log[|log| - 1]);
      assert before != [] ==> before[|before| - 1] == log[|log| - 2];
    }
  }

  lemma ChangedSuffices(cs: seq<Span>, s: Span, t: real)
    requires cs != [] ==> cs[|cs| - 1].start <= s.start
    ensures StateAt(Changed(cs, s), t) == if s.start <= t then Some(s.state) else StateAt(cs, t)
  {
    var r := cs + [Span(Stamped(cs, s.start), s.state)];
    assert r[..|r| - 1] == cs;
  }

  /** The changes say of every instant what the whole log of reports does. */
  lemma {:induction false} ChangesSuffice(log: seq<Span>, t: real)
    requires InOrder(log)
    ensures StateAt(Changes(log), t) == StateAt(log, t)
  {
    if log == [] {
    } else {
      OrderBefore(log);
      hide InOrder, Changed;
      var before := log[..|log| - 1];
      ChangesSuffice(before, t);
      ChangesInOrder(before);
      assert before != [] ==> before[|before| - 1] == log[|log| - 2];
      ChangedSuffices(Changes(before), log[|log| - 1], t);
    }
  }

  /** From the beginning of a later part on, that part is enough. */
  lemma {:induction false} TailSuffices(s: seq<Span>, k: nat, t: real)
    requires k < |s| && s[k].start <= t
    ensures StateAt(s[k..], t) == StateAt(s, t)
  {
    var n := |s| - 1;
    assert s[k..][n - k] == s[n];
    if !(s[n].start <= t) {
      assert s[k..][..n - k] == s[..n][k..];
      TailSuffices(s[..n], k, t);
    }
  }

  /** The newest changes, all but so many. */
  ghost predicate Keeps(all: seq<Span>, kept: seq<Span>, dropped: nat) {
    dropped <= |all| && kept == all[dropped..] && (all != [] ==> kept != [])
  }

  /** What has been dropped was over before the period kept. */
  ghost predicate Spares(kept: seq<Span>, dropped: nat) {
    dropped > 0 ==> kept != [] && kept[0].start < kept[|kept| - 1].start - KEEP_SEC
  }

  lemma AddsOne(all: seq<Span>, kept: seq<Span>, dropped: nat, s: Span)
    requires Keeps(all, kept, dropped) && (kept != [] ==> kept[|kept| - 1].start <= s.start)
    ensures Keeps(all + [s], kept + [s], dropped)
    ensures Spares(kept, dropped) ==> Spares(kept + [s], dropped)
    ensures (all == [] <==> kept == []) && (all != [] ==> kept[|kept| - 1] == all[|all| - 1])
  {
  }

  lemma KeptSuffice(all: seq<Span>, kept: seq<Span>, dropped: nat, t: real)
    requires Keeps(all, kept, dropped)
    requires (kept != [] && kept[0].start <= t) || (Spares(kept, dropped) && (all != [] ==> all[|all| - 1].start - KEEP_SEC <= t))
    ensures StateAt(kept, t) == StateAt(all, t)
  {
    if dropped > 0 {
      TailSuffices(all, dropped, t);
    } else {
      assert all[0..] == all;
    }
  }

  function SinceTo(s: seq<Span>, from: real, n: nat): seq<Span>
    requires n <= |s|
  {
    if n == 0 then []
    else SinceTo(s, from, n - 1) + if Matters(s, from, n - 1) then [s[n - 1]] else []
  }

  predicate Matters(s: seq<Span>, from: real, i: nat)
    requires i < |s|
  {
    s[i].start >= from || i + 1 == |s| || s[i + 1].start > from
  }

  function InEffectSince(s: seq<Span>, from: real): seq<Span> { SinceTo(s, from, |s|) }

  /** What is given back is a tail: from the change in effect at `from` on. */
  lemma {:induction false} SinceIsTail(s: seq<Span>, from: real, n: nat) returns (k: nat)
    requires InOrder(s) && n <= |s|
    ensures k <= n && SinceTo(s, from, n) == s[k..n]
    ensures k > 0 ==> !Matters(s, from, k - 1)
    ensures k < n ==> Matters(s, from, n - 1)
  {
    k := 0;
    if n > 0 {
      k := SinceIsTail(s, from, n - 1);
      if Matters(s, from, n - 1) {
        assert s[k..n] == s[k..n - 1] + [s[n - 1]];
      } else {
        k := n;
      }
    }
  }

  lemma SinceSuffices(s: seq<Span>, from: real, t: real)
    requires InOrder(s) && from <= t
    ensures StateAt(InEffectSince(s, from), t) == StateAt(s, t)
  {
    if s != [] {
      var k := SinceIsTail(s, from, |s|);
      assert s[k..|s|] == s[k..];
      if k == 0 {
        assert s[0..] == s;
      } else if k < |s| {
        TailSuffices(s, k, t);
      }
    }
  }

  /** What is kept says of every instant from the first change left on the state that the whole log of reports
      does; and, while the cap on the changes has not been reached, of every instant of the last 25 hours. */
  lemma HistoryIsExact(log: seq<Span>, kept: seq<Span>, dropped: nat, from: real, t: real)
    requires InOrder(log) && Keeps(Changes(log), kept, dropped) && from <= t
    requires (kept != [] && kept[0].start <= t)
             || (Spares(kept, dropped) && (log != [] ==> log[|log| - 1].start - KEEP_SEC <= t))
    ensures StateAt(InEffectSince(kept, from), t) == StateAt(log, t)
  {
    ChangesInOrder(log);
    assert InOrder(kept);
    SinceSuffices(kept, from, t);
    KeptSuffice(Changes(log), kept, dropped, t);
    ChangesSuffice(log, t);
  }

  lemma StampedInOrder(changes: seq<Span>, unix: real, state: string)
    requires InOrder(changes)
    ensures InOrder(changes + [Span(Stamped(changes, unix), state)])
    ensures changes != [] ==> changes[|changes| - 1].start <= Stamped(changes, unix)
  {
  }

  lemma TailInOrder(s: seq<Span>, k: nat)
    requires InOrder(s) && k <= |s|
    ensures InOrder(s[k..])
  {
  }

  lemma ReportNext(log: seq<Span>, kept: seq<Span>, dropped: nat, unix: real, state: string)
    requires Keeps(Changes(log), kept, dropped)
    ensures Changes(log + [Span(unix, state)])
            == if kept != [] && kept[|kept| - 1].state == state then Changes(log)
               else Changes(log) + [Span(Stamped(kept, unix), state)]
  {
    assert (log + [Span(unix, state)])[..|log|] == log;
    AddsOne(Changes(log), kept, dropped, Span(Stamped(kept, unix), state));
  }

  /** Of some changes the first `cut` are dropped: the least that leaves room, and leaves none but the first
      begun before the period kept. */
  ghost predicate IsCut(all: seq<Span>, cut: nat) {
    && cut < |all| && |all| - cut <= MAX_CHANGES
    && (cut + 1 < |all| ==> all[cut + 1].start >= all[|all| - 1].start - KEEP_SEC)
    && (cut > 0 ==> all[cut].start < all[|all| - 1].start - KEEP_SEC || |all| - cut == MAX_CHANGES)
  }

  /** The cap takes a change that is still wanted. */
  predicate Overflows(all: seq<Span>) {
    |all| > MAX_CHANGES && all[1].start >= all[|all| - 1].start - KEEP_SEC
  }

  lemma CutFits(all: seq<Span>, cut: nat)
    requires IsCut(all, cut)
    ensures cut < |all| && |all[cut..]| <= MAX_CHANGES
  {
  }

  lemma CutKeeps(all: seq<Span>, was: seq<Span>, before: nat, s: Span, cut: nat)
    requires Keeps(all, was, before) && (was != [] ==> was[|was| - 1].start <= s.start) && IsCut(was + [s], cut)
    requires |was| <= MAX_CHANGES
    ensures Keeps(all + [s], (was + [s])[cut..], before + cut)
    ensures Spares(was, before) && !Overflows(was + [s]) ==> Spares((was + [s])[cut..], before + cut)
  {
    AddsOne(all, was, before, s);
    if cut == 0 {
      assert (was + [s])[0..] == was + [s];
    }
  }

  predicate Aged(all: seq<Span>, cut: nat) {
    cut < |all| && (cut > 0 ==> all[cut].start < all[|all| - 1].start - KEEP_SEC)
  }

  predicate Sized(all: seq<Span>, cut: nat) {
    && cut < |all| && (cut + 1 < |all| ==> all[cut + 1].start >= all[|all| - 1].start - KEEP_SEC)
    && (cut > 0 ==> all[cut].start < all[|all| - 1].start - KEEP_SEC || |all| - cut >= MAX_CHANGES)
  }

  lemma AgedNext(all: seq<Span>, cut: nat)
    requires Aged(all, cut) && InOrder(all)
    ensures if cut + 1 < |all| && all[cut + 1].start < all[|all| - 1].start - KEEP_SEC then Aged(all, cut + 1) else Sized(all, cut)
  {
  }

  lemma SizedNext(all: seq<Span>, cut: nat)
    requires Sized(all, cut) && InOrder(all)
    ensures if |all| - cut > MAX_CHANGES then Sized(all, cut + 1) else IsCut(all, cut)
  {
  }

  /** Adds a change; what no window reaches is dropped, and past the cap the oldest regardless. */
  method Append(was: seq<Span>, s: Span) returns (changes: seq<Span>, ghost cut: nat)
    requires InOrder(was + [s])
    ensures IsCut(was + [s], cut) && changes == (was + [s])[cut..]
  {
    hide Aged, Sized, IsCut, InOrder;
    var more := was + [s];
    changes, cut := more, 0;
    AgedFirst(more);
    while |changes| > 1 && changes[1].start < s.start - KEEP_SEC
      invariant cut < |more| && changes == more[cut..] && Aged(more, cut)
    {
      AgedNext(more, cut);
      changes, cut := changes[1..], cut + 1;
    }
    AgedNext(more, cut);
    while |changes| > MAX_CHANGES
      invariant cut < |more| && changes == more[cut..] && Sized(more, cut)
    {
      SizedNext(more, cut);
      changes, cut := changes[1..], cut + 1;
    }
    SizedNext(more, cut);
  }

  lemma NewReport(log: seq<Span>, was: seq<Span>, dropped: nat, unix: real, state: string, cut: nat)
    requires Keeps(Changes(log), was, dropped) && InOrder(was) && (was != [] ==> was[|was| - 1].state != state)
    requires |was| <= MAX_CHANGES && IsCut(was + [Span(Stamped(was, unix), state)], cut)
    ensures
      var more := was + [Span(Stamped(was, unix), state)];
      && cut < |more| && |more[cut..]| <= MAX_CHANGES && InOrder(more[cut..])
      && Keeps(Changes(log + [Span(unix, state)]), more[cut..], dropped + cut)
      && (Spares(was, dropped) && !Overflows(more) ==> Spares(more[cut..], dropped + cut))
  {
    hide Keeps, Spares, Changes, InOrder, IsCut, Stamped, Overflows;
    ReportNext(log, was, dropped, unix, state);
    StampedInOrder(was, unix, state);
    CutKeeps(Changes(log), was, dropped, Span(Stamped(was, unix), state), cut);
    CutFits(was + [Span(Stamped(was, unix), state)], cut);
    TailInOrder(was + [Span(Stamped(was, unix), state)], cut);
  }

  lemma AgedFirst(all: seq<Span>)
    requires all != []
    ensures Aged(all, 0)
  {
  }

  class StateTimeline {
    var changes: seq<Span>
    /** Every report, how many changes have been dropped, and whether any was for want of room. */
    ghost var log: seq<Span>
    ghost var dropped: nat
    ghost var overflowed: bool

    ghost predicate Valid()
      reads this
    {
      && |changes| <= MAX_CHANGES && Keeps(Changes(log), changes, dropped) && InOrder(changes)
      && (log != [] ==> changes != []) && (!overflowed ==> Spares(changes, dropped))
    }

    constructor ()
      ensures Valid() && log == [] && !overflowed
    {
      changes, log, dropped, overflowed := [], [], 0, false;
    }

    /** One report more in the log; a change is kept of it only when the state is a new one, and then no more
        of the older ones are dropped than must be. */
    method Set(unix: real, state: string)
      requires Valid()
      modifies this
      ensures Valid() && log == old(log) + [Span(unix, state)]
      ensures
        var was := old(changes);
        if was != [] && was[|was| - 1].state == state then changes == was
        else
          var more := was + [Span(Stamped(was, unix), state)];
          exists cut :: 0 <= cut < |more| && IsCut(more, cut) && changes == more[cut..]
      ensures
        var was := old(changes);
        var changed := was == [] || was[|was| - 1].state != state;
        overflowed == (old(overflowed) || (changed && Overflows(was + [Span(Stamped(was, unix), state)])))
    {
      hide Keeps, Spares, Changes, InOrder, IsCut, Stamped, Overflows;
      ReportNext(log, changes, dropped, unix, state);
      StampedInOrder(changes, unix, state);
      log := log + [Span(unix, state)];
      if changes != [] && changes[|changes| - 1].state == state {
        return;
      }
      ghost var cut;
      overflowed := overflowed || Overflows(changes + [Span(Stamped(changes, unix), state)]);
      ghost var was := changes;
      changes, cut := Append(changes, Span(Stamped(changes, unix), state));
      NewReport(old(log), was, dropped, unix, state, cut);
      dropped := dropped + cut;
    }

    /** Enough of the changes to answer for every instant from `from` on, as far back as the period kept,
        with the state that the whole log of reports gives it. */
    method Since(from: real) returns (r: seq<Span>)
      requires Valid()
      ensures r == InEffectSince(changes, from)
      ensures InOrder(log) && changes != [] ==>
                forall t :: from <= t && changes[0].start <= t ==> StateAt(r, t) == StateAt(log, t)
      ensures !overflowed && InOrder(log) ==>
                forall t :: from <= t && (log != [] ==> log[|log| - 1].start - KEEP_SEC <= t) ==> StateAt(r, t) == StateAt(log, t)
    {
      forall t | InOrder(log) && from <= t && ((changes != [] && changes[0].start <= t)
                 || (!overflowed && (log != [] ==> log[|log| - 1].start - KEEP_SEC <= t)))
        ensures StateAt(InEffectSince(changes, from), t) == StateAt(log, t)
      {
        HistoryIsExact(log, changes, dropped, from, t);
      }
      r := [];
      for i := 0 to |changes|
        invariant r == SinceTo(changes, from, i)
      {
        var nextInside := i + 1 < |changes| && changes[i + 1].start > from;
        if changes[i].start >= from || nextInside || i + 1 == |changes| {
          r := r + [changes[i]];
        }
      }
    }
  }
}
