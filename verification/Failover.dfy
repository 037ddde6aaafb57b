/** Which class of source serves: two timers and a latch, with a short hold-down to fail over and a
    long one to fail back, and the standby that a cold secondary is. */
module Failover {
  import opened Arithmetic

  datatype Mode = Always | Standby | Cold

  datatype Config = Config(mode: Mode, failoverAfter: real, failbackAfter: real)

  predicate ValidConfig(c: Config) {
    c.failoverAfter >= 0.0 && c.failbackAfter >= 0.0
  }

  /** One pass, as the latch sees it. */
  datatype Pass = Pass(now: real, primaryUsable: bool, secondaryUsable: bool)

  /** `lostSince` and `healthySince` are zero while the other one runs. */
  datatype State = State(onSecondary: bool, lostSince: real, healthySince: real, active: bool)

  function Initial(c: Config): State {
    State(false, 0.0, 0.0, c.mode != Cold)
  }

  function LostSince(s: State, p: Pass): real {
    if p.primaryUsable then 0.0 else if s.lostSince <= 0.0 then p.now else s.lostSince
  }

  function HealthySince(s: State, p: Pass): real {
    if !p.primaryUsable then 0.0 else if s.healthySince <= 0.0 then p.now else s.healthySince
  }

  /** How long a timer has run; none while it is unset. */
  function Elapsed(since: real, now: real): real {
    if since > 0.0 then now - since else 0.0
  }

  function Step(c: Config, s: State, p: Pass): State {
    var lost, healthy := LostSince(s, p), HealthySince(s, p);
    if c.mode == Always then
      State(false, lost, healthy, true)
    else
      var healthyFor := Elapsed(healthy, p.now);
      var on :=
        if !s.onSecondary then !p.primaryUsable && p.secondaryUsable && Elapsed(lost, p.now) >= c.failoverAfter
        else !(p.primaryUsable && healthyFor >= c.failbackAfter);
      var active :=
        if c.mode == Cold then on || !p.primaryUsable || (s.active && healthy > 0.0 && healthyFor < c.failbackAfter)
        else true;
      State(on, lost, healthy, active)
  }

  function Run(c: Config, ps: seq<Pass>): State {
    if ps == [] then Initial(c) else Step(c, Run(c, ps[..|ps| - 1]), ps[|ps| - 1])
  }

  lemma RunAppend(c: Config, ps: seq<Pass>, p: Pass)
    ensures Run(c, ps + [p]) == Step(c, Run(c, ps), p)
  {
    assert (ps + [p])[..|ps|] == ps;
  }

  /** The state before pass `i`, and after it. */
  function At(c: Config, ps: seq<Pass>, i: nat): State
    requires i <= |ps|
  {
    Run(c, ps[..i])
  }

  /** Time is positive and never goes back. */
  ghost predicate InOrder(ps: seq<Pass>) {
    && (forall i :: 0 <= i < |ps| ==> ps[i].now > 0.0)
    && (forall i, j :: 0 <= i <= j < |ps| ==> ps[i].now <= ps[j].now)
  }

  lemma AtNext(c: Config, ps: seq<Pass>, i: nat)
    requires i < |ps|
    ensures At(c, ps, i + 1) == Step(c, At(c, ps, i), ps[i])
  {
    assert ps[..i + 1][..i] == ps[..i];
  }

  // ---- the timers remember the current stretch exactly -----------------------------------------

  /** From `st` on, through pass `i`, the primary has been usable, or unusable, at every pass, and it
      was not so just before. */
  ghost predicate Stretch(ps: seq<Pass>, st: nat, i: nat, usable: bool) {
    && st <= i < |ps|
    && (forall j :: st <= j <= i ==> ps[j].primaryUsable == usable)
    && (st > 0 ==> ps[st - 1].primaryUsable != usable)
  }

  /** In every run the running timer was set at the start of the unbroken stretch the primary is in,
      and the other one is unset. */
  lemma {:induction false} TimersMarkTheStretch(c: Config, ps: seq<Pass>, i: nat) returns (st: nat)
    requires InOrder(ps) && i < |ps|
    ensures Stretch(ps, st, i, ps[i].primaryUsable)
    ensures ps[i].primaryUsable ==> At(c, ps, i + 1).healthySince == ps[st].now && At(c, ps, i + 1).lostSince == 0.0
    ensures !ps[i].primaryUsable ==> At(c, ps, i + 1).lostSince == ps[st].now && At(c, ps, i + 1).healthySince == 0.0
  {
    AtNext(c, ps, i);
    if i == 0 {
      assert At(c, ps, 0) == Initial(c);
      st := 0;
    } else {
      var before := TimersMarkTheStretch(c, ps, i - 1);
      st := if ps[i - 1].primaryUsable == ps[i].primaryUsable then before else i;
    }
  }

  // ---- switches ----------------------------------------------------------------------------------

  predicate Switches(c: Config, ps: seq<Pass>, i: nat)
    requires i < |ps|
  {
    At(c, ps, i).onSecondary != At(c, ps, i + 1).onSecondary
  }

  /** How long the condition for switching out of a state must have held. */
  function HoldDown(c: Config, onSecondary: bool): real {
    if onSecondary then c.failbackAfter else c.failoverAfter
  }

  /** In standby and cold mode a pass switches if and only if the primary has been unusable (usable,
      while on the secondary) at every pass for the whole hold-down, and the secondary is there to
      fail over to. */
  lemma SwitchExactly(c: Config, ps: seq<Pass>, i: nat) returns (st: nat)
    requires InOrder(ps) && i < |ps| && c.mode != Always
    ensures Stretch(ps, st, i, ps[i].primaryUsable)
    ensures
      var on := At(c, ps, i).onSecondary;
      Switches(c, ps, i) <==>
        && ps[i].primaryUsable == on
        && ps[i].now - ps[st].now >= HoldDown(c, on)
        && (on || ps[i].secondaryUsable)
  {
    st := TimersMarkTheStretch(c, ps, i);
    AtNext(c, ps, i);
  }

  /** Two switches in a row are at least the second one's hold-down apart. */
  lemma HoldDownApart(c: Config, ps: seq<Pass>, i: nat, j: nat)
    requires InOrder(ps) && i < j < |ps| && c.mode != Always
    requires Switches(c, ps, i) && Switches(c, ps, j)
    requires At(c, ps, i + 1).onSecondary == At(c, ps, j).onSecondary
    ensures ps[j].now - ps[i].now >= HoldDown(c, At(c, ps, j).onSecondary)
  {
    var a := SwitchExactly(c, ps, i);
    var b := SwitchExactly(c, ps, j);
    assert ps[i].primaryUsable != ps[j].primaryUsable;
    assert b > i;
  }

  function SwitchCount(c: Config, ps: seq<Pass>, a: nat, b: nat): nat
    requires a <= b <= |ps|
    decreases b - a
  {
    if a == b then 0 else SwitchCount(c, ps, a, b - 1) + if Switches(c, ps, b - 1) then 1 else 0
  }

  /** The time `k` alternate switches take at the least, the last of them leaving the latch `on` the
      secondary or not: each after the first waits out its own hold-down. */
  function LeastTime(c: Config, k: nat, on: bool): real {
    if k <= 1 then 0.0 else LeastTime(c, k - 1, !on) + HoldDown(c, !on)
  }

  function Repeated(n: nat, x: real): real {
    if n == 0 then 0.0 else Repeated(n - 1, x) + x
  }

  lemma {:induction false} RepeatedIsProduct(n: nat, x: real)
    ensures Repeated(n, x) == n as real * x
  {
    if n > 0 {
      RepeatedIsProduct(n - 1, x);
      Distribute(x, (n - 1) as real, 1.0);
    }
  }

  /** So every two of them take both hold-downs. */
  lemma {:induction false} LeastTimeOfPairs(c: Config, k: nat, on: bool)
    requires k > 0
    ensures LeastTime(c, k, on) == Repeated((k - 1) / 2, c.failoverAfter + c.failbackAfter)
              + if k % 2 == 0 then HoldDown(c, !on) else 0.0
  {
    if k > 2 {
      LeastTimeOfPairs(c, k - 2, on);
      assert (k - 1) / 2 == (k - 3) / 2 + 1;
      assert LeastTime(c, k - 1, !on) == LeastTime(c, k - 2, on) + HoldDown(c, on);
    } else if k == 2 {
      assert LeastTime(c, 1, !on) == 0.0;
    }
  }

  /** Where the last switch before `b` is, and how long the switches up to it have taken. */
  lemma {:induction false} SwitchesTakeTime(c: Config, ps: seq<Pass>, a: nat, b: nat) returns (last: nat)
    requires InOrder(ps) && a <= b <= |ps| && c.mode != Always && ValidConfig(c)
    requires SwitchCount(c, ps, a, b) > 0
    ensures a <= last < b && Switches(c, ps, last)
    ensures At(c, ps, last + 1).onSecondary == At(c, ps, b).onSecondary
    ensures ps[last].now - ps[a].now >= LeastTime(c, SwitchCount(c, ps, a, b), At(c, ps, b).onSecondary)
    decreases b - a
  {
    hide Run, Step;
    if !Switches(c, ps, b - 1) {
      last := SwitchesTakeTime(c, ps, a, b - 1);
    } else if SwitchCount(c, ps, a, b - 1) == 0 {
      last := b - 1;
    } else {
      var before := SwitchesTakeTime(c, ps, a, b - 1);
      last := b - 1;
      HoldDownApart(c, ps, before, last);
    }
  }

  lemma WholePairs(pair: real, elapsed: real, n: nat)
    requires pair > 0.0 && Repeated(n, pair) <= elapsed
    ensures n <= (elapsed / pair).Floor
  {
    RepeatedIsProduct(n, pair);
    QuotientAtLeast(elapsed, pair, n as real);
  }

  lemma PairsFit(c: Config, ps: seq<Pass>, a: nat, b: nat)
    requires InOrder(ps) && a < b <= |ps| && c.mode != Always && ValidConfig(c)
    requires SwitchCount(c, ps, a, b) > 0
    ensures Repeated((SwitchCount(c, ps, a, b) - 1) / 2, c.failoverAfter + c.failbackAfter) <= ps[b - 1].now - ps[a].now
  {
    var last := SwitchesTakeTime(c, ps, a, b);
    LeastTimeOfPairs(c, SwitchCount(c, ps, a, b), At(c, ps, b).onSecondary);
  }

  /** However the sources come and go, the passes of any window make at most two switches for each
      whole failover-and-failback hold-down that fits in it, and two more. */
  lemma SwitchesAreBounded(c: Config, ps: seq<Pass>, a: nat, b: nat, window: real)
    requires InOrder(ps) && a < b <= |ps| && c.mode != Always
    requires ValidConfig(c) && c.failoverAfter + c.failbackAfter > 0.0
    requires ps[b - 1].now - ps[a].now <= window
    ensures SwitchCount(c, ps, a, b) <= 2 * (window / (c.failoverAfter + c.failbackAfter)).Floor + 2
  {
    var k := SwitchCount(c, ps, a, b);
    var pairs := if k > 0 then (k - 1) / 2 else 0;
    if k > 0 {
      PairsFit(c, ps, a, b);
    }
    WholePairs(c.failoverAfter + c.failbackAfter, window, pairs);
  }

  // ---- the cold standby --------------------------------------------------------------------------

  /** A standby is never down while it is serving or while the primary has nothing usable. */
  lemma {:induction false} NeverDownWhileNeeded(c: Config, ps: seq<Pass>)
    ensures Run(c, ps).onSecondary ==> Run(c, ps).active
    ensures ps != [] && !ps[|ps| - 1].primaryUsable ==> Run(c, ps).active
  {
  }

  /** A cold standby is not brought up before the primary is first lost. */
  lemma {:induction false} ColdUntilFirstLoss(c: Config, ps: seq<Pass>)
    requires c.mode == Cold
    requires forall i :: 0 <= i < |ps| ==> ps[i].primaryUsable
    ensures !Run(c, ps).active && !Run(c, ps).onSecondary
  {
    if ps != [] {
      ColdUntilFirstLoss(c, ps[..|ps| - 1]);
    }
  }

  /** It stands down exactly when it is up, not serving after the pass, and the primary has been
      healthy at every pass for the whole failback interval. */
  lemma StandsDownExactly(c: Config, ps: seq<Pass>, i: nat) returns (st: nat)
    requires InOrder(ps) && i < |ps| && c.mode == Cold
    ensures Stretch(ps, st, i, ps[i].primaryUsable)
    ensures At(c, ps, i).active && !At(c, ps, i + 1).active <==>
              && At(c, ps, i).active && ps[i].primaryUsable
              && ps[i].now - ps[st].now >= c.failbackAfter
  {
    st := TimersMarkTheStretch(c, ps, i);
    AtNext(c, ps, i);
  }

  /** It comes up exactly at the first pass without a usable primary. */
  lemma ComesUpExactly(c: Config, ps: seq<Pass>, i: nat)
    requires InOrder(ps) && i < |ps| && c.mode == Cold
    ensures !At(c, ps, i).active && At(c, ps, i + 1).active <==> !At(c, ps, i).active && !ps[i].primaryUsable
  {
    AtNext(c, ps, i);
    NeverDownWhileNeeded(c, ps[..i]);
  }

  // ---- when a usable class is left unserved --------------------------------------------------------

  /** Whether the class the latch has chosen has anything usable. */
  predicate ChosenUsable(s: State, p: Pass) {
    if s.onSecondary then p.secondaryUsable else p.primaryUsable
  }

  /** A usable class is left out for exactly two reasons, both to be read off before the pass: still
      on the primary, it is lost but not yet for the failover hold-down; or on the secondary, which
      has died, the primary is back but not yet for the failback hold-down. */
  lemma LeftUnservedExactly(c: Config, s: State, p: Pass)
    requires c.mode != Always
    ensures (p.primaryUsable || p.secondaryUsable) && !ChosenUsable(Step(c, s, p), p) <==>
              if s.onSecondary
              then p.primaryUsable && !p.secondaryUsable && Elapsed(HealthySince(s, p), p.now) < c.failbackAfter
              else !p.primaryUsable && p.secondaryUsable && Elapsed(LostSince(s, p), p.now) < c.failoverAfter
  {
  }

  /** So "serves whenever either class is usable" does not hold: with the default hold-downs, a
      primary that returns as the secondary dies is kept out for five minutes. */
  lemma HealthyPrimaryHeldOut()
    ensures
      var c := Config(Standby, 60.0, 300.0);
      var ps := [Pass(1.0, false, true), Pass(61.0, false, true), Pass(62.0, true, false)];
      && Run(c, ps).onSecondary && !ChosenUsable(Run(c, ps), ps[2]) && ps[2].primaryUsable
  {
    var c := Config(Standby, 60.0, 300.0);
    var ps := [Pass(1.0, false, true), Pass(61.0, false, true), Pass(62.0, true, false)];
    assert ps[..2] == [Pass(1.0, false, true), Pass(61.0, false, true)];
    assert ps[..2][..1] == [Pass(1.0, false, true)];
    assert ps[..2][..1][..0] == [];
    assert Run(c, ps[..2][..1]) == State(false, 1.0, 0.0, true);
    assert Run(c, ps[..2]) == State(true, 1.0, 0.0, true);
  }
}
