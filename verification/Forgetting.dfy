/** The limiter against one that never forgets a client: whether forgetting shows in any verdict. */
module Forgetting {
  import opened Folds
  import opened Arithmetic
  import opened IpPrefix
  import opened RateLimiter

  // ---- a limiter that never forgets ------------------------------------------------------------------

  function CheckForever(cfg: Config, buckets: map<Address, Bucket>, r: Request): (map<Address, Bucket>, Verdict) {
    var client := ClientOf(cfg, r.a);
    if !Limited(cfg, r.a) then (buckets, Answer)
    else if client in buckets then
      var (b, v) := Serve(cfg, buckets[client], r.now, r.draw);
      (buckets[client := b], v)
    else (buckets[client := Fresh(cfg, r.now)], Answer)
  }

  function RunForever(cfg: Config, rs: seq<Request>): map<Address, Bucket> {
    if rs == [] then map[] else CheckForever(cfg, RunForever(cfg, rs[..|rs| - 1]), rs[|rs| - 1]).0
  }

  function AtForever(cfg: Config, rs: seq<Request>, i: nat): map<Address, Bucket>
    requires i <= |rs|
  {
    RunForever(cfg, rs[..i])
  }

  lemma AtForeverNext(cfg: Config, rs: seq<Request>, i: nat)
    requires i < |rs|
    ensures AtForever(cfg, rs, i + 1) == CheckForever(cfg, AtForever(cfg, rs, i), rs[i]).0
  {
    assert rs[..i + 1][..i] == rs[..i];
  }

  function VerdictForever(cfg: Config, rs: seq<Request>, i: nat): Verdict
    requires i < |rs|
  {
    CheckForever(cfg, AtForever(cfg, rs, i), rs[i]).1
  }

  predicate KodSent(cfg: Config, rs: seq<Request>, client: Address, i: nat)
    requires i < |rs|
  {
    Limited(cfg, rs[i].a) && ClientOf(cfg, rs[i].a) == client && VerdictForever(cfg, rs, i) == Kod
  }

  /** When a client was last sent a kiss-o'-death before request `i`. */
  function LatestKod(cfg: Config, rs: seq<Request>, client: Address, i: nat): Option<real>
    requires i <= |rs|
  {
    if i == 0 then None
    else if KodSent(cfg, rs, client, i - 1) then Some(rs[i - 1].now)
    else LatestKod(cfg, rs, client, i - 1)
  }

  lemma ServeKods(cfg: Config, b: Bucket, now: real, draw: real)
    requires cfg.interval > 0.0
    ensures Serve(cfg, b, now, draw).0.kodAt == if Serve(cfg, b, now, draw).1 == Kod then Some(now) else b.kodAt
    ensures Serve(cfg, b, now, draw).1 != Answer ==>
              Serve(cfg, b, now, draw).1 == if cfg.leak > 0.0 && draw < cfg.leak then Leak
                                            else if cfg.kod && (b.kodAt.None? || now - b.kodAt.value >= Max(1.0, cfg.interval)) then Kod
                                            else Drop
  {
    hide Refill;
  }

  lemma {:induction false} LatestKodIs(cfg: Config, rs: seq<Request>, client: Address, i: nat)
    requires cfg.interval > 0.0 && i <= |rs|
    ensures
      var all := AtForever(cfg, rs, i);
      LatestKod(cfg, rs, client, i) == if client in all then all[client].kodAt else None
  {
    hide ClientOf, Limited, RunForever, Serve;
    if i == 0 {
      NoneForever(cfg, rs);
    } else {
      LatestKodIs(cfg, rs, client, i - 1);
      AtForeverNext(cfg, rs, i - 1);
      var all, r := AtForever(cfg, rs, i - 1), rs[i - 1];
      if ClientOf(cfg, r.a) in all {
        ServeKods(cfg, all[ClientOf(cfg, r.a)], r.now, r.draw);
      }
    }
  }

  lemma NoneForever(cfg: Config, rs: seq<Request>)
    ensures AtForever(cfg, rs, 0) == map[]
  {
  }

  /** What comes of a request over the limit: the chosen share leak through; of the rest, a kiss-o'-death where
      one may be sent and the client has had none for a second, nor for an interval; and nothing for the others. */
  lemma RefusedExactly(cfg: Config, rs: seq<Request>, i: nat)
    requires cfg.interval > 0.0 && i < |rs| && VerdictForever(cfg, rs, i) != Answer
    ensures
      var k := LatestKod(cfg, rs, ClientOf(cfg, rs[i].a), i);
      VerdictForever(cfg, rs, i)
      == if cfg.leak > 0.0 && rs[i].draw < cfg.leak then Leak
         else if cfg.kod && (k.None? || rs[i].now - k.value >= Max(1.0, cfg.interval)) then Kod
         else Drop
  {
    hide ClientOf, Limited, RunForever, Serve, LatestKod;
    var client, all := ClientOf(cfg, rs[i].a), AtForever(cfg, rs, i);
    LatestKodIs(cfg, rs, client, i);
    if client in all {
      ServeKods(cfg, all[client], rs[i].now, rs[i].draw);
    }
  }

  /** No client is sent two within a second, or within an interval. */
  lemma KodsAreApart(cfg: Config, rs: seq<Request>, i: nat, j: nat)
    requires cfg.interval > 0.0 && InOrder(rs) && i < j < |rs|
    requires KodSent(cfg, rs, ClientOf(cfg, rs[j].a), i) && KodSent(cfg, rs, ClientOf(cfg, rs[j].a), j)
    ensures rs[j].now - rs[i].now >= Max(1.0, cfg.interval)
  {
    hide ClientOf, VerdictForever;
    RefusedExactly(cfg, rs, j);
    SinceKod(cfg, rs, ClientOf(cfg, rs[j].a), i, j);
  }

  lemma {:induction false} SinceKod(cfg: Config, rs: seq<Request>, client: Address, i: nat, j: nat)
    requires InOrder(rs) && i < j <= |rs| && KodSent(cfg, rs, client, i)
    ensures LatestKod(cfg, rs, client, j).Some? && LatestKod(cfg, rs, client, j).value >= rs[i].now
  {
    hide KodSent;
    if j > i + 1 {
      SinceKod(cfg, rs, client, i, j - 1);
    }
  }

  /** No kiss-o'-death is ever sent: there is none, or every request over the limit leaks through. */
  predicate KodMoot(cfg: Config) {
    !cfg.kod || cfg.leak >= 1.0
  }

  /** What the sweep at the cap forgets makes no difference. */
  predicate CapSweepHarmless(cfg: Config) {
    KodMoot(cfg) || cfg.Full() >= 1.0
  }

  predicate FairDraw(r: Request) {
    0.0 <= r.draw < 1.0 && IsAddress(r.a)
  }

  ghost predicate FairDraws(rs: seq<Request>) {
    forall i :: 0 <= i < |rs| ==> FairDraw(rs[i])
  }

  /** As good as the same: only an old kiss-o'-death, no longer in the way of another, may be forgotten. */
  predicate SameBucket(cfg: Config, b: Bucket, c: Bucket) {
    && b.tokens == c.tokens && b.at == c.at
    && (KodMoot(cfg) || b.kodAt == c.kodAt || (b.kodAt.None? && KodDue(cfg, c.kodAt, c.at)))
  }

  /** Nothing is lost by forgetting it. */
  predicate Spare(cfg: Config, c: Bucket, now: real)
    requires cfg.interval > 0.0
  {
    Refill(cfg, c.tokens, now - c.at) == cfg.burst as real && (KodMoot(cfg) || KodDue(cfg, c.kodAt, now))
  }

  predicate AlikeFor(cfg: Config, kept: map<Address, Bucket>, all: map<Address, Bucket>, now: real, k: Address)
    requires cfg.interval > 0.0
  {
    && (k in kept ==> k in all && SameBucket(cfg, kept[k], all[k]))
    && (k in all && k !in kept ==> Spare(cfg, all[k], now))
    && (k in all ==> SoundBucket(cfg, all[k], now))
  }

  ghost predicate Alike(cfg: Config, kept: map<Address, Bucket>, all: map<Address, Bucket>, now: real)
    requires cfg.interval > 0.0
  {
    forall k :: AlikeFor(cfg, kept, all, now, k)
  }

  lemma ServedAlike(cfg: Config, b: Bucket, c: Bucket, now: real, draw: real)
    requires cfg.interval > 0.0 && SameBucket(cfg, b, c) && c.at <= now && draw < 1.0
    ensures Serve(cfg, b, now, draw).1 == Serve(cfg, c, now, draw).1
    ensures SameBucket(cfg, Serve(cfg, b, now, draw).0, Serve(cfg, c, now, draw).0)
  {
    hide Refill;
  }

  lemma ServedFresh(cfg: Config, c: Bucket, now: real, draw: real)
    requires cfg.interval > 0.0 && ValidConfig(cfg) && Spare(cfg, c, now)
    ensures Serve(cfg, c, now, draw).1 == Answer && SameBucket(cfg, Fresh(cfg, now), Serve(cfg, c, now, draw).0)
  {
    hide Refill;
  }

  /** A sweep of buckets idle for long enough to be full and for the next kiss-o'-death to be due. */
  lemma ForgottenAlike(cfg: Config, kept: map<Address, Bucket>, all: map<Address, Bucket>, now: real, idle: real)
    requires cfg.interval > 0.0 && ValidConfig(cfg) && Alike(cfg, kept, all, now)
    requires idle >= cfg.Full() && (KodMoot(cfg) || idle >= cfg.KodEvery())
    ensures Alike(cfg, Forget(kept, now, idle), all, now)
  {
    hide Refill, Config.Full;
    forall k
      ensures AlikeFor(cfg, Forget(kept, now, idle), all, now, k)
    {
      assert AlikeFor(cfg, kept, all, now, k);
      if k in kept && k !in Forget(kept, now, idle) {
        RefillFacts(cfg, all[k].tokens, now - all[k].at, 0.0);
      }
    }
  }

  lemma SpareLater(cfg: Config, c: Bucket, now: real, later: real)
    requires cfg.interval > 0.0 && ValidConfig(cfg) && SoundBucket(cfg, c, now) && now <= later && Spare(cfg, c, now)
    ensures Spare(cfg, c, later)
  {
    QuotientOrdered(now - c.at, later - c.at, cfg.interval);
  }

  lemma AlikeLater(cfg: Config, kept: map<Address, Bucket>, all: map<Address, Bucket>, now: real, later: real)
    requires cfg.interval > 0.0 && ValidConfig(cfg) && Alike(cfg, kept, all, now) && now <= later
    ensures Alike(cfg, kept, all, later)
  {
    hide Spare, SameBucket;
    forall k
      ensures AlikeFor(cfg, kept, all, later, k)
    {
      assert AlikeFor(cfg, kept, all, now, k);
      if k in all && k !in kept {
        SpareLater(cfg, all[k], now, later);
      }
    }
  }

  /** The map is full when this request comes from a new client, and a sweep is made for it. */
  predicate SweepsAtCap(cfg: Config, s: State, r: Request) {
    Limited(cfg, r.a)
    && var s1 := MinuteSwept(cfg, s, r.now);
       ClientOf(cfg, r.a) !in s1.buckets && |s1.buckets| >= MAX_BUCKETS && r.now - s1.lastSweep >= 1.0
  }

  lemma SweptAlike(cfg: Config, s: State, all: map<Address, Bucket>, r: Request)
    requires cfg.interval > 0.0 && ValidConfig(cfg) && Alike(cfg, s.buckets, all, r.now) && Limited(cfg, r.a)
    requires SweepsAtCap(cfg, s, r) ==> CapSweepHarmless(cfg)
    ensures Alike(cfg, Swept(cfg, s, r).buckets, all, r.now)
  {
    hide Alike, Limited, ClientOf, Config.Full, Forget;
    FullIsPositive(cfg);
    var s1 := MinuteSwept(cfg, s, r.now);
    ForgottenAlike(cfg, s.buckets, all, r.now, Max(SWEEP_EVERY_SEC, cfg.Full()));
    if SweepsAtCap(cfg, s, r) {
      ForgottenAlike(cfg, s1.buckets, all, r.now, cfg.Full());
    }
  }

  lemma CheckedAlike(cfg: Config, s: State, all: map<Address, Bucket>, r: Request)
    requires cfg.interval > 0.0 && ValidConfig(cfg) && Alike(cfg, s.buckets, all, r.now) && !Untracked(cfg, s, r) && FairDraw(r)
    requires SweepsAtCap(cfg, s, r) ==> CapSweepHarmless(cfg)
    ensures Check(cfg, s, r).1 == CheckForever(cfg, all, r).1
    ensures Alike(cfg, Check(cfg, s, r).0.buckets, CheckForever(cfg, all, r).0, r.now)
  {
    if Limited(cfg, r.a) {
      SweptAlike(cfg, s, all, r);
      var s1, client := Swept(cfg, s, r), ClientOf(cfg, r.a);
      hide Swept, ClientOf, Limited, Serve, Spare, SameBucket, SoundBucket;
      assert AlikeFor(cfg, s1.buckets, all, r.now, client);
      var after, after' := Check(cfg, s, r).0.buckets, CheckForever(cfg, all, r).0;
      if client in all {
        ServeSound(cfg, all[client], r.now, r.draw);
        if client in s1.buckets {
          SoundInTime(cfg, all[client], r.now);
          ServedAlike(cfg, s1.buckets[client], all[client], r.now, r.draw);
        } else {
          ServedFresh(cfg, all[client], r.now, r.draw);
        }
      } else {
        FreshIsSound(cfg, r.now);
      }
      forall k
        ensures AlikeFor(cfg, after, after', r.now, k)
      {
        assert AlikeFor(cfg, s1.buckets, all, r.now, k);
      }
    }
  }

  lemma SoundInTime(cfg: Config, c: Bucket, now: real)
    requires SoundBucket(cfg, c, now)
    ensures c.at <= now
  {
  }

  lemma FreshIsSound(cfg: Config, now: real)
    requires ValidConfig(cfg)
    ensures SoundBucket(cfg, Fresh(cfg, now), now) && SameBucket(cfg, Fresh(cfg, now), Fresh(cfg, now))
  {
  }

  lemma {:induction false} StaysAlike(cfg: Config, rs: seq<Request>, i: nat)
    requires cfg.interval > 0.0 && ValidConfig(cfg) && InOrder(rs) && AlwaysTracked(cfg, rs) && FairDraws(rs) && i < |rs|
    requires forall j :: 0 <= j < i && SweepsAtCap(cfg, At(cfg, rs, j), rs[j]) ==> CapSweepHarmless(cfg)
    ensures Alike(cfg, At(cfg, rs, i).buckets, AtForever(cfg, rs, i), rs[i].now)
  {
    hide Check, CheckForever, Alike, Untracked, SweepsAtCap;
    if i == 0 {
      NoneAlike(cfg, rs);
    } else {
      StaysAlike(cfg, rs, i - 1);
      AtNext(cfg, rs, i - 1);
      AtForeverNext(cfg, rs, i - 1);
      CheckedAlike(cfg, At(cfg, rs, i - 1), AtForever(cfg, rs, i - 1), rs[i - 1]);
      AlikeLater(cfg, At(cfg, rs, i).buckets, AtForever(cfg, rs, i), rs[i - 1].now, rs[i].now);
    }
  }

  lemma NoneAlike(cfg: Config, rs: seq<Request>)
    requires cfg.interval > 0.0 && rs != []
    ensures Alike(cfg, At(cfg, rs, 0).buckets, map[], rs[0].now)
  {
  }

  /** As long as every client finds room, forgetting shows in no verdict: not the sweep each minute, and
      not the one at the cap unless a kiss-o'-death can be sent and a bucket fills in under a second. */
  lemma ForgettingIsUnobservable(cfg: Config, rs: seq<Request>, i: nat)
    requires cfg.interval > 0.0 && ValidConfig(cfg) && InOrder(rs) && AlwaysTracked(cfg, rs) && FairDraws(rs) && i < |rs|
    requires forall j :: 0 <= j <= i && SweepsAtCap(cfg, At(cfg, rs, j), rs[j]) ==> CapSweepHarmless(cfg)
    ensures VerdictOn(cfg, rs, i) == VerdictForever(cfg, rs, i)
  {
    hide Check, CheckForever, Alike, Untracked, SweepsAtCap;
    StaysAlike(cfg, rs, i);
    CheckedAlike(cfg, At(cfg, rs, i), AtForever(cfg, rs, i), rs[i]);
  }

  // ---- the sweep at the cap --------------------------------------------------------------------------

  /** A client's bucket after `n` requests at one instant, from what is kept of it. */
  function Burst(cfg: Config, b: Option<Bucket>, now: real, draw: real, n: nat): (Option<Bucket>, Verdict)
    requires cfg.interval > 0.0
  {
    if n == 0 then (b, Answer)
    else
      match Burst(cfg, b, now, draw, n - 1).0
      case None => (Some(Fresh(cfg, now)), Answer)
      case Some(c) => var (d, v) := Serve(cfg, c, now, draw); (Some(d), v)
  }

  lemma {:induction false} BurstSpends(cfg: Config, b: Option<Bucket>, now: real, draw: real, n: nat)
    requires cfg.interval > 0.0 && ValidConfig(cfg) && 1 <= n <= cfg.burst
    requires b.Some? ==> Refill(cfg, b.value.tokens, now - b.value.at) == cfg.burst as real
    ensures Burst(cfg, b, now, draw, n)
            == (Some(Bucket((cfg.burst - n) as real, now, if b.Some? then b.value.kodAt else None)), Answer)
  {
    if n > 1 {
      BurstSpends(cfg, b, now, draw, n - 1);
      NoTime(cfg, (cfg.burst - n + 1) as real);
    }
    hide Refill;
  }

  /** One more than the burst is over the limit, and draws a kiss-o'-death if one is due. */
  lemma PastTheBurst(cfg: Config, b: Option<Bucket>, now: real, draw: real)
    requires cfg.interval > 0.0 && ValidConfig(cfg) && cfg.kod && !(cfg.leak > 0.0 && draw < cfg.leak)
    requires b.Some? ==> Refill(cfg, b.value.tokens, now - b.value.at) == cfg.burst as real
    ensures
      var (c, v) := Burst(cfg, b, now, draw, cfg.burst + 1);
      var due := b.None? || KodDue(cfg, b.value.kodAt, now);
      v == (if due then Kod else Drop)
      && c == Some(Bucket(0.0, now, if due then Some(now) else b.value.kodAt))
  {
    BurstSpends(cfg, b, now, draw, cfg.burst);
    NoTime(cfg, 0.0);
  }

  // ---- as the limiter makes it -------------------------------------------------------------------------

  function Of(buckets: map<Address, Bucket>, k: Address): Option<Bucket> {
    if k in buckets then Some(buckets[k]) else None
  }

  function Put(buckets: map<Address, Bucket>, k: Address, b: Option<Bucket>): map<Address, Bucket> {
    if b.Some? then buckets[k := b.value] else buckets
  }

  /** A run that forgets nothing it should not: in order, every client with room, draws as the generator
      gives them. */
  ghost predicate Orderly(cfg: Config, rs: seq<Request>) {
    InOrder(rs) && AlwaysTracked(cfg, rs) && FairDraws(rs)
  }

  /** Some verdict of a run is not that of a limiter that never forgets. */
  ghost predicate Shows(cfg: Config, rs: seq<Request>) {
    exists i :: 0 <= i < |rs| && VerdictOn(cfg, rs, i) != VerdictForever(cfg, rs, i)
  }

  predicate Latest(rs: seq<Request>, now: real) {
    rs != [] ==> rs[|rs| - 1].now <= now
  }

  ghost predicate Built(cfg: Config, rs: seq<Request>, s: State, all: map<Address, Bucket>, now: real) {
    Orderly(cfg, rs) && Latest(rs, now) && Run(cfg, rs) == s && RunForever(cfg, rs) == all
  }

  lemma NothingBuilt(cfg: Config, now: real)
    ensures Built(cfg, [], Initial, map[], now)
  {
  }

  lemma InOrderMore(rs: seq<Request>, r: Request)
    requires InOrder(rs) && Latest(rs, r.now)
    ensures InOrder(rs + [r])
  {
    var more := rs + [r];
    forall i, j | 0 <= i <= j < |more|
      ensures more[i].now <= more[j].now
    {
      if j == |rs| && i < |rs| {
        assert more[i] == rs[i] && rs[i].now <= rs[|rs| - 1].now;
      }
    }
  }

  lemma TrackedMore(cfg: Config, rs: seq<Request>, r: Request)
    requires AlwaysTracked(cfg, rs) && !Untracked(cfg, Run(cfg, rs), r)
    ensures AlwaysTracked(cfg, rs + [r])
  {
    hide Run, Untracked;
    var more := rs + [r];
    forall i | 0 <= i < |more|
      ensures !Untracked(cfg, At(cfg, more, i), more[i])
    {
      assert more[..i] == rs[..i];
      if i < |rs| {
        assert !Untracked(cfg, At(cfg, rs, i), rs[i]);
      } else {
        assert rs[..i] == rs;
      }
    }
  }

  lemma OneMore(cfg: Config, rs: seq<Request>, s: State, all: map<Address, Bucket>, now: real, r: Request)
    requires Built(cfg, rs, s, all, now) && now <= r.now && FairDraw(r) && !Untracked(cfg, s, r)
    ensures Built(cfg, rs + [r], Check(cfg, s, r).0, CheckForever(cfg, all, r).0, r.now)
    ensures VerdictOn(cfg, rs + [r], |rs|) == Check(cfg, s, r).1
    ensures VerdictForever(cfg, rs + [r], |rs|) == CheckForever(cfg, all, r).1
  {
    InOrderMore(rs, r);
    TrackedMore(cfg, rs, r);
    RunMore(cfg, rs, r);
    hide Check, CheckForever, Untracked, InOrder, AlwaysTracked, Run, RunForever, VerdictOn, VerdictForever;
  }

  lemma RunMore(cfg: Config, rs: seq<Request>, r: Request)
    ensures Run(cfg, rs + [r]) == Check(cfg, Run(cfg, rs), r).0
    ensures RunForever(cfg, rs + [r]) == CheckForever(cfg, RunForever(cfg, rs), r).0
    ensures VerdictOn(cfg, rs + [r], |rs|) == Check(cfg, Run(cfg, rs), r).1
    ensures VerdictForever(cfg, rs + [r], |rs|) == CheckForever(cfg, RunForever(cfg, rs), r).1
  {
    hide Check, CheckForever;
    assert (rs + [r])[..|rs|] == rs;
  }

  /** A request that finds no sweep due. */
  lemma QuietCheck(cfg: Config, s: State, all: map<Address, Bucket>, r: Request)
    requires cfg.interval > 0.0 && Limited(cfg, r.a) && r.now - s.lastSweep <= SWEEP_EVERY_SEC
    requires ClientOf(cfg, r.a) in s.buckets || |s.buckets| < MAX_BUCKETS
    ensures
      var c := ClientOf(cfg, r.a);
      var (b, v) := Burst(cfg, Of(s.buckets, c), r.now, r.draw, 1);
      var (b', v') := Burst(cfg, Of(all, c), r.now, r.draw, 1);
      && Check(cfg, s, r) == (s.(buckets := Put(s.buckets, c, b)), v) && !Untracked(cfg, s, r)
      && CheckForever(cfg, all, r) == (Put(all, c, b'), v')
  {
    hide ClientOf, Limited, Serve, Forget;
    assert Burst(cfg, Of(s.buckets, ClientOf(cfg, r.a)), r.now, r.draw, 0).0 == Of(s.buckets, ClientOf(cfg, r.a));
    assert Burst(cfg, Of(all, ClientOf(cfg, r.a)), r.now, r.draw, 0).0 == Of(all, ClientOf(cfg, r.a));
  }

  /** A burst of one client's requests at one instant, with no sweep due. */
  lemma {:induction false} BurstOf(cfg: Config, rs: seq<Request>, s: State, all: map<Address, Bucket>, r: Request, n: nat)
      returns (more: seq<Request>)
    requires cfg.interval > 0.0 && Limited(cfg, r.a) && FairDraw(r) && Built(cfg, rs, s, all, r.now)
    requires r.now - s.lastSweep <= SWEEP_EVERY_SEC && |s.buckets| < MAX_BUCKETS
    ensures
      var c := ClientOf(cfg, r.a);
      var (b, v) := Burst(cfg, Of(s.buckets, c), r.now, r.draw, n);
      var (b', v') := Burst(cfg, Of(all, c), r.now, r.draw, n);
      && Built(cfg, more, s.(buckets := Put(s.buckets, c, b)), Put(all, c, b'), r.now)
      && (n > 0 ==> more != [] && VerdictOn(cfg, more, |more| - 1) == v && VerdictForever(cfg, more, |more| - 1) == v')
  {
    hide Built, Check, CheckForever, ClientOf, Limited, Serve, Untracked, VerdictOn, VerdictForever;
    var c := ClientOf(cfg, r.a);
    if n == 0 {
      more := rs;
      assert Put(s.buckets, c, Of(s.buckets, c)) == s.buckets && Put(all, c, Of(all, c)) == all;
    } else {
      var before := BurstOf(cfg, rs, s, all, r, n - 1);
      var b, b' := Burst(cfg, Of(s.buckets, c), r.now, r.draw, n - 1).0, Burst(cfg, Of(all, c), r.now, r.draw, n - 1).0;
      var t, every := s.(buckets := Put(s.buckets, c, b)), Put(all, c, b');
      BurstTracks(cfg, Of(s.buckets, c), r.now, r.draw, n - 1);
      BurstTracks(cfg, Of(all, c), r.now, r.draw, n - 1);
      QuietCheck(cfg, t, every, r);
      OneMore(cfg, before, t, every, r.now, r);
      more := before + [r];
      OneFurther(cfg, Of(s.buckets, c), r.now, r.draw, n - 1);
      OneFurther(cfg, Of(all, c), r.now, r.draw, n - 1);
      PutTwice(s.buckets, c, b, Burst(cfg, b, r.now, r.draw, 1).0);
      PutTwice(all, c, b', Burst(cfg, b', r.now, r.draw, 1).0);
      hide Burst, Put, Of;
    }
  }

  lemma PutTwice(buckets: map<Address, Bucket>, c: Address, b: Option<Bucket>, d: Option<Bucket>)
    requires d.Some? && (Of(buckets, c).Some? ==> b.Some?) && (b.None? ==> Of(buckets, c) == None)
    ensures Of(Put(buckets, c, b), c) == b && Put(Put(buckets, c, b), c, d) == Put(buckets, c, d)
  {
  }

  lemma BurstTracks(cfg: Config, b: Option<Bucket>, now: real, draw: real, n: nat)
    requires cfg.interval > 0.0
    ensures b.Some? || n > 0 ==> Burst(cfg, b, now, draw, n).0.Some?
    ensures n == 0 ==> Burst(cfg, b, now, draw, n).0 == b
    ensures Burst(cfg, b, now, draw, n + 1).0.Some?
  {
  }

  lemma OneFurther(cfg: Config, b: Option<Bucket>, now: real, draw: real, n: nat)
    requires cfg.interval > 0.0
    ensures Burst(cfg, b, now, draw, n + 1) == Burst(cfg, Burst(cfg, b, now, draw, n).0, now, draw, 1)
  {
    assert Burst(cfg, Burst(cfg, b, now, draw, n).0, now, draw, 0).0 == Burst(cfg, b, now, draw, n).0;
  }

  // ---- a full map ------------------------------------------------------------------------------------

  /** The client of some address that the limit applies to. */
  ghost predicate IsClient(cfg: Config, c: Address) {
    exists a :: IsAddress(a) && Limited(cfg, a) && ClientOf(cfg, a) == c
  }

  ghost predicate AllClients(cfg: Config, cs: set<Address>) {
    forall c :: c in cs ==> IsClient(cfg, c)
  }

  /** The configured prefixes and exemptions leave more clients than there is room for. */
  ghost predicate Crowded(cfg: Config) {
    exists cs :: AllClients(cfg, cs) && |cs| > MAX_BUCKETS
  }

  lemma OneLarger<T>(s: set<T>, x: T)
    requires x !in s
    ensures |s + {x}| == |s| + 1
  {
  }

  lemma OneMoreClient(cfg: Config, cs: set<Address>, a: Address)
    requires AllClients(cfg, cs) && IsAddress(a) && Limited(cfg, a)
    ensures AllClients(cfg, cs + {ClientOf(cfg, a)})
  {
    hide Limited, ClientOf;
    assert IsClient(cfg, ClientOf(cfg, a));
  }

  lemma AnotherClient(cs: set<Address>, held: set<Address>) returns (c: Address)
    requires |held| < |cs|
    ensures c in cs && c !in held
  {
    if cs <= held {
      SubsetIsSmaller(cs, held);
    }
    c :| c in cs && c !in held;
  }

  lemma SubsetIsSmaller(a: set<Address>, b: set<Address>)
    requires a <= b
    ensures |a| <= |b|
  {
    assert b == a + (b - a);
  }

  ghost predicate AllAt(buckets: map<Address, Bucket>, t: real) {
    forall k :: k in buckets ==> buckets[k].at == t
  }

  /** New clients one after another at one instant, until the map is full. */
  lemma {:induction false} FillUp(cfg: Config, rs: seq<Request>, m: map<Address, Bucket>, cs: set<Address>, t: real, draw: real)
      returns (more: seq<Request>, full: map<Address, Bucket>)
    requires cfg.interval > 0.0 && 0.0 <= draw < 1.0 && t <= SWEEP_EVERY_SEC
    requires Built(cfg, rs, State(m, 0.0), m, t) && AllAt(m, t) && |m| <= MAX_BUCKETS
    requires AllClients(cfg, cs) && |cs| > MAX_BUCKETS
    ensures Built(cfg, more, State(full, 0.0), full, t) && AllAt(full, t) && |full| == MAX_BUCKETS
    ensures forall k :: k in m ==> k in full && full[k] == m[k]
    decreases MAX_BUCKETS - |m|
  {
    hide Built, AllAt, AllClients, Fresh;
    if |m| == MAX_BUCKETS {
      more, full := rs, m;
    } else {
      var c, r := NextToFill(cfg, rs, m, cs, t, draw);
      more, full := FillUp(cfg, rs + [r], m[c := Fresh(cfg, t)], cs, t, draw);
    }
  }

  lemma NextToFill(cfg: Config, rs: seq<Request>, m: map<Address, Bucket>, cs: set<Address>, t: real, draw: real)
      returns (c: Address, r: Request)
    requires cfg.interval > 0.0 && 0.0 <= draw < 1.0 && t <= SWEEP_EVERY_SEC
    requires Built(cfg, rs, State(m, 0.0), m, t) && AllAt(m, t) && |m| < MAX_BUCKETS
    requires AllClients(cfg, cs) && |cs| > MAX_BUCKETS
    ensures
      var next := m[c := Fresh(cfg, t)];
      c !in m && |next| == |m| + 1 && AllAt(next, t) && Built(cfg, rs + [r], State(next, 0.0), next, t)
  {
    hide Built, Limited, ClientOf, Check, CheckForever, Untracked;
    assert |m.Keys| == |m|;
    c := AnotherClient(cs, m.Keys);
    var a :| IsAddress(a) && Limited(cfg, a) && ClientOf(cfg, a) == c;
    r := Request(a, t, draw);
    QuietCheck(cfg, State(m, 0.0), m, r);
    OneMore(cfg, rs, State(m, 0.0), m, t, r);
    var next := m[c := Fresh(cfg, t)];
    assert Put(m, c, Burst(cfg, None, t, draw, 1).0) == next by {
      assert Burst(cfg, None, t, draw, 0).0 == None;
    }
    OneLarger(m.Keys, c);
    assert next.Keys == m.Keys + {c};
    assert |next| == |next.Keys| == |m| + 1;
  }

  /** A newcomer to a map full of clients idle for long enough: the sweep at the cap leaves it alone there. */
  lemma Newcomer(cfg: Config, rs: seq<Request>, m: map<Address, Bucket>, a: Address, t: real, later: real, draw: real)
    requires cfg.interval > 0.0 && 0.0 <= draw < 1.0 && Limited(cfg, a) && IsAddress(a)
    requires Built(cfg, rs, State(m, 0.0), m, t) && AllAt(m, t) && |m| == MAX_BUCKETS && ClientOf(cfg, a) !in m
    requires 1.0 <= t <= later <= SWEEP_EVERY_SEC && later - t > cfg.Full()
    ensures
      var c := ClientOf(cfg, a);
      && SweepsAtCap(cfg, State(m, 0.0), Request(a, later, draw))
      && Built(cfg, rs + [Request(a, later, draw)], State(map[c := Fresh(cfg, later)], later), m[c := Fresh(cfg, later)], later)
  {
    hide Limited, ClientOf, Config.Full, Fresh;
    var r, s := Request(a, later, draw), State(m, 0.0);
    assert Forget(m, later, cfg.Full()) == map[];
    assert Check(cfg, s, r).0 == State(map[ClientOf(cfg, a) := Fresh(cfg, later)], later);
    OneMore(cfg, rs, s, m, t, r);
    hide Built, Check, CheckForever;
  }

  /** A client has its burst, and a kiss-o'-death; then others fill the map. */
  lemma KissedAndCrowded(cfg: Config, cs: set<Address>, a: Address, t: real, draw: real)
      returns (rs: seq<Request>, full: map<Address, Bucket>)
    requires cfg.interval > 0.0 && ValidConfig(cfg) && cfg.kod && 0.0 <= draw < 1.0 && !(cfg.leak > 0.0 && draw < cfg.leak)
    requires AllClients(cfg, cs) && |cs| > MAX_BUCKETS && IsAddress(a) && Limited(cfg, a) && 0.0 <= t <= SWEEP_EVERY_SEC
    ensures Built(cfg, rs, State(full, 0.0), full, t) && AllAt(full, t) && |full| == MAX_BUCKETS
    ensures ClientOf(cfg, a) in full && full[ClientOf(cfg, a)] == Bucket(0.0, t, Some(t))
  {
    hide Built, Limited, ClientOf, Burst;
    var c, was := ClientOf(cfg, a), Bucket(0.0, t, Some(t));
    NothingBuilt(cfg, t);
    rs := BurstOf(cfg, [], Initial, map[], Request(a, t, draw), cfg.burst + 1);
    PastTheBurst(cfg, None, t, draw);
    var m := map[c := was];
    assert Put(map[], c, Some(was)) == m;
    rs, full := FillUp(cfg, rs, m, cs, t, draw);
  }

  /** The client comes back, forgotten by the one and remembered by the other. */
  lemma KissedAgain(cfg: Config, rs: seq<Request>, s: State, all: map<Address, Bucket>, a: Address, t: real, later: real, draw: real)
      returns (more: seq<Request>)
    requires cfg.interval > 0.0 && ValidConfig(cfg) && cfg.kod && 0.0 <= draw < 1.0 && !(cfg.leak > 0.0 && draw < cfg.leak)
    requires IsAddress(a) && Limited(cfg, a) && Built(cfg, rs, s, all, later) && s.lastSweep == later
    requires ClientOf(cfg, a) !in s.buckets && |s.buckets| < MAX_BUCKETS
    requires ClientOf(cfg, a) in all && all[ClientOf(cfg, a)] == Bucket(0.0, t, Some(t))
    requires cfg.Full() <= later - t < 1.0
    ensures Orderly(cfg, more) && more != []
    ensures VerdictOn(cfg, more, |more| - 1) == Kod && VerdictForever(cfg, more, |more| - 1) == Drop
  {
    hide Limited, ClientOf, Burst, Config.Full, Orderly, VerdictOn, VerdictForever;
    more := BurstOf(cfg, rs, s, all, Request(a, later, draw), cfg.burst + 1);
    PastTheBurst(cfg, None, later, draw);
    FullIsPositive(cfg);
    RefillFacts(cfg, 0.0, later - t, 0.0);
    PastTheBurst(cfg, Some(Bucket(0.0, t, Some(t))), later, draw);
  }

  /** Whenever a kiss-o'-death can be sent, a bucket fills in under a second and there are more clients than
      room, there is a run in which the sweep at the cap shows: a client has its burst and a kiss-o'-death,
      the map fills with others, a newcomer makes the limiter forget them all, and the client, back within
      the second, has its burst again and a second kiss-o'-death. A limiter that never forgets sends none. */
  lemma CapSweepShows(cfg: Config) returns (rs: seq<Request>)
    requires cfg.interval > 0.0 && ValidConfig(cfg) && !CapSweepHarmless(cfg) && Crowded(cfg)
    ensures Orderly(cfg, rs) && rs != []
    ensures VerdictOn(cfg, rs, |rs| - 1) == Kod && VerdictForever(cfg, rs, |rs| - 1) == Drop
  {
    hide Limited, ClientOf, Built, Orderly, VerdictOn, VerdictForever, Config.Full;
    var cs :| AllClients(cfg, cs) && |cs| > MAX_BUCKETS;
    var c := AnotherClient(cs, {});
    var a :| IsAddress(a) && Limited(cfg, a) && ClientOf(cfg, a) == c;
    var t, later, draw := 1.0, 1.0 + (cfg.Full() + 1.0) / 2.0, if cfg.leak > 0.0 then cfg.leak else 0.0;
    FullIsPositive(cfg);
    var full;
    rs, full := KissedAndCrowded(cfg, cs, a, t, draw);
    assert |full.Keys| == |full|;
    var c' := AnotherClient(cs, full.Keys);
    var a' :| IsAddress(a') && Limited(cfg, a') && ClientOf(cfg, a') == c';
    Newcomer(cfg, rs, full, a', t, later, draw);
    var joined := Fresh(cfg, later);
    rs := KissedAgain(cfg, rs + [Request(a', later, draw)], State(map[c' := joined], later), full[c' := joined], a, t, later, draw);
  }

  // ---- exactly when it shows ---------------------------------------------------------------------------

  lemma CheckHoldsClients(cfg: Config, s: State, r: Request)
    requires AllClients(cfg, s.buckets.Keys) && IsAddress(r.a)
    ensures AllClients(cfg, Check(cfg, s, r).0.buckets.Keys) && AllClients(cfg, Swept(cfg, s, r).buckets.Keys)
    ensures AllClients(cfg, MinuteSwept(cfg, s, r.now).buckets.Keys)
  {
    hide Limited, ClientOf, Serve;
  }

  lemma {:induction false} HoldsClients(cfg: Config, rs: seq<Request>, i: nat)
    requires FairDraws(rs) && i <= |rs|
    ensures AllClients(cfg, At(cfg, rs, i).buckets.Keys)
  {
    hide Check, AllClients;
    if i == 0 {
      NoClients(cfg);
    } else {
      HoldsClients(cfg, rs, i - 1);
      AtNext(cfg, rs, i - 1);
      CheckHoldsClients(cfg, At(cfg, rs, i - 1), rs[i - 1]);
    }
  }

  lemma NoClients(cfg: Config)
    ensures AllClients(cfg, Initial.buckets.Keys)
  {
  }

  lemma CapMeansCrowded(cfg: Config, rs: seq<Request>, i: nat)
    requires FairDraws(rs) && i < |rs| && SweepsAtCap(cfg, At(cfg, rs, i), rs[i])
    ensures Crowded(cfg)
  {
    HoldsClients(cfg, rs, i);
    CheckHoldsClients(cfg, At(cfg, rs, i), rs[i]);
    hide Limited, ClientOf, AllClients, MinuteSwept;
    var held := MinuteSwept(cfg, At(cfg, rs, i), rs[i].now).buckets.Keys;
    var cs := held + {ClientOf(cfg, rs[i].a)};
    OneMoreClient(cfg, held, rs[i].a);
    OneLarger(held, ClientOf(cfg, rs[i].a));
    assert AllClients(cfg, cs) && |cs| == |held| + 1;
  }

  /** Forgetting shows in some verdict of some run exactly when a kiss-o'-death can be sent, a bucket fills
      in under a second, and there can be more clients than room. */
  lemma ForgettingShowsExactly(cfg: Config)
    requires cfg.interval > 0.0 && ValidConfig(cfg)
    ensures (exists rs :: Orderly(cfg, rs) && Shows(cfg, rs)) <==> !CapSweepHarmless(cfg) && Crowded(cfg)
  {
    if !CapSweepHarmless(cfg) && Crowded(cfg) {
      var rs := CapSweepShows(cfg);
      assert Orderly(cfg, rs) && Shows(cfg, rs);
    }
    hide CapSweepHarmless, Crowded, VerdictOn, VerdictForever, SweepsAtCap;
    if rs :| Orderly(cfg, rs) && Shows(cfg, rs) {
      var i :| 0 <= i < |rs| && VerdictOn(cfg, rs, i) != VerdictForever(cfg, rs, i);
      if forall j :: 0 <= j <= i && SweepsAtCap(cfg, At(cfg, rs, j), rs[j]) ==> CapSweepHarmless(cfg) {
        ForgettingIsUnobservable(cfg, rs, i);
      } else {
        var j :| 0 <= j <= i && SweepsAtCap(cfg, At(cfg, rs, j), rs[j]) && !CapSweepHarmless(cfg);
        CapMeansCrowded(cfg, rs, j);
      }
    }
  }

  // ---- and there can be ------------------------------------------------------------------------------

  function HexDigit(n: int): (d: bv4)
    requires 0 <= n < 16
    ensures d as int == n
  {
    n as bv4
  }

  /** The byte of value `n`. */
  function Byte(n: int): bv8
    requires 0 <= n < 256
  {
    (HexDigit(n / 16) as bv8 << 4) | HexDigit(n % 16) as bv8
  }

  /** The `n`-th IPv4 network of 24 bits. */
  function Network(n: nat): (a: Address)
    requires n < 0x100_0000
    ensures IsAddress(a)
  {
    Address(V4, [Byte(n / 65536), Byte(n / 256 % 256), Byte(n % 256), 0, 0, 0, 0, 0, 0, 0, 0, 0, 0, 0, 0, 0])
  }

  lemma HexDigitsApart(h: bv4, l: bv4, h': bv4, l': bv4)
    requires (h as bv8 << 4) | l as bv8 == (h' as bv8 << 4) | l' as bv8
    ensures h == h' && l == l'
  {
  }

  lemma BytesApart(x: int, y: int)
    requires 0 <= x < 256 && 0 <= y < 256 && Byte(x) == Byte(y)
    ensures x == y
  {
    hide HexDigit;
    HexDigitsApart(HexDigit(x / 16), HexDigit(x % 16), HexDigit(y / 16), HexDigit(y % 16));
    assert HexDigit(x / 16) as int == x / 16 && HexDigit(x % 16) as int == x % 16;
  }

  lemma DigitsApart(m: nat, n: nat)
    requires m / 65536 == n / 65536 && m / 256 % 256 == n / 256 % 256 && m % 256 == n % 256
    ensures m == n
  {
    assert m / 256 == m / 65536 * 256 + m / 256 % 256 && n / 256 == n / 65536 * 256 + n / 256 % 256;
  }

  lemma ClientBytes(cfg: Config, n: nat)
    requires n < 0x100_0000 && cfg.ipv4Prefix >= 24
    ensures var b := ClientOf(cfg, Network(n)).b;
            |b| == 16 && b[0] == Byte(n / 65536) && b[1] == Byte(n / 256 % 256) && b[2] == Byte(n % 256)
  {
    hide Byte;
  }

  /** With a prefix of 24 bits or more, each is a client of its own. */
  lemma NetworksApart(cfg: Config, m: nat, n: nat)
    requires m < n < 0x100_0000 && cfg.ipv4Prefix >= 24
    ensures ClientOf(cfg, Network(m)) != ClientOf(cfg, Network(n))
  {
    hide Byte, ClientOf, Network;
    ClientBytes(cfg, m);
    ClientBytes(cfg, n);
    if ClientOf(cfg, Network(m)) == ClientOf(cfg, Network(n)) {
      BytesApart(m / 65536, n / 65536);
      BytesApart(m / 256 % 256, n / 256 % 256);
      BytesApart(m % 256, n % 256);
      DigitsApart(m, n);
    }
  }

  ghost function Networks(cfg: Config, n: nat): set<Address>
    requires n <= 0x100_0000
  {
    if n == 0 then {} else Networks(cfg, n - 1) + {ClientOf(cfg, Network(n - 1))}
  }

  lemma {:induction false} NotAmong(cfg: Config, n: nat, k: nat)
    requires n <= k < 0x100_0000 && cfg.ipv4Prefix >= 24
    ensures ClientOf(cfg, Network(k)) !in Networks(cfg, n)
  {
    hide ClientOf, Network;
    if n > 0 {
      NotAmong(cfg, n - 1, k);
      NetworksApart(cfg, n - 1, k);
    }
  }

  lemma {:induction false} ManyNetworks(cfg: Config, n: nat)
    requires n <= 0x100_0000 && cfg.ipv4Prefix >= 24 && cfg.interval > 0.0 && cfg.exempt == []
    ensures |Networks(cfg, n)| == n && AllClients(cfg, Networks(cfg, n))
  {
    if n > 0 {
      hide ClientOf, Network, AllClients, Limited, IsAddress;
      var fewer, c := Networks(cfg, n - 1), ClientOf(cfg, Network(n - 1));
      assert Networks(cfg, n) == fewer + {c};
      hide Networks;
      ManyNetworks(cfg, n - 1);
      NotAmong(cfg, n - 1, n - 1);
      NetworkIsLimited(cfg, n - 1);
      OneMoreClient(cfg, fewer, Network(n - 1));
      OneLarger(fewer, c);
    }
  }

  lemma NetworkIsLimited(cfg: Config, n: nat)
    requires n < 0x100_0000 && cfg.interval > 0.0 && cfg.exempt == []
    ensures Limited(cfg, Network(n))
  {
  }

  /** With nothing exempt and IPv4 clients told apart by 24 bits or more, there are more clients than room. */
  lemma OrdinarilyCrowded(cfg: Config)
    requires cfg.interval > 0.0 && cfg.exempt == [] && cfg.ipv4Prefix >= 24
    ensures Crowded(cfg)
  {
    hide AllClients, Networks;
    ManyNetworks(cfg, MAX_BUCKETS + 1);
    assert AllClients(cfg, Networks(cfg, MAX_BUCKETS + 1)) && |Networks(cfg, MAX_BUCKETS + 1)| > MAX_BUCKETS;
  }

  /** At a limit the configuration allows, two requests a second and a kiss-o'-death, it shows. */
  lemma ForgettingShows()
    ensures
      var cfg := Config(0.5, 1, 32, 64, 0.0, true, []);
      ValidConfig(cfg) && exists rs :: Orderly(cfg, rs) && Shows(cfg, rs)
  {
    var cfg := Config(0.5, 1, 32, 64, 0.0, true, []);
    OrdinarilyCrowded(cfg);
    ForgettingShowsExactly(cfg);
  }
}
