/** Limiting the replies to one client: a token bucket for each, forgotten once it must be full again. */
module RateLimiter {
  import opened Folds
  import opened Arithmetic
  import opened IpPrefix

  const MAX_BUCKETS := 100000
  const SWEEP_EVERY_SEC := 60.0

  datatype Config = Config(
    interval: real, burst: int, ipv4Prefix: int, ipv6Prefix: int, leak: real, kod: bool, exempt: seq<Prefix>)
  {
    /** After so long without a request any bucket is full. */
    function Full(): real { burst as real * interval }

    /** A client is sent no more than one kiss-o'-death in this long. */
    function KodEvery(): real { Max(1.0, interval) }
  }

  /** What the configuration check lets through. */
  predicate ValidConfig(cfg: Config) {
    cfg.burst >= 1 && 0 <= cfg.ipv4Prefix <= 32 && 0 <= cfg.ipv6Prefix <= 128
  }

  datatype Verdict = Answer | Leak | Kod | Drop

  /** `kodAt` is the instant of the client's latest kiss-o'-death, if there was one. */
  datatype Bucket = Bucket(tokens: real, at: real, kodAt: Option<real>)

  datatype State = State(buckets: map<Address, Bucket>, lastSweep: real)

  const Initial := State(map[], 0.0)

  /** A request: from whom, when, and what the generator of random figures would give. */
  datatype Request = Request(a: Address, now: real, draw: real)

  predicate Limited(cfg: Config, a: Address) {
    cfg.interval > 0.0 && a.family != Other && forall p :: p in cfg.exempt ==> !p.Contains(a)
  }

  /** The client an address belongs to: the address cut to the prefix for its family. */
  function ClientOf(cfg: Config, a: Address): Address {
    Masked(a, if a.family == V4 then cfg.ipv4Prefix else cfg.ipv6Prefix)
  }

  function Refill(cfg: Config, tokens: real, seconds: real): real
    requires cfg.interval > 0.0
  {
    Min(cfg.burst as real, tokens + seconds / cfg.interval)
  }

  function Fresh(cfg: Config, now: real): Bucket { Bucket(cfg.burst as real - 1.0, now, None) }

  predicate KodDue(cfg: Config, kodAt: Option<real>, now: real) {
    kodAt.None? || now - kodAt.value >= cfg.KodEvery()
  }

  /** One request of a client that is tracked. */
  function Serve(cfg: Config, b: Bucket, now: real, draw: real): (Bucket, Verdict)
    requires cfg.interval > 0.0
  {
    var tokens := Refill(cfg, b.tokens, now - b.at);
    if tokens >= 1.0 then (Bucket(tokens - 1.0, now, b.kodAt), Answer)
    else if cfg.leak > 0.0 && draw < cfg.leak then (Bucket(tokens, now, b.kodAt), Leak)
    else if cfg.kod && KodDue(cfg, b.kodAt, now) then (Bucket(tokens, now, Some(now)), Kod)
    else (Bucket(tokens, now, b.kodAt), Drop)
  }

  /** The buckets idle for no longer than `idle`. */
  function Forget(buckets: map<Address, Bucket>, now: real, idle: real): map<Address, Bucket> {
    map k | k in buckets && !(now - buckets[k].at > idle) :: buckets[k]
  }

  function MinuteSwept(cfg: Config, s: State, now: real): State {
    if now - s.lastSweep > SWEEP_EVERY_SEC
    then State(Forget(s.buckets, now, Max(SWEEP_EVERY_SEC, cfg.Full())), now) else s
  }

  /** A new client finds the map full: one sweep a second at the most makes room. */
  function CapSwept(cfg: Config, s: State, now: real): State {
    if |s.buckets| >= MAX_BUCKETS && now - s.lastSweep >= 1.0
    then State(Forget(s.buckets, now, cfg.Full()), now) else s
  }

  /** The state a request finds once the sweeps due are made. */
  function Swept(cfg: Config, s: State, r: Request): State {
    var s1 := MinuteSwept(cfg, s, r.now);
    if ClientOf(cfg, r.a) in s1.buckets then s1 else CapSwept(cfg, s1, r.now)
  }

  function Check(cfg: Config, s: State, r: Request): (State, Verdict) {
    if !Limited(cfg, r.a) then (s, Answer)
    else
      var s1, client := Swept(cfg, s, r), ClientOf(cfg, r.a);
      if client in s1.buckets then
        var (b, v) := Serve(cfg, s1.buckets[client], r.now, r.draw);
        (s1.(buckets := s1.buckets[client := b]), v)
      else if |s1.buckets| >= MAX_BUCKETS then (s1, Answer)
      else (s1.(buckets := s1.buckets[client := Fresh(cfg, r.now)]), Answer)
  }

  class RateLimiter {
    const cfg: Config
    var buckets: map<Address, Bucket>
    var lastSweep: real
    ghost var requests: seq<Request>

    function Current(): State
      reads `buckets, `lastSweep
    {
      State(buckets, lastSweep)
    }

    ghost predicate Valid()
      reads this
    {
      Current() == Run(cfg, requests)
    }

    constructor (cfg: Config)
      ensures Valid() && this.cfg == cfg && requests == []
    {
      this.cfg, buckets, lastSweep, requests := cfg, map[], 0.0, [];
    }

    /** Erases, one at a time, the buckets idle for longer than `idle`. */
    method Sweep(now: real, idle: real)
      modifies `buckets, `lastSweep
      ensures Current() == State(Forget(old(buckets), now, idle), now)
    {
      var left := buckets.Keys;
      ghost var was := buckets;
      while left != {}
        invariant left <= was.Keys
        invariant buckets == map k | k in was && (k in left || !(now - was[k].at > idle)) :: was[k]
        decreases left
      {
        var k :| k in left;
        if now - buckets[k].at > idle {
          buckets := buckets - {k};
        }
        left := left - {k};
      }
      lastSweep := now;
    }

    method CheckRequest(a: Address, now: real, draw: real) returns (v: Verdict)
      requires Valid() && IsAddress(a)
      modifies this
      ensures Valid() && requests == old(requests) + [Request(a, now, draw)]
      ensures (Current(), v) == Check(cfg, old(Current()), Request(a, now, draw))
    {
      hide Serve, Run, Masked, Swept;
      ghost var r := Request(a, now, draw);
      Appended(cfg, requests, r);
      requests := requests + [r];
      if !Limited(cfg, a) {
        return Answer;
      }
      var client := Mask(a, if a.family == V4 then cfg.ipv4Prefix else cfg.ipv6Prefix);
      MakeRoom(client, now, r);
      if client !in buckets {
        if |buckets| >= MAX_BUCKETS {
          return Answer;
        }
        buckets := buckets[client := Fresh(cfg, now)];
        return Answer;
      }
      var b;
      b, v := ServeClient(buckets[client], now, draw);
      buckets := buckets[client := b];
    }

    /** The sweeps: once a minute, and for a new client that finds the map full. */
    method MakeRoom(client: Address, now: real, ghost r: Request)
      requires client == ClientOf(cfg, r.a) && now == r.now
      modifies `buckets, `lastSweep
      ensures Current() == Swept(cfg, old(Current()), r)
    {
      hide Forget, ClientOf, Config.Full;
      var full := cfg.Full();
      if now - lastSweep > SWEEP_EVERY_SEC {
        Sweep(now, Max(SWEEP_EVERY_SEC, full));
      }
      if client !in buckets && |buckets| >= MAX_BUCKETS && now - lastSweep >= 1.0 {
        Sweep(now, full);
      }
    }

    method ServeClient(was: Bucket, now: real, draw: real) returns (b: Bucket, v: Verdict)
      requires cfg.interval > 0.0
      ensures (b, v) == Serve(cfg, was, now, draw)
    {
      b := was.(tokens := Refill(cfg, was.tokens, now - was.at), at := now);
      if b.tokens >= 1.0 {
        b := b.(tokens := b.tokens - 1.0);
        return b, Answer;
      }
      if cfg.leak > 0.0 && draw < cfg.leak {
        return b, Leak;
      }
      if cfg.kod && KodDue(cfg, b.kodAt, now) {
        b := b.(kodAt := Some(now));
        return b, Kod;
      }
      v := Drop;
    }
  }

  // ---- runs ----------------------------------------------------------------------------------------

  function Run(cfg: Config, rs: seq<Request>): State {
    if rs == [] then Initial else Check(cfg, Run(cfg, rs[..|rs| - 1]), rs[|rs| - 1]).0
  }

  lemma Appended(cfg: Config, rs: seq<Request>, r: Request)
    ensures Run(cfg, rs + [r]) == Check(cfg, Run(cfg, rs), r).0
  {
    assert (rs + [r])[..|rs|] == rs;
  }

  function At(cfg: Config, rs: seq<Request>, i: nat): State
    requires i <= |rs|
  {
    Run(cfg, rs[..i])
  }

  function VerdictOn(cfg: Config, rs: seq<Request>, i: nat): Verdict
    requires i < |rs|
  {
    Check(cfg, At(cfg, rs, i), rs[i]).1
  }

  lemma AtNext(cfg: Config, rs: seq<Request>, i: nat)
    requires i < |rs|
    ensures At(cfg, rs, i + 1) == Check(cfg, At(cfg, rs, i), rs[i]).0
  {
    assert rs[..i + 1][..i] == rs[..i];
  }

  ghost predicate InOrder(rs: seq<Request>) {
    forall i, j :: 0 <= i <= j < |rs| ==> rs[i].now <= rs[j].now
  }

  /** A new client is answered without being tracked: the map is full and stays so. */
  predicate Untracked(cfg: Config, s: State, r: Request) {
    Limited(cfg, r.a) && ClientOf(cfg, r.a) !in Check(cfg, s, r).0.buckets
  }

  // ---- the buckets are sound -------------------------------------------------------------------------

  predicate SoundBucket(cfg: Config, b: Bucket, now: real) {
    0.0 <= b.tokens <= cfg.burst as real && b.at <= now && (b.kodAt.Some? ==> b.kodAt.value <= b.at)
  }

  ghost predicate Sound(cfg: Config, buckets: map<Address, Bucket>, now: real) {
    forall k :: k in buckets ==> SoundBucket(cfg, buckets[k], now)
  }

  lemma RefillFacts(cfg: Config, tokens: real, seconds: real, more: real)
    requires cfg.interval > 0.0 && cfg.burst >= 1 && 0.0 <= tokens <= cfg.burst as real && 0.0 <= seconds && 0.0 <= more
    ensures 0.0 <= tokens <= Refill(cfg, tokens, seconds) <= cfg.burst as real
    ensures seconds >= cfg.Full() ==> Refill(cfg, tokens, seconds) == cfg.burst as real
    ensures Refill(cfg, tokens, seconds + more) <= Refill(cfg, tokens, seconds) + more / cfg.interval
    ensures more / cfg.interval >= 0.0
  {
    QuotientAtLeast(seconds, cfg.interval, 0.0);
    QuotientAtLeast(more, cfg.interval, 0.0);
    QuotientAdd(seconds, more, cfg.interval);
    if seconds >= cfg.Full() {
      QuotientAtLeast(seconds, cfg.interval, cfg.burst as real);
    }
  }

  lemma ServeSound(cfg: Config, b: Bucket, now: real, draw: real)
    requires cfg.interval > 0.0 && ValidConfig(cfg) && SoundBucket(cfg, b, now)
    ensures SoundBucket(cfg, Serve(cfg, b, now, draw).0, now) && Serve(cfg, b, now, draw).0.at == now
    ensures var (c, v) := Serve(cfg, b, now, draw);
            c.tokens == Refill(cfg, b.tokens, now - b.at) - if v == Answer then 1.0 else 0.0
  {
    RefillFacts(cfg, b.tokens, now - b.at, 0.0);
    hide Refill, KodDue;
  }

  lemma SweptSound(cfg: Config, s: State, r: Request)
    requires Sound(cfg, s.buckets, r.now)
    ensures Sound(cfg, Swept(cfg, s, r).buckets, r.now)
  {
    hide SoundBucket, ClientOf, Config.Full;
  }

  // ---- how many answers ------------------------------------------------------------------------------

  /** What a client could spend now: a client not tracked has a full bucket. */
  function Available(cfg: Config, buckets: map<Address, Bucket>, client: Address, now: real): real
    requires cfg.interval > 0.0
  {
    if client in buckets then Refill(cfg, buckets[client].tokens, now - buckets[client].at) else cfg.burst as real
  }

  lemma FullIsPositive(cfg: Config)
    requires cfg.interval > 0.0 && cfg.burst >= 1
    ensures cfg.Full() >= cfg.interval
  {
    Ordered(cfg.interval, 1.0, cfg.burst as real);
  }

  /** Forgetting a bucket that has had time to fill takes nothing from its client. */
  lemma ForgettingIsFair(cfg: Config, buckets: map<Address, Bucket>, now: real, idle: real, client: Address)
    requires cfg.interval > 0.0 && ValidConfig(cfg) && Sound(cfg, buckets, now) && idle >= cfg.Full()
    ensures Available(cfg, Forget(buckets, now, idle), client, now) == Available(cfg, buckets, client, now)
  {
    if client in buckets {
      var b := buckets[client];
      assert SoundBucket(cfg, b, now);
      RefillFacts(cfg, b.tokens, now - b.at, 0.0);
    }
  }

  lemma SweepingIsFair(cfg: Config, s: State, r: Request, client: Address)
    requires cfg.interval > 0.0 && ValidConfig(cfg) && Sound(cfg, s.buckets, r.now)
    ensures Available(cfg, Swept(cfg, s, r).buckets, client, r.now) == Available(cfg, s.buckets, client, r.now)
  {
    var s1 := MinuteSwept(cfg, s, r.now);
    ForgettingIsFair(cfg, s.buckets, r.now, Max(SWEEP_EVERY_SEC, cfg.Full()), client);
    assert Sound(cfg, s1.buckets, r.now);
    hide Available, ClientOf, SoundBucket;
    ForgettingIsFair(cfg, s1.buckets, r.now, cfg.Full(), client);
  }

  /** An answer to a client takes one from what it could spend; nothing else does. */
  lemma CheckSpends(cfg: Config, s: State, r: Request, client: Address)
    requires cfg.interval > 0.0 && ValidConfig(cfg) && Sound(cfg, s.buckets, r.now) && !Untracked(cfg, s, r)
    ensures
      var (t, v) := Check(cfg, s, r);
      && Sound(cfg, t.buckets, r.now)
      && Available(cfg, t.buckets, client, r.now)
         == Available(cfg, s.buckets, client, r.now)
            - if Limited(cfg, r.a) && ClientOf(cfg, r.a) == client && v == Answer then 1.0 else 0.0
  {
    if Limited(cfg, r.a) {
      SweptSound(cfg, s, r);
      SweepingIsFair(cfg, s, r, client);
      var s1, key := Swept(cfg, s, r), ClientOf(cfg, r.a);
      hide Swept, ClientOf, Limited, Refill, Serve;
      if key in s1.buckets {
        ServeSound(cfg, s1.buckets[key], r.now, r.draw);
        var b := Serve(cfg, s1.buckets[key], r.now, r.draw).0;
        NoTime(cfg, b.tokens);
      } else {
        NoTime(cfg, cfg.burst as real - 1.0);
      }
    }
  }

  lemma NoTime(cfg: Config, tokens: real)
    requires cfg.interval > 0.0 && tokens <= cfg.burst as real
    ensures Refill(cfg, tokens, 0.0) == tokens
  {
  }

  /** How many requests a stretch of time allows. */
  function Earned(cfg: Config, seconds: real): real
    requires cfg.interval > 0.0
  {
    seconds / cfg.interval
  }

  lemma EarnedAdds(cfg: Config, from: real, via: real, to: real)
    requires cfg.interval > 0.0
    ensures Earned(cfg, to - from) == Earned(cfg, via - from) + Earned(cfg, to - via)
    ensures Earned(cfg, from - from) == 0.0
  {
    QuotientAdd(via - from, to - via, cfg.interval);
  }

  lemma TimeRefills(cfg: Config, buckets: map<Address, Bucket>, client: Address, now: real, later: real)
    requires cfg.interval > 0.0 && ValidConfig(cfg) && Sound(cfg, buckets, now) && now <= later
    ensures Sound(cfg, buckets, later)
    ensures 0.0 <= Available(cfg, buckets, client, now) <= cfg.burst as real
    ensures Available(cfg, buckets, client, later) <= Available(cfg, buckets, client, now) + Earned(cfg, later - now)
  {
    if client in buckets {
      var b := buckets[client];
      assert SoundBucket(cfg, b, now);
      RefillFacts(cfg, b.tokens, now - b.at, later - now);
    } else {
      QuotientAtLeast(later - now, cfg.interval, 0.0);
    }
  }

  /** The requests of a client, from one to before another, that were answered within the limit. */
  function Answers(cfg: Config, rs: seq<Request>, client: Address, i: nat, j: nat): nat
    requires i <= j <= |rs|
  {
    if i == j then 0
    else Answers(cfg, rs, client, i, j - 1)
         + if Limited(cfg, rs[j - 1].a) && ClientOf(cfg, rs[j - 1].a) == client && VerdictOn(cfg, rs, j - 1) == Answer
           then 1 else 0
  }

  /** No request so far went untracked for want of room. */
  ghost predicate AlwaysTracked(cfg: Config, rs: seq<Request>) {
    forall i :: 0 <= i < |rs| ==> !Untracked(cfg, At(cfg, rs, i), rs[i])
  }

  lemma {:induction false} StaysSound(cfg: Config, rs: seq<Request>, i: nat)
    requires cfg.interval > 0.0 && ValidConfig(cfg) && InOrder(rs) && AlwaysTracked(cfg, rs) && i < |rs|
    ensures Sound(cfg, At(cfg, rs, i).buckets, rs[i].now)
  {
    hide Check, Sound, Untracked;
    if i == 0 {
      EmptySound(cfg, rs, rs[0].now);
    } else {
      StaysSound(cfg, rs, i - 1);
      AtNext(cfg, rs, i - 1);
      CheckSpends(cfg, At(cfg, rs, i - 1), rs[i - 1], ClientOf(cfg, rs[0].a));
      TimeRefills(cfg, At(cfg, rs, i).buckets, ClientOf(cfg, rs[0].a), rs[i - 1].now, rs[i].now);
    }
  }

  lemma EmptySound(cfg: Config, rs: seq<Request>, now: real)
    ensures Sound(cfg, At(cfg, rs, 0).buckets, now)
  {
  }

  lemma {:induction false} AnswersSpend(cfg: Config, rs: seq<Request>, client: Address, i: nat, j: nat)
    requires cfg.interval > 0.0 && ValidConfig(cfg) && InOrder(rs) && AlwaysTracked(cfg, rs) && i < j <= |rs|
    ensures Answers(cfg, rs, client, i, j) as real + Available(cfg, At(cfg, rs, j).buckets, client, rs[j - 1].now)
            <= cfg.burst as real + Earned(cfg, rs[j - 1].now - rs[i].now)
    ensures Sound(cfg, At(cfg, rs, j).buckets, rs[j - 1].now)
  {
    hide Check, Sound, Available, Untracked, ClientOf, Limited, At, Earned;
    var s, r := At(cfg, rs, j - 1), rs[j - 1];
    StaysSound(cfg, rs, j - 1);
    AtNext(cfg, rs, j - 1);
    CheckSpends(cfg, s, r, client);
    TimeRefills(cfg, s.buckets, client, r.now, r.now);
    if i < j - 1 {
      AnswersSpend(cfg, rs, client, i, j - 1);
      TimeRefills(cfg, s.buckets, client, rs[j - 2].now, r.now);
      EarnedAdds(cfg, rs[i].now, rs[j - 2].now, r.now);
    } else {
      EarnedAdds(cfg, r.now, r.now, r.now);
      assert Answers(cfg, rs, client, i, i) == 0;
    }
  }

  /** In any stretch of time the answers within the limit to one client number at most the burst and one
      for each interval of it. */
  lemma AnswersAreBounded(cfg: Config, rs: seq<Request>, client: Address, i: nat, j: nat)
    requires cfg.interval > 0.0 && ValidConfig(cfg) && InOrder(rs) && AlwaysTracked(cfg, rs) && i < j <= |rs|
    ensures Answers(cfg, rs, client, i, j) as real <= cfg.burst as real + (rs[j - 1].now - rs[i].now) / cfg.interval
  {
    hide Check, Sound, Available, Untracked, ClientOf, Limited;
    AnswersSpend(cfg, rs, client, i, j);
    TimeRefills(cfg, At(cfg, rs, j).buckets, client, rs[j - 1].now, rs[j - 1].now);
  }

  /** Short of a full bucket, what a client could spend grows by all that the time allows. */
  lemma TimeRefillsAll(cfg: Config, buckets: map<Address, Bucket>, client: Address, now: real, later: real)
    requires cfg.interval > 0.0 && ValidConfig(cfg) && Sound(cfg, buckets, now) && now <= later
    ensures Available(cfg, buckets, client, later)
            >= Min(cfg.burst as real, Available(cfg, buckets, client, now) + Earned(cfg, later - now))
  {
    if client in buckets {
      var b := buckets[client];
      assert SoundBucket(cfg, b, now);
      QuotientAdd(now - b.at, later - now, cfg.interval);
      assert now - b.at + (later - now) == later - b.at;
    }
  }

  /** The instant a stretch of requests up to `now` begins: that of request `i`, or, with none in it, `now`. */
  function From(rs: seq<Request>, i: nat, j: nat, now: real): real
    requires i <= j <= |rs|
  {
    if i < j then rs[i].now else now
  }

  /** Whatever a client can spend, some stretch of its past accounts for: it began it with a full bucket, and
      has had all that the time has allowed since and has spent the rest. */
  lemma {:induction false} SomeStretch(cfg: Config, rs: seq<Request>, client: Address, j: nat, now: real) returns (i: nat)
    requires cfg.interval > 0.0 && ValidConfig(cfg) && InOrder(rs) && AlwaysTracked(cfg, rs) && j <= |rs|
    requires j > 0 ==> rs[j - 1].now <= now
    ensures i <= j
    ensures Available(cfg, At(cfg, rs, j).buckets, client, now)
            >= cfg.burst as real + Earned(cfg, now - From(rs, i, j, now)) - Answers(cfg, rs, client, i, j) as real
  {
    hide Check, Sound, Available, Untracked, ClientOf, Limited, At, Earned;
    EarnedAdds(cfg, now, now, now);
    i := j;
    if j == 0 {
      NothingSpent(cfg, rs, client, now);
    } else {
      var s, r := At(cfg, rs, j - 1), rs[j - 1];
      var k := SomeStretch(cfg, rs, client, j - 1, r.now);
      StaysSound(cfg, rs, j - 1);
      AtNext(cfg, rs, j - 1);
      CheckSpends(cfg, s, r, client);
      TimeRefillsAll(cfg, At(cfg, rs, j).buckets, client, r.now, now);
      EarnedAdds(cfg, From(rs, k, j - 1, r.now), r.now, now);
      if Available(cfg, At(cfg, rs, j).buckets, client, now) < cfg.burst as real {
        i := k;
      }
    }
  }

  lemma NothingSpent(cfg: Config, rs: seq<Request>, client: Address, now: real)
    requires cfg.interval > 0.0
    ensures Available(cfg, At(cfg, rs, 0).buckets, client, now) == cfg.burst as real
  {
  }

  /** A client is answered within the limit exactly when it can spend one. */
  lemma AnsweredIs(cfg: Config, s: State, r: Request)
    requires cfg.interval > 0.0 && ValidConfig(cfg) && Sound(cfg, s.buckets, r.now) && Limited(cfg, r.a)
    ensures Check(cfg, s, r).1 == Answer <==> Available(cfg, s.buckets, ClientOf(cfg, r.a), r.now) >= 1.0
  {
    SweepingIsFair(cfg, s, r, ClientOf(cfg, r.a));
    hide Swept, ClientOf, Limited, Refill;
  }

  /** From request `i` on the answers to a client before request `j`, and one more, are within the burst and one
      for each interval of the stretch. */
  predicate Affords(cfg: Config, rs: seq<Request>, client: Address, i: nat, j: nat)
    requires cfg.interval > 0.0 && i <= j < |rs|
  {
    Answers(cfg, rs, client, i, j) as real + 1.0 <= cfg.burst as real + (rs[j].now - rs[i].now) / cfg.interval
  }

  lemma AnsweredAffords(cfg: Config, rs: seq<Request>, client: Address, i: nat, j: nat)
    requires cfg.interval > 0.0 && ValidConfig(cfg) && InOrder(rs) && AlwaysTracked(cfg, rs) && i <= j < |rs|
    requires Limited(cfg, rs[j].a) && ClientOf(cfg, rs[j].a) == client && VerdictOn(cfg, rs, j) == Answer
    ensures Affords(cfg, rs, client, i, j)
  {
    hide VerdictOn, ClientOf, Limited, AlwaysTracked, InOrder;
    AnswersAreBounded(cfg, rs, client, i, j + 1);
  }

  lemma SpentTooMuch(cfg: Config, rs: seq<Request>, client: Address, i: nat, j: nat)
    requires cfg.interval > 0.0 && i <= j < |rs|
    requires Answers(cfg, rs, client, i, j) as real + 1.0 > cfg.burst as real + Earned(cfg, rs[j].now - From(rs, i, j, rs[j].now))
    ensures !Affords(cfg, rs, client, i, j)
  {
    hide Answers;
  }

  /** Exactly as many answers as the limit allows: a request is answered just when, over every stretch of
      requests that ends with it, the answers to its client before it and one more are within the burst and
      one for each interval of the stretch. */
  lemma AnsweredExactly(cfg: Config, rs: seq<Request>, j: nat)
    requires cfg.interval > 0.0 && ValidConfig(cfg) && InOrder(rs) && AlwaysTracked(cfg, rs) && j < |rs| && Limited(cfg, rs[j].a)
    ensures VerdictOn(cfg, rs, j) == Answer
            <==> forall i :: 0 <= i <= j ==> Affords(cfg, rs, ClientOf(cfg, rs[j].a), i, j)
  {
    hide Check, Sound, Available, Untracked, ClientOf, Limited, At, Earned, Affords, Answers;
    var client := ClientOf(cfg, rs[j].a);
    StaysSound(cfg, rs, j);
    AnsweredIs(cfg, At(cfg, rs, j), rs[j]);
    if VerdictOn(cfg, rs, j) == Answer {
      forall i | 0 <= i <= j
        ensures Affords(cfg, rs, client, i, j)
      {
        AnsweredAffords(cfg, rs, client, i, j);
      }
    } else {
      var i := SomeStretch(cfg, rs, client, j, rs[j].now);
      SpentTooMuch(cfg, rs, client, i, j);
    }
  }

  // ---- one client ------------------------------------------------------------------------------------

  /** The bits of an address that make a client of it. */
  function PrefixOf(cfg: Config, a: Address): int {
    if a.family == V4 then cfg.ipv4Prefix else cfg.ipv6Prefix
  }

  /** Two addresses share a bucket exactly when they are of one family and agree on its prefix. */
  lemma OneClient(cfg: Config, a: Address, c: Address)
    requires ValidConfig(cfg) && IsAddress(a) && IsAddress(c)
    ensures ClientOf(cfg, a) == ClientOf(cfg, c)
            <==> a.family == c.family && forall k :: 0 <= k < PrefixOf(cfg, a) ==> Bit(a, k) == Bit(c, k)
  {
    MaskedAlike(a, c, PrefixOf(cfg, a));
  }
}
