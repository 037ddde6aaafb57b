/** Publishing every event once and in order, on a budget, while others may be recorded at any moment. */
module Mqtt {
  import opened Folds
  import opened Events

  /** What became of a publish: passed on, refused for good, or to be tried again later. */
  datatype Reply = Ok | Refused | TryLater

  datatype Phase = Idle | Looking | Sending(queue: seq<Event>)

  /** The publisher: its tokens, the last event it has done with, how many it found overwritten; and,
      remembered for the proofs, the events acknowledged. */
  datatype State = State(
    cap: real, tokens: real, refillAt: real, last: nat, lost: nat, phase: Phase, acked: seq<Event>)

  /** One step of the publisher, or an event recorded by another thread between two of them. */
  datatype Step = Record(e: Event) | Reconnect(now: real, cap: real) | Begin(now: real) | Copy | Send(reply: Reply)

  /** Read from the newest back to the first that is done with. */
  function Unsent(ring: seq<Event>, last: nat): seq<Event> {
    if ring == [] || ring[|ring| - 1].id <= last then []
    else Unsent(ring[..|ring| - 1], last) + [ring[|ring| - 1]]
  }

  /** The copy taken of the log, less what is done with; what was overwritten is counted. */
  function Copied(s: State, ring: seq<Event>): State {
    var queue := Unsent(ring, s.last);
    var missed := if queue != [] && queue[0].id > s.last + 1 then queue[0].id - s.last - 1 else 0;
    s.(lost := s.lost + missed, last := s.last + missed, phase := Sending(queue))
  }

  /** One event published, if there is one and a token for it. */
  function Sent(s: State, reply: Reply): State
    requires s.phase.Sending?
  {
    var queue := s.phase.queue;
    if queue == [] || !(s.tokens >= 1.0) then s.(phase := Idle)
    else if reply.TryLater? then s.(tokens := s.tokens - 1.0, phase := Idle)
    else s.(tokens := s.tokens - 1.0, last := queue[0].id, phase := Sending(queue[1..]), acked := s.acked + [queue[0]])
  }

  /** The tokens there are at an instant. */
  function Refilled(s: State, now: real): real {
    Min(s.cap, s.tokens + (now - s.refillAt) * s.cap / 60.0)
  }

  function Next(history: seq<Event>, s: State, step: Step): (seq<Event>, State) {
    match step
    case Record(e) => (Recorded(history, e), s)
    case Reconnect(now, cap) => (history, if s.phase.Idle? then s.(cap := cap, tokens := cap, refillAt := now) else s)
    case Begin(now) =>
      if !s.phase.Idle? then (history, s)
      else (history, s.(tokens := Refilled(s, now), refillAt := now,
                        phase := if |history| <= s.last then Idle else Looking))
    case Copy => (history, if s.phase.Looking? then Copied(s, Ring(history)) else s)
    case Send(reply) => (history, if s.phase.Sending? then Sent(s, reply) else s)
  }

  function Start(cap: real): State { State(cap, 0.0, 0.0, 0, 0, Idle, []) }

  function Run(cap: real, steps: seq<Step>): (seq<Event>, State) {
    if steps == [] then ([], Start(cap))
    else
      var (history, s) := Run(cap, steps[..|steps| - 1]);
      Next(history, s, steps[|steps| - 1])
  }

  // ---- what every run keeps --------------------------------------------------------------------------

  /** The acknowledged events are events of the log, each with the content it was recorded with, and their
      ids strictly increase. */
  ghost predicate InOrder(acked: seq<Event>, history: seq<Event>, last: nat)
    requires last <= |history|
  {
    && (forall i :: 0 <= i < |acked| ==> 1 <= acked[i].id <= last && acked[i] == history[acked[i].id - 1])
    && (forall i, j :: 0 <= i < j < |acked| ==> acked[i].id < acked[j].id)
  }

  predicate Acknowledged(acked: seq<Event>, id: nat) {
    exists i :: 0 <= i < |acked| && acked[i].id == id
  }

  /** An event is done with only if it was acknowledged, or the ring had overwritten it. */
  ghost predicate NoneSkipped(acked: seq<Event>, history: seq<Event>, last: nat) {
    forall id :: 1 <= id <= last ==> Acknowledged(acked, id) || id + CAPACITY <= |history|
  }

  /** What is being sent are the events that follow, with none left out. */
  ghost predicate FollowsOn(phase: Phase, history: seq<Event>, last: nat) {
    phase.Sending? ==> last + |phase.queue| <= |history| && phase.queue == history[last..last + |phase.queue|]
  }

  ghost predicate Good(history: seq<Event>, s: State) {
    && Numbered(history) && s.last <= |history|
    && s.last == |s.acked| + s.lost
    && InOrder(s.acked, history, s.last) && NoneSkipped(s.acked, history, s.last)
    && FollowsOn(s.phase, history, s.last)
    && (s.phase.Looking? ==> s.last < |history|)
  }

  lemma {:induction false} UnsentFrom(history: seq<Event>, a: nat, last: nat)
    requires Numbered(history) && a <= |history| && last <= |history|
    ensures Unsent(history[a..], last) == history[if a < last then last else a..]
  {
    var n := |history|;
    if a < n && last < n {
      UnsentFrom(history[..n - 1], a, last);
      assert history[a..][..n - 1 - a] == history[..n - 1][a..];
      assert history[a..][n - 1 - a] == history[n - 1];
    }
  }

  function OldestUnsent(history: seq<Event>, last: nat): nat {
    if |history| > CAPACITY && last < |history| - CAPACITY then |history| - CAPACITY else last
  }

  /** The ring holds the newest events, so what is unsent is its tail: from where the publisher was, or
      from the oldest one left. */
  lemma UnsentIsTheTail(history: seq<Event>, last: nat)
    requires Numbered(history) && last <= |history|
    ensures Unsent(Ring(history), last) == history[OldestUnsent(history, last)..]
  {
    var a := |history| - |Ring(history)|;
    assert Ring(history) == history[a..];
    UnsentFrom(history, a, last);
  }

  lemma CopyKeepsGood(history: seq<Event>, s: State)
    requires Good(history, s) && s.phase.Looking?
    ensures Good(history, Copied(s, Ring(history)))
  {
    var t := Copied(s, Ring(history));
    var from := OldestUnsent(history, s.last);
    UnsentIsTheTail(history, s.last);
    FirstOfTail(history, from);
    MoreDone(s.acked, history, s.last, from);
    hide Ring, Unsent, InOrder, NoneSkipped, Numbered;
    assert t.last == from && t.acked == s.acked && t.lost == s.lost + from - s.last && t.phase == Sending(history[from..]);
    assert history[from..from + |history[from..]|] == history[from..];
  }

  lemma MoreDone(acked: seq<Event>, history: seq<Event>, last: nat, from: nat)
    requires last <= from <= |history| && (from == last || from + CAPACITY <= |history|)
    requires InOrder(acked, history, last) && NoneSkipped(acked, history, last)
    ensures InOrder(acked, history, from) && NoneSkipped(acked, history, from)
  {
    hide Acknowledged;
  }

  lemma FirstOfTail(history: seq<Event>, from: nat)
    requires Numbered(history) && from < |history|
    ensures history[from..] != [] && history[from..][0].id == from + 1
  {
  }

  lemma NextInOrder(acked: seq<Event>, e: Event, history: seq<Event>, last: nat)
    requires last < |history| && InOrder(acked, history, last) && e == history[last] && e.id == last + 1
    ensures InOrder(acked + [e], history, last + 1)
  {
  }

  lemma NextNotSkipped(acked: seq<Event>, e: Event, history: seq<Event>, last: nat)
    requires NoneSkipped(acked, history, last) && e.id == last + 1
    ensures NoneSkipped(acked + [e], history, last + 1)
  {
    var more := acked + [e];
    forall id | 1 <= id <= last + 1
      ensures Acknowledged(more, id) || id + CAPACITY <= |history|
    {
      if id == last + 1 {
        assert more[|acked|].id == id;
      } else if Acknowledged(acked, id) {
        var i :| 0 <= i < |acked| && acked[i].id == id;
        assert more[i].id == id;
      }
    }
  }

  lemma NextFollowsOn(queue: seq<Event>, history: seq<Event>, last: nat)
    requires Numbered(history) && FollowsOn(Sending(queue), history, last) && queue != []
    ensures last < |history| && queue[0] == history[last] && queue[0].id == last + 1
    ensures FollowsOn(Sending(queue[1..]), history, last + 1)
  {
  }

  lemma SendKeepsGood(history: seq<Event>, s: State, reply: Reply)
    requires Good(history, s) && s.phase.Sending?
    ensures Good(history, Sent(s, reply))
  {
    var queue := s.phase.queue;
    assert FollowsOn(Idle, history, s.last);
    hide InOrder, NoneSkipped, Numbered, FollowsOn;
    if queue != [] {
      NextFollowsOn(queue, history, s.last);
      NextInOrder(s.acked, queue[0], history, s.last);
      NextNotSkipped(s.acked, queue[0], history, s.last);
    }
  }

  lemma RecordKeepsGood(history: seq<Event>, s: State, e: Event)
    requires Good(history, s)
    ensures Good(Recorded(history, e), s)
  {
    hide Acknowledged;
    var more := Recorded(history, e);
    assert history == more[..|history|];
    if s.phase.Sending? {
      assert more[s.last..s.last + |s.phase.queue|] == history[s.last..s.last + |s.phase.queue|];
    }
  }

  lemma NextKeepsGood(history: seq<Event>, s: State, step: Step)
    requires Good(history, s)
    ensures Good(Next(history, s, step).0, Next(history, s, step).1)
  {
    match step
    case Record(e) => RecordKeepsGood(history, s, e);
    case Copy => if s.phase.Looking? { CopyKeepsGood(history, s); }
    case Send(reply) => if s.phase.Sending? { SendKeepsGood(history, s, reply); }
    case _ =>
  }

  /** In every run, wherever other events are recorded in it: the ids acknowledged strictly increase, each
      with its own content; the last id done with is the number acknowledged and the number lost; and an
      event passed over had been overwritten, with a hundred newer ones recorded. */
  lemma {:induction false} EveryRunIsGood(cap: real, steps: seq<Step>)
    ensures Good(Run(cap, steps).0, Run(cap, steps).1)
  {
    if steps != [] {
      hide Next, Good;
      EveryRunIsGood(cap, steps[..|steps| - 1]);
      var (history, s) := Run(cap, steps[..|steps| - 1]);
      NextKeepsGood(history, s, steps[|steps| - 1]);
    }
  }

  // ---- the publisher ---------------------------------------------------------------------------------

  function RunFrom(history: seq<Event>, s: State, steps: seq<Step>): (seq<Event>, State) {
    if steps == [] then (history, s)
    else
      var (h, t) := RunFrom(history, s, steps[..|steps| - 1]);
      Next(h, t, steps[|steps| - 1])
  }

  lemma OneStepMore(history: seq<Event>, s: State, steps: seq<Step>, step: Step)
    ensures RunFrom(history, s, steps + [step]) == Next(RunFrom(history, s, steps).0, RunFrom(history, s, steps).1, step)
  {
    assert (steps + [step])[..|steps|] == steps;
  }

  lemma {:induction false} RunFromKeepsGood(history: seq<Event>, s: State, steps: seq<Step>)
    requires Good(history, s)
    ensures Good(RunFrom(history, s, steps).0, RunFrom(history, s, steps).1)
  {
    if steps != [] {
      hide Next, Good;
      RunFromKeepsGood(history, s, steps[..|steps| - 1]);
      var (h, t) := RunFrom(history, s, steps[..|steps| - 1]);
      NextKeepsGood(h, t, steps[|steps| - 1]);
    }
  }

  function Sends(replies: nat -> Reply, n: nat): seq<Step> {
    if n == 0 then [] else Sends(replies, n - 1) + [Send(replies(n - 1))]
  }

  function Records(arriving: seq<Event>, n: nat): seq<Step>
    requires n <= |arriving|
  {
    if n == 0 then [] else Records(arriving, n - 1) + [Record(arriving[n - 1])]
  }

  function RecordedAll(history: seq<Event>, arriving: seq<Event>, n: nat): seq<Event>
    requires n <= |arriving|
  {
    if n == 0 then history else Recorded(RecordedAll(history, arriving, n - 1), arriving[n - 1])
  }

  function Begins(now: real, arriving: seq<Event>): seq<Step> { [Begin(now)] + Records(arriving, |arriving|) }

  /** The steps of a round: the events that others record come between the look at the latest id and the copy
      of the log, and then the receiver is asked `n` times. */
  function Round(now: real, arriving: seq<Event>, replies: nat -> Reply, n: nat): seq<Step> {
    Begins(now, arriving) + [Copy] + Sends(replies, n)
  }

  /** One after another, a token for each, all but the last taken by the receiver. */
  predicate Taken(tokens: real, replies: nat -> Reply, k: nat) {
    forall i :: 0 <= i < k ==> tokens - i as real >= 1.0 && !replies(i).TryLater?
  }

  /** What asking the receiver `n` times comes to: the first `k` are done with, and it is over when none are
      left, or no token is, or the receiver would have the next one later. */
  predicate Comes(s: State, t: State, replies: nat -> Reply, n: nat, k: nat)
    requires s.phase.Sending?
  {
    var queue, left := s.phase.queue, s.tokens - k as real;
    && k <= n && k <= |queue| && Taken(s.tokens, replies, k)
    && t.acked == s.acked + queue[..k] && t.lost == s.lost && t.cap == s.cap && t.refillAt == s.refillAt
    && t.last == (if k == 0 then s.last else queue[k - 1].id)
    && if t.phase.Sending? then k == n && t.phase.queue == queue[k..] && t.tokens == left
       else
         && t.phase == Idle
         && if k < |queue| && left >= 1.0 then replies(k).TryLater? && t.tokens == left - 1.0 else t.tokens == left
  }

  lemma OneMoreSent(s: State, t: State, replies: nat -> Reply, n: nat, k: nat) returns (k': nat)
    requires s.phase.Sending? && Comes(s, t, replies, n, k)
    ensures Comes(s, if t.phase.Sending? then Sent(t, replies(n)) else t, replies, n + 1, k')
  {
    k' := k;
    var queue := s.phase.queue;
    if t.phase.Sending? && t.phase.queue != [] && t.tokens >= 1.0 && !replies(n).TryLater? {
      assert queue[..k] + [queue[k]] == queue[..k + 1] && queue[k..][1..] == queue[k + 1..];
      k' := k + 1;
    }
  }

  lemma {:induction false} SendsExactly(history: seq<Event>, s: State, replies: nat -> Reply, n: nat) returns (k: nat)
    requires s.phase.Sending?
    ensures RunFrom(history, s, Sends(replies, n)).0 == history
    ensures Comes(s, RunFrom(history, s, Sends(replies, n)).1, replies, n, k)
  {
    hide *;
    k := 0;
    SendsNext(history, s, replies, n);
    if n > 0 {
      k := SendsExactly(history, s, replies, n - 1);
      var r := RunFrom(history, s, Sends(replies, n - 1));
      OneStepMore(history, s, Sends(replies, n - 1), Send(replies(n - 1)));
      AskedIs(r.0, r.1, replies(n - 1));
      k := OneMoreSent(s, r.1, replies, n - 1, k);
    }
  }

  lemma SendsNext(history: seq<Event>, s: State, replies: nat -> Reply, n: nat)
    ensures n > 0 ==> Sends(replies, n) == Sends(replies, n - 1) + [Send(replies(n - 1))]
    ensures n == 0 && s.phase.Sending? ==> RunFrom(history, s, Sends(replies, n)) == (history, s) && Comes(s, s, replies, n, 0)
  {
  }

  lemma AskedIs(history: seq<Event>, s: State, reply: Reply)
    ensures Next(history, s, Send(reply)) == (history, if s.phase.Sending? then Sent(s, reply) else s)
  {
  }

  lemma {:induction false} RecordsAll(history: seq<Event>, s: State, before: seq<Step>, arriving: seq<Event>, n: nat)
    requires n <= |arriving|
    ensures
      var (h, t) := RunFrom(history, s, before);
      RunFrom(history, s, before + Records(arriving, n)) == (RecordedAll(h, arriving, n), t)
  {
    hide RunFrom, Recorded;
    if n == 0 {
      assert before + [] == before;
    } else {
      RecordsAll(history, s, before, arriving, n - 1);
      OneStepMore(history, s, before + Records(arriving, n - 1), Record(arriving[n - 1]));
      assert before + Records(arriving, n - 1) + [Record(arriving[n - 1])] == before + Records(arriving, n);
    }
  }

  lemma {:induction false} RunFromTwice(history: seq<Event>, s: State, a: seq<Step>, b: seq<Step>)
    ensures RunFrom(history, s, a + b) == RunFrom(RunFrom(history, s, a).0, RunFrom(history, s, a).1, b)
  {
    if b == [] {
      assert a + b == a;
    } else {
      var init := b[..|b| - 1];
      RunFromTwice(history, s, a, init);
      assert a + b == a + init + [b[|b| - 1]];
      OneStepMore(history, s, a + init, b[|b| - 1]);
    }
  }

  /** A copy has been taken of the log, and nothing is done with that was not before, or lost. */
  ghost predicate Begun(history: seq<Event>, s: State, now: real, h: seq<Event>, t: State) {
    var from := OldestUnsent(h, s.last);
    && Good(h, t) && s.last <= from <= |h| && t.phase == Sending(h[from..])
    && t.tokens == Refilled(s, now) && t.last == from && t.lost == s.lost + from - s.last && t.acked == s.acked
  }

  lemma RoundLooks(history: seq<Event>, s: State, now: real, arriving: seq<Event>)
    requires s.phase.Idle? && s.last < |history|
    ensures RunFrom(history, s, Begins(now, arriving))
            == (RecordedAll(history, arriving, |arriving|), s.(tokens := Refilled(s, now), refillAt := now, phase := Looking))
  {
    hide Refilled, Records, RecordedAll;
    OneStepMore(history, s, [], Begin(now));
    assert RunFrom(history, s, []) == (history, s);
    assert [] + [Begin(now)] == [Begin(now)];
    RecordsAll(history, s, [Begin(now)], arriving, |arriving|);
  }

  lemma CopyIs(history: seq<Event>, s: State, now: real, h: seq<Event>, t: State)
    requires Good(h, t) && t == s.(tokens := Refilled(s, now), refillAt := now, phase := Looking)
    ensures Next(h, t, Copy).0 == h && Begun(history, s, now, h, Next(h, t, Copy).1)
  {
    var from := OldestUnsent(h, s.last);
    CopyKeepsGood(h, t);
    UnsentIsTheTail(h, s.last);
    FirstOfTail(h, from);
    hide Ring, Unsent, InOrder, NoneSkipped, Numbered, Refilled;
  }

  lemma RoundBegins(history: seq<Event>, s: State, now: real, arriving: seq<Event>)
    requires Good(history, s) && s.phase.Idle? && s.last < |history|
    ensures
      var r := RunFrom(history, s, Begins(now, arriving) + [Copy]);
      r.0 == RecordedAll(history, arriving, |arriving|) && Begun(history, s, now, r.0, r.1)
  {
    hide *;
    var r := RunFrom(history, s, Begins(now, arriving));
    RoundLooks(history, s, now, arriving);
    RunFromKeepsGood(history, s, Begins(now, arriving));
    OneStepMore(history, s, Begins(now, arriving), Copy);
    CopyIs(history, s, now, r.0, r.1);
  }

  /** What a round that has begun with something to publish comes to once it is over: what the ring had lost is
      counted, and of what is left, oldest first, as many are done with as there are tokens and the receiver
      takes, and no fewer. */
  lemma RoundPublishes(history: seq<Event>, s: State, now: real, arriving: seq<Event>, replies: nat -> Reply, n: nat)
      returns (k: nat)
    requires Good(history, s) && s.phase.Idle? && s.last < |history|
    requires RunFrom(history, s, Round(now, arriving, replies, n)).1.phase.Idle?
    ensures
      var r := RunFrom(history, s, Round(now, arriving, replies, n));
      r.0 == RecordedAll(history, arriving, |arriving|) && Published(s, now, replies, r.0, r.1, k)
  {
    hide *;
    var before := Begins(now, arriving) + [Copy];
    RoundBegins(history, s, now, arriving);
    RoundIs(now, arriving, replies, n);
    RunFromTwice(history, s, before, Sends(replies, n));
    var r := RunFrom(history, s, before);
    BegunSends(history, s, now, r.0, r.1);
    k := SendsExactly(r.0, r.1, replies, n);
    SentAll(history, s, now, replies, r.0, r.1, RunFrom(r.0, r.1, Sends(replies, n)).1, n, k);
  }

  lemma RoundIs(now: real, arriving: seq<Event>, replies: nat -> Reply, n: nat)
    ensures Round(now, arriving, replies, n) == Begins(now, arriving) + [Copy] + Sends(replies, n)
  {
  }

  lemma BegunSends(history: seq<Event>, s: State, now: real, h: seq<Event>, t: State)
    requires Begun(history, s, now, h, t)
    ensures t.phase.Sending?
  {
  }

  /** Of the events not done with that the ring still held, oldest first, `k` are acknowledged; the next, if
      there is one and a token for it, the receiver would have later. */
  ghost predicate Published(s: State, now: real, replies: nat -> Reply, h: seq<Event>, t: State, k: nat) {
    var from, tokens := OldestUnsent(h, s.last), Refilled(s, now);
    && from + k <= |h| && Taken(tokens, replies, k)
    && t.acked == s.acked + h[from..from + k] && t.last == from + k && t.lost == s.lost + from - s.last
    && (from + k < |h| && tokens - k as real >= 1.0 ==> replies(k).TryLater?)
  }

  lemma SentAll(history: seq<Event>, s: State, now: real, replies: nat -> Reply, h: seq<Event>, t: State, u: State, n: nat, k: nat)
    requires Begun(history, s, now, h, t) && t.phase.Sending? && Comes(t, u, replies, n, k) && u.phase.Idle?
    ensures Published(s, now, replies, h, u, k)
  {
    hide Taken, Refilled;
    var from := OldestUnsent(h, s.last);
    assert h[from..][..k] == h[from..from + k];
    assert k > 0 ==> h[from..][k - 1] == h[from + k - 1];
    IdOf(h, t, from + k);
    hide Good;
  }

  lemma IdOf(history: seq<Event>, s: State, n: nat)
    requires Good(history, s) && n <= |history|
    ensures n > 0 ==> history[n - 1].id == n
  {
  }

  /** The events not yet done with, newest first, from a copy of the log. */
  method Gather(all: seq<Event>, ghost ring: seq<Event>, last: nat) returns (queue: seq<Event>)
    requires all == NewestFirst(ring)
    ensures queue == NewestFirst(Unsent(ring, last))
  {
    hide Unsent;
    queue := [];
    var i := 0;
    assert ring[..|ring|] == ring && ring[|ring|..] == [];
    while i < |all| && all[i].id > last
      invariant 0 <= i <= |all|
      invariant queue == NewestFirst(ring[|ring| - i..])
      invariant Unsent(ring, last) == Unsent(ring[..|ring| - i], last) + ring[|ring| - i..]
    {
      GatherNext(ring, last, |ring| - i - 1);
      queue := queue + [all[i]];
      i := i + 1;
    }
    NoMore(ring[..|ring| - i], last);
  }

  lemma NoMore(ring: seq<Event>, last: nat)
    requires ring == [] || ring[|ring| - 1].id <= last
    ensures Unsent(ring, last) == []
  {
  }

  lemma GatherNext(ring: seq<Event>, last: nat, k: nat)
    requires k < |ring| && ring[k].id > last
    ensures Unsent(ring[..k + 1], last) + ring[k + 1..] == Unsent(ring[..k], last) + ring[k..]
    ensures NewestFirst(ring[k + 1..]) + [ring[k]] == NewestFirst(ring[k..])
  {
    assert ring[..k + 1][..k] == ring[..k];
    assert [ring[k]] + ring[k + 1..] == ring[k..];
  }

  class MqttPublisher {
    var cap: real
    var eventTokens: real
    var eventRefillAt: real
    var lastEventId: nat
    var eventsLost: nat
    ghost var acked: seq<Event>

    ghost function Current(phase: Phase): State
      reads this
    {
      State(cap, eventTokens, eventRefillAt, lastEventId, eventsLost, phase, acked)
    }

    constructor (rateLimit: real)
      ensures cap == Max(4.0, rateLimit / 4.0) && Current(Idle) == Start(cap)
    {
      cap := Max(4.0, rateLimit / 4.0);
      eventTokens, eventRefillAt, lastEventId, eventsLost, acked := 0.0, 0.0, 0, 0, [];
    }

    /** The receiver is found, and says how many publishes a minute it takes. */
    method Reconnected(rateLimit: real, now: real)
      modifies `cap, `eventTokens, `eventRefillAt
      ensures ([], Current(Idle)) == Next([], old(Current(Idle)), Reconnect(now, Max(4.0, rateLimit / 4.0)))
    {
      cap := Max(4.0, rateLimit / 4.0);
      eventTokens, eventRefillAt := cap, now;
    }

    /** One round of publishing. `arriving` are the events other threads record between the look at the
        latest id and the copy of the log; those recorded later wait for the next round. The steps taken
        are handed back. */
    method PublishEvents(log: EventLog, now: real, arriving: seq<Event>, replies: nat -> Reply)
        returns (ghost steps: seq<Step>, ghost asked: nat)
      requires log.Valid() && Good(log.history, Current(Idle))
      modifies this, log
      ensures log.Valid() && Good(log.history, Current(Idle))
      ensures (log.history, Current(Idle)) == RunFrom(old(log.history), old(Current(Idle)), steps)
      ensures steps == if |old(log.history)| <= old(lastEventId) then [Begin(now)] else Round(now, arriving, replies, asked)
    {
      asked := 0;
      ghost var h0, s0 := log.history, Current(Idle);
      steps := [Begin(now)];
      OneStepMore(h0, s0, [], Begin(now));
      eventTokens := Min(cap, eventTokens + (now - eventRefillAt) * cap / 60.0);
      eventRefillAt := now;
      RunFromKeepsGood(h0, s0, steps);
      var latest := log.LatestId();
      if latest <= lastEventId {
        return;
      }
      hide Good, RunFrom, Next;
      steps := RecordAll(log, arriving, h0, s0, steps);
      steps, asked := CopyAndSend(log, replies, h0, s0, steps);
    }

    /** The other threads. */
    method RecordAll(log: EventLog, arriving: seq<Event>, ghost h0: seq<Event>, ghost s0: State, ghost before: seq<Step>)
        returns (ghost steps: seq<Step>)
      requires log.Valid() && (log.history, Current(Looking)) == RunFrom(h0, s0, before)
      modifies log
      ensures log.Valid() && (log.history, Current(Looking)) == RunFrom(h0, s0, steps)
      ensures steps == before + Records(arriving, |arriving|)
    {
      hide RunFrom;
      steps := before;
      for i := 0 to |arriving|
        invariant log.Valid() && (log.history, Current(Looking)) == RunFrom(h0, s0, steps)
        invariant steps == before + Records(arriving, i)
      {
        OneStepMore(h0, s0, steps, Record(arriving[i]));
        log.Add(arriving[i]);
        steps := steps + [Record(arriving[i])];
      }
    }

    method CopyAndSend(log: EventLog, replies: nat -> Reply, ghost h0: seq<Event>, ghost s0: State, ghost before: seq<Step>)
        returns (ghost steps: seq<Step>, ghost asked: nat)
      requires log.Valid() && Good(h0, s0) && (log.history, Current(Looking)) == RunFrom(h0, s0, before)
      modifies this
      ensures Good(log.history, Current(Idle))
      ensures (log.history, Current(Idle)) == RunFrom(h0, s0, steps) && steps == before + [Copy] + Sends(replies, asked)
    {
      hide RunFrom, Good, Unsent, Numbered;
      OneStepMore(h0, s0, before, Copy);
      steps := before + [Copy];
      var all := log.All();
      var queue := Gather(all, Ring(log.history), lastEventId);
      ghost var left := Unsent(Ring(log.history), lastEventId);
      if queue != [] && queue[|queue| - 1].id > lastEventId + 1 {
        eventsLost := eventsLost + queue[|queue| - 1].id - lastEventId - 1;
        lastEventId := queue[|queue| - 1].id - 1;
      }
      assert (log.history, Current(Sending(left))) == RunFrom(h0, s0, steps);
      steps, asked := SendAll(queue, left, replies, log.history, h0, s0, steps);
      RunFromKeepsGood(h0, s0, steps);
    }

    /** Oldest first, while there are tokens and the receiver takes them. */
    method SendAll(queue: seq<Event>, ghost toSend: seq<Event>, replies: nat -> Reply,
                   ghost history: seq<Event>, ghost h0: seq<Event>, ghost s0: State, ghost before: seq<Step>)
        returns (ghost steps: seq<Step>, ghost asked: nat)
      requires queue == NewestFirst(toSend) && (history, Current(Sending(toSend))) == RunFrom(h0, s0, before)
      modifies this
      ensures (history, Current(Idle)) == RunFrom(h0, s0, steps) && steps == before + Sends(replies, asked)
    {
      hide RunFrom;
      steps, asked := before, 0;
      assert before + [] == before;
      ghost var left := toSend;
      var i := |queue|;
      while i > 0 && eventTokens >= 1.0
        invariant 0 <= i <= |queue| && left == toSend[|queue| - i..]
        invariant (history, Current(Sending(left))) == RunFrom(h0, s0, steps)
        invariant asked == |queue| - i && steps == before + Sends(replies, asked)
      {
        var reply := replies(|queue| - i);
        OneStepMore(h0, s0, steps, Send(reply));
        steps, asked := steps + [Send(reply)], asked + 1;
        eventTokens := eventTokens - 1.0;
        if reply.TryLater? {
          return;
        }
        lastEventId := queue[i - 1].id;
        acked := acked + [left[0]];
        left := left[1..];
        i := i - 1;
      }
      OneStepMore(h0, s0, steps, Send(replies(asked)));
      steps, asked := steps + [Send(replies(asked))], asked + 1;
    }
  }
}
