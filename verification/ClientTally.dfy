/** Who is asking for the time: each client's requests over the past hour, and those over the limit. */
module ClientTally {
  import opened Folds
  import opened MinuteRing

  const MAX_CLIENTS := 4096

  /** The counters are of 32 bits, and stay at their highest. */
  const HIGHEST := 0xFFFF_FFFF

  /** A client's counters, and the minute they were last moved on to. */
  datatype Entry = Entry(requests: seq<nat>, limited: seq<nat>, lastMinute: int)

  /** What has been counted of a client since it was taken up: the minutes of its requests, and of those
      over the limit. */
  datatype Log = Log(requests: seq<int>, limited: seq<int>)

  ghost predicate Tallied(e: Entry, l: Log) {
    Agrees(Some(HIGHEST), e.requests, e.lastMinute, l.requests) && Agrees(Some(HIGHEST), e.limited, e.lastMinute, l.limited)
  }

  function Zeros(): (z: seq<nat>)
    ensures |z| == MINUTES && forall i :: 0 <= i < MINUTES ==> z[i] == 0
  {
    seq(MINUTES, i => 0)
  }

  lemma NewIsTallied(minute: int)
    ensures Tallied(Entry(Zeros(), Zeros(), minute), Log([], []))
  {
    forall k | minute - MINUTES < k <= minute
      ensures AgreesAt(Some(HIGHEST), Zeros(), k, [])
    {
      SlotIs(k);
    }
  }

  function Logged(l: Log, minute: int, limited: bool): Log {
    Log(l.requests + [minute], if limited then l.limited + [minute] else l.limited)
  }

  /** One request of a client held. */
  method CountRequest(was: Entry, minute: int, limited: bool, ghost l: Log) returns (e: Entry)
    requires Tallied(was, l) && was.lastMinute <= minute
    ensures Tallied(e, Logged(l, minute, limited)) && e.lastMinute == minute
  {
    hide Agrees, Slot;
    ghost var highest := Some(HIGHEST);
    var requests := Advance(highest, was.requests, was.lastMinute, minute, l.requests);
    var over := Advance(highest, was.limited, was.lastMinute, minute, l.limited);
    BumpAgrees(highest, requests, minute, l.requests);
    BumpAgrees(highest, over, minute, l.limited);
    var i := Slot(minute);
    e := Entry(requests[i := Bumped(Some(HIGHEST), requests[i])],
               if limited then over[i := Bumped(Some(HIGHEST), over[i])] else over, minute);
  }

  /** The past hour of the log at `minute`. */
  function PastHour(log: seq<int>, minute: int): nat {
    Tally(Some(HIGHEST), log, minute - MINUTES + 1, minute)
  }

  function InPastHour(log: seq<int>, minute: int): nat {
    Count(log, Between(minute - MINUTES + 1, minute))
  }

  /** While no minute of it reaches the highest a counter goes to, it is exactly what was counted. */
  lemma PastHourIsExact(log: seq<int>, minute: int)
    requires forall k :: minute - MINUTES < k <= minute ==> Count(log, During(k)) <= HIGHEST
    ensures PastHour(log, minute) == InPastHour(log, minute)
  {
    TallyIsCount(Some(HIGHEST), log, minute - MINUTES + 1, minute);
  }

  method RequestsOf(e: Entry, minute: int, ghost l: Log) returns (n: nat)
    requires Tallied(e, l) && e.lastMinute <= minute
    ensures n == PastHour(l.requests, minute)
  {
    hide Agrees;
    n := SumHour(Some(HIGHEST), e.requests, e.lastMinute, minute, l.requests);
  }

  /** The clients with more than one request in the past hour. */
  function Frequent(logs: map<string, Log>, minute: int): map<string, Log> {
    map c | c in logs && PastHour(logs[c].requests, minute) > 1 :: logs[c]
  }

  /** The clients a new one finds: when there is no room, and a sweep may be made, only the frequent ones. */
  function Found(logs: map<string, Log>, lastSweep: real, now: real, minute: int): map<string, Log> {
    if |logs| < MAX_CLIENTS || now - lastSweep < 1.0 then logs else Frequent(logs, minute)
  }

  /** Of a sweep that has yet to look at some clients, the clients left. */
  function Left(logs: map<string, Log>, yet: set<string>, minute: int): map<string, Log> {
    map c | c in logs && (c in yet || PastHour(logs[c].requests, minute) > 1) :: logs[c]
  }

  lemma LeftNext(logs: map<string, Log>, yet: set<string>, c: string, minute: int)
    requires c in yet && c in logs
    ensures c in Left(logs, yet, minute) && Left(logs, yet, minute)[c] == logs[c]
    ensures Left(logs, yet - {c}, minute)
            == if PastHour(logs[c].requests, minute) <= 1 then Left(logs, yet, minute) - {c} else Left(logs, yet, minute)
  {
    hide PastHour;
  }

  lemma AllLeft(logs: map<string, Log>, minute: int)
    ensures Left(logs, {}, minute) == Frequent(logs, minute) && Left(logs, logs.Keys, minute) == logs
  {
    hide PastHour;
  }

  lemma SameSize<V, W>(m: map<string, V>, n: map<string, W>)
    requires m.Keys == n.Keys
    ensures |m| == |n|
  {
    assert |m| == |m.Keys| && |n| == |n.Keys|;
  }

  lemma SetTwice<K, V>(m: map<K, V>, k: K, v: V, w: V)
    ensures m[k := v][k := w] == m[k := w]
  {
  }

  class ClientTally {
    var clients: map<string, Entry>
    var lastSweep: real
    ghost var logs: map<string, Log>
    /** The latest minute anything was counted in. */
    ghost var latest: int

    ghost predicate Valid()
      reads this
    {
      && logs.Keys == clients.Keys
      && forall c :: c in clients ==> Tallied(clients[c], logs[c]) && clients[c].lastMinute <= latest
    }

    constructor ()
      ensures Valid() && clients == map[]
    {
      clients, lastSweep, logs, latest := map[], -1000000000000000000.0, map[], 0;
    }

    /** Drops the clients with no more than one request in the past hour, and only those. */
    method Sweep(minute: int)
      requires Valid() && latest <= minute
      modifies `clients, `logs
      ensures Valid()
      ensures logs == Frequent(old(logs), minute)
    {
      hide Tallied, PastHour, Left, Frequent;
      var left := clients.Keys;
      ghost var were := logs;
      AllLeft(were, minute);
      while left != {}
        invariant Valid() && left <= were.Keys
        invariant logs == Left(were, left, minute)
        decreases left
      {
        var c :| c in left;
        LeftNext(were, left, c, minute);
        var recent := RequestsOf(clients[c], minute, logs[c]);
        if recent <= 1 {
          clients, logs := clients - {c}, logs - {c};
        }
        left := left - {c};
      }
    }

    /** Room for one more client: there is some, or a sweep makes it; but no sweep within a second of the last. */
    method MakeRoom(ghost c: string, now: real, minute: int) returns (room: bool)
      requires Valid() && latest <= minute && c !in clients
      modifies `clients, `logs, `lastSweep
      ensures Valid() && (room <==> |logs| < MAX_CLIENTS) && c !in clients && c !in logs
      ensures logs == Found(old(logs), old(lastSweep), now, minute)
      ensures lastSweep == if |old(logs)| >= MAX_CLIENTS && now - old(lastSweep) >= 1.0 then now else old(lastSweep)
    {
      hide Tallied, PastHour;
      SameSize(clients, logs);
      if |clients| < MAX_CLIENTS {
        return true;
      }
      if now - lastSweep < 1.0 {
        return false;
      }
      lastSweep := now;
      Sweep(minute);
      SameSize(clients, logs);
      room := |clients| < MAX_CLIENTS;
    }

    ghost method MoveOn(minute: int)
      requires Valid() && latest <= minute
      modifies `latest
      ensures Valid() && latest == minute
    {
      latest := minute;
    }

    method Enter(c: string, minute: int)
      requires Valid() && c !in clients && minute <= latest
      modifies `clients, `logs
      ensures Valid() && c in clients && logs == old(logs)[c := Log([], [])]
    {
      hide Tallied;
      NewIsTallied(minute);
      clients := clients[c := Entry(Zeros(), Zeros(), minute)];
      logs := logs[c := Log([], [])];
    }

    /** Takes up a new client, if there is room. */
    method TakeUp(c: string, now: real, minute: int) returns (held: bool)
      requires Valid() && c !in clients && latest == minute
      modifies `clients, `logs, `lastSweep
      ensures Valid() && (held <==> c in clients)
      ensures
        var found := Found(old(logs), old(lastSweep), now, minute);
        && held == (|found| < MAX_CLIENTS)
        && logs == if held then found[c := Log([], [])] else found
      ensures lastSweep == if |old(logs)| >= MAX_CLIENTS && now - old(lastSweep) >= 1.0 then now else old(lastSweep)
    {
      hide Found;
      assert c !in logs;
      hide Valid;
      held := MakeRoom(c, now, minute);
      if held {
        Enter(c, minute);
      }
    }

    method CountHeld(c: string, minute: int, limited: bool)
      requires Valid() && c in clients && latest == minute
      modifies `clients, `logs
      ensures Valid() && logs == old(logs)[c := Logged(old(logs)[c], minute, limited)]
    {
      hide Tallied, Logged;
      var e := CountRequest(clients[c], minute, limited, logs[c]);
      clients := clients[c := e];
      logs := logs[c := Logged(logs[c], minute, limited)];
    }

    /** A request by client `c`. It is counted, unless the client is new and there is no room for it; then
        there is only if a sweep, no sooner than a second after the last, leaves too few frequent clients to
        fill the map. */
    method Record(c: string, now: real, limited: bool)
      requires Valid() && latest <= (now / 60.0).Floor
      modifies this
      ensures Valid() && latest == (now / 60.0).Floor
      ensures c in old(logs) ==> logs == old(logs)[c := Logged(old(logs)[c], latest, limited)]
      ensures c !in old(logs) ==>
                var found := Found(old(logs), old(lastSweep), now, latest);
                logs == if |found| < MAX_CLIENTS then found[c := Logged(Log([], []), latest, limited)] else found
      ensures lastSweep == if c !in old(logs) && |old(logs)| >= MAX_CLIENTS && now - old(lastSweep) >= 1.0 then now
                           else old(lastSweep)
    {
      hide Found;
      assert c in logs <==> c in clients;
      hide Logged, Valid;
      var minute := (now / 60.0).Floor;
      MoveOn(minute);
      if c !in clients {
        var held := TakeUp(c, now, minute);
        if !held {
          return;
        }
        SetTwice(Found(old(logs), old(lastSweep), now, minute), c, Log([], []), Logged(Log([], []), minute, limited));
      }
      CountHeld(c, minute, limited);
    }

    /** A held client's requests in the past hour, and those over the limit: each exactly as many as were
        counted, while no minute of them overflows a counter. */
    method PastHourOf(c: string, now: real) returns (requests: nat, limited: nat)
      requires Valid() && c in clients && latest <= (now / 60.0).Floor
      ensures
        var minute, l := (now / 60.0).Floor, logs[c];
        && requests == PastHour(l.requests, minute) && limited == PastHour(l.limited, minute)
        && ((forall k :: minute - MINUTES < k <= minute ==> Count(l.requests, During(k)) <= HIGHEST) ==>
              requests == InPastHour(l.requests, minute))
        && ((forall k :: minute - MINUTES < k <= minute ==> Count(l.limited, During(k)) <= HIGHEST) ==>
              limited == InPastHour(l.limited, minute))
    {
      hide InPastHour, Agrees;
      var minute := (now / 60.0).Floor;
      var e := clients[c];
      requests := SumHour(Some(HIGHEST), e.requests, e.lastMinute, minute, logs[c].requests);
      limited := SumHour(Some(HIGHEST), e.limited, e.lastMinute, minute, logs[c].limited);
      if forall k :: minute - MINUTES < k <= minute ==> Count(logs[c].requests, During(k)) <= HIGHEST {
        PastHourIsExact(logs[c].requests, minute);
      }
      if forall k :: minute - MINUTES < k <= minute ==> Count(logs[c].limited, During(k)) <= HIGHEST {
        PastHourIsExact(logs[c].limited, minute);
      }
    }
  }
}
