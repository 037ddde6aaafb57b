/** The log of what has happened: the newest events in a ring, counts of every one by its type. */
module Events {
  import opened Folds

  const CAPACITY := 100

  /** `kind` is which of the event types it is. */
  datatype Event = Event(id: nat, kind: nat, unix: real, message: string)

  /** The ids of all the events ever recorded count up from 1. */
  ghost predicate Numbered(history: seq<Event>) {
    forall i :: 0 <= i < |history| ==> history[i].id == i + 1
  }

  /** Of all the events recorded, those the ring still holds. */
  function Ring(history: seq<Event>): seq<Event> {
    if |history| > CAPACITY then history[|history| - CAPACITY..] else history
  }

  function Recorded(history: seq<Event>, e: Event): seq<Event> {
    history + [e.(id := |history| + 1)]
  }

  function OfKind(kind: nat): Event -> bool { (e: Event) => e.kind == kind }

  /** Newest first. */
  function NewestFirst(s: seq<Event>): seq<Event> {
    seq(|s|, i requires 0 <= i < |s| => s[|s| - 1 - i])
  }

  function Tally(counts: map<nat, nat>, kind: nat): nat { if kind in counts then counts[kind] else 0 }

  ghost predicate Tallied(counts: map<nat, nat>, history: seq<Event>) {
    forall kind :: Tally(counts, kind) == Count(history, OfKind(kind))
  }

  lemma TalliedNext(counts: map<nat, nat>, history: seq<Event>, e: Event)
    requires Tallied(counts, history)
    ensures Tallied(counts[e.kind := Tally(counts, e.kind) + 1], history + [e])
  {
    forall kind
      ensures Tally(counts[e.kind := Tally(counts, e.kind) + 1], kind) == Count(history + [e], OfKind(kind))
    {
      CountOne(history, e, OfKind(kind));
      assert Tally(counts, kind) == Count(history, OfKind(kind));
    }
  }

  lemma RingFits(history: seq<Event>)
    ensures |Ring(history)| <= CAPACITY
  {
  }

  lemma RingNext(history: seq<Event>, e: Event)
    ensures Ring(history + [e])
            == if |Ring(history)| >= CAPACITY then (Ring(history) + [e])[1..] else Ring(history) + [e]
  {
  }

  class EventLog {
    var events: seq<Event>
    var nextId: nat
    var counts: map<nat, nat>

    /** Every event ever recorded. */
    ghost var history: seq<Event>

    ghost predicate Valid()
      reads this
    {
      && Numbered(history) && events == Ring(history) && nextId == |history| + 1
      && Tallied(counts, history)
    }

    constructor ()
      ensures Valid() && history == []
    {
      events, nextId, counts, history := [], 1, map[], [];
    }

    /** One event more of the history, numbered next; the ring still holds the newest hundred of it. */
    method Add(e: Event)
      requires Valid()
      modifies this
      ensures Valid() && history == Recorded(old(history), e)
    {
      hide Tallied, Count, Ring;
      var stamped := e.(id := nextId);
      TalliedNext(counts, history, stamped);
      RingNext(history, stamped);
      RingFits(history);
      nextId := nextId + 1;
      counts := counts[e.kind := 1 + if e.kind in counts then counts[e.kind] else 0];
      events := events + [stamped];
      history := history + [stamped];
      while |events| > CAPACITY
        invariant |events| <= CAPACITY ==> events == Ring(history)
        invariant |events| > CAPACITY ==> |events| == CAPACITY + 1 && events[1..] == Ring(history)
        modifies `events
      {
        events := events[1..];
      }
    }

    method All() returns (r: seq<Event>)
      requires Valid()
      ensures r == NewestFirst(Ring(history))
    {
      r := [];
      var i := |events|;
      while i > 0
        invariant 0 <= i <= |events| && r == NewestFirst(events)[..|events| - i]
      {
        i := i - 1;
        r := r + [events[i]];
      }
    }

    method LatestId() returns (id: nat)
      requires Valid()
      ensures id == |history|
    {
      id := nextId - 1;
    }

    /** Not bounded by the capacity: an event of long ago still counts. */
    method CountOf(kind: nat) returns (n: nat)
      requires Valid()
      ensures n == Count(history, OfKind(kind))
    {
      assert Tally(counts, kind) == Count(history, OfKind(kind));
      n := if kind in counts then counts[kind] else 0;
    }
  }
}
