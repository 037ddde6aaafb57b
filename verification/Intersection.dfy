/** The Marzullo / Mills intersection (compare section 11.2.1 of RFC 5905): sweep the ends of the
    asserted intervals in order, keep the set of sources that agree at the deepest overlap. */
module Intersection {
  import opened Folds
  import opened Candidates

  /** How many candidates' half-open intervals hold `x`. */
  function Depth(cand: seq<Candidate>, x: real): nat {
    Count(cand, Holding(x))
  }

  function Holding(x: real): Candidate -> bool { (k: Candidate) => k.Holds(x) }

  // ---- the edges ---------------------------------------------------------------------------

  datatype Edge = Edge(at: real, opening: bool)

  /** In order of coordinate, closing edges first where they meet. */
  predicate Before(a: Edge, b: Edge) {
    a.at < b.at || (a.at == b.at && (!a.opening || b.opening))
  }

  predicate Ordered(e: seq<Edge>) {
    forall i, j :: 0 <= i < j < |e| ==> Before(e[i], e[j])
  }

  const Opening: Edge -> bool := (x: Edge) => x.opening
  const Closing: Edge -> bool := (x: Edge) => !x.opening
  function OpeningTo(at: real): Edge -> bool { (x: Edge) => x.opening && x.at <= at }
  function ClosingTo(at: real): Edge -> bool { (x: Edge) => !x.opening && x.at <= at }

  /** How many intervals are open after the edges in `e`. */
  function Open(e: seq<Edge>): int { Count(e, Opening) - Count(e, Closing) }

  /** `e` holds one opening and one closing edge for each candidate, in some order. */
  ghost predicate EdgesFor(cand: seq<Candidate>, e: seq<Edge>) {
    multiset(e) == multiset(RawEdges(cand))
  }

  function RawEdges(cand: seq<Candidate>): (e: seq<Edge>)
    ensures |e| == 2 * |cand|
  {
    if cand == [] then []
    else
      var k := cand[|cand| - 1];
      RawEdges(cand[..|cand| - 1]) + [Edge(k.Low(), true), Edge(k.High(), false)]
  }

  ghost predicate FromCandidate(cand: seq<Candidate>, e: Edge) {
    exists k :: k in cand && e.at == if e.opening then k.Low() else k.High()
  }

  lemma {:induction false} RawEdgesFrom(cand: seq<Candidate>)
    ensures forall e :: e in RawEdges(cand) ==> FromCandidate(cand, e)
    ensures forall k :: k in cand ==> Edge(k.Low(), true) in RawEdges(cand) && Edge(k.High(), false) in RawEdges(cand)
  {
    if cand != [] {
      var init, k := cand[..|cand| - 1], cand[|cand| - 1];
      RawEdgesFrom(init);
      assert cand == init + [k];
      forall e | e in RawEdges(cand)
        ensures FromCandidate(cand, e)
      {
        if e in RawEdges(init) {
          var j :| j in init && e.at == if e.opening then j.Low() else j.High();
          assert j in cand;
        } else {
          assert k in cand;
        }
      }
    }
  }

  lemma SameMembers<T>(a: seq<T>, b: seq<T>, x: T)
    requires multiset(a) == multiset(b)
    ensures x in a <==> x in b
  {
    assert x in a <==> x in multiset(a);
    assert x in b <==> x in multiset(b);
  }

  lemma EdgesFrom(cand: seq<Candidate>, e: seq<Edge>)
    requires EdgesFor(cand, e)
    ensures forall x :: x in e ==> FromCandidate(cand, x)
    ensures forall k :: k in cand ==> Edge(k.Low(), true) in e && Edge(k.High(), false) in e
  {
    RawEdgesFrom(cand);
    forall x: Edge
      ensures x in e <==> x in RawEdges(cand)
    {
      SameMembers(e, RawEdges(cand), x);
    }
  }

  lemma CountTwo<T>(s: seq<T>, a: T, b: T, p: T -> bool)
    ensures Count(s + [a, b], p) == Count(s, p) + (if p(a) then 1 else 0) + (if p(b) then 1 else 0)
  {
    assert (s + [a, b])[..|s| + 1] == s + [a];
    assert (s + [a])[..|s|] == s;
  }

  lemma {:induction false} RawDepth(cand: seq<Candidate>, at: real)
    requires AllSound(cand)
    ensures Depth(cand, at) == Count(RawEdges(cand), OpeningTo(at)) - Count(RawEdges(cand), ClosingTo(at))
  {
    if cand != [] {
      var init, k := cand[..|cand| - 1], cand[|cand| - 1];
      RawDepth(init, at);
      assert Sound(k);
      CountTwo(RawEdges(init), Edge(k.Low(), true), Edge(k.High(), false), OpeningTo(at));
      CountTwo(RawEdges(init), Edge(k.Low(), true), Edge(k.High(), false), ClosingTo(at));
    }
  }

  /** The depth at a point is the edges opened up to it less those closed up to it. */
  lemma DepthByEdges(cand: seq<Candidate>, e: seq<Edge>, at: real)
    requires AllSound(cand) && EdgesFor(cand, e)
    ensures Depth(cand, at) == Count(e, OpeningTo(at)) - Count(e, ClosingTo(at))
  {
    RawDepth(cand, at);
    CountOrder(e, RawEdges(cand), OpeningTo(at));
    CountOrder(e, RawEdges(cand), ClosingTo(at));
  }

  // ---- what the running count says ----------------------------------------------------------

  /** At an opening edge every closing edge up to its coordinate has been counted already, so the
      running count there is no more than the depth. */
  lemma OpenAtMostDepth(cand: seq<Candidate>, e: seq<Edge>, i: nat)
    requires AllSound(cand) && EdgesFor(cand, e) && Ordered(e) && i < |e| && e[i].opening
    ensures Open(e[..i + 1]) <= Depth(cand, e[i].at)
  {
    var at := e[i].at;
    DepthByEdges(cand, e, at);
    var head, tail := e[..i + 1], e[i + 1..];
    assert e == head + tail;
    CountConcat(head, tail, OpeningTo(at));
    CountConcat(head, tail, ClosingTo(at));
    CountNone(tail, ClosingTo(at));
    CountSame(head, Opening, OpeningTo(at));
    CountSame(head, Closing, ClosingTo(at));
  }

  lemma LastOpening(e: seq<Edge>, x: real) returns (i: nat)
    requires exists y :: y in e && y.opening && y.at <= x
    ensures i < |e| && e[i].opening && e[i].at <= x
    ensures forall j :: i < j < |e| && e[j].opening ==> e[j].at > x
  {
    var n: nat := |e|;
    while n > 0 && !(e[n - 1].opening && e[n - 1].at <= x)
      invariant 0 <= n <= |e|
      invariant forall j :: n <= j < |e| && e[j].opening ==> e[j].at > x
    {
      n := n - 1;
    }
    i := n - 1;
  }

  /** After the last opening edge up to `x` the running count is at least the depth at `x`. */
  lemma DepthAtMostOpen(cand: seq<Candidate>, e: seq<Edge>, x: real, i: nat)
    requires AllSound(cand) && EdgesFor(cand, e) && Ordered(e)
    requires i < |e| && e[i].opening && e[i].at <= x
    requires forall j :: i < j < |e| && e[j].opening ==> e[j].at > x
    ensures Open(e[..i + 1]) >= Depth(cand, x)
  {
    DepthByEdges(cand, e, x);
    var head, tail := e[..i + 1], e[i + 1..];
    assert e == head + tail;
    CountConcat(head, tail, OpeningTo(x));
    CountConcat(head, tail, ClosingTo(x));
    CountNone(tail, OpeningTo(x));
    CountSame(head, Opening, OpeningTo(x));
    CountMonotone(head, Closing, ClosingTo(x));
  }

  /** Some opening edge has counted at least the depth at `x`. */
  lemma SomeOpenReaches(cand: seq<Candidate>, e: seq<Edge>, x: real) returns (i: nat)
    requires AllSound(cand) && EdgesFor(cand, e) && Ordered(e) && Depth(cand, x) > 0
    ensures i < |e| && e[i].opening && e[i].at <= x && Open(e[..i + 1]) >= Depth(cand, x)
  {
    DepthByEdges(cand, e, x);
    CountPositive(e, OpeningTo(x));
    i := LastOpening(e, x);
    DepthAtMostOpen(cand, e, x, i);
  }

  // ---- the regions ---------------------------------------------------------------------------

  datatype Region = Region(lo: real, hi: real)

  /** `best` is the deepest overlap there is, anywhere on the line. */
  ghost predicate IsBest(cand: seq<Candidate>, best: int) {
    && (forall x: real :: Depth(cand, x) <= best)
    && (exists x: real :: Depth(cand, x) == best)
  }

  /** Where an interval opens and the overlap is then `best` deep. */
  ghost predicate IsStart(cand: seq<Candidate>, best: int, x: real) {
    Depth(cand, x) == best && exists k :: k in cand && k.Low() == x
  }

  /** The first place after `lo` where an interval ends. */
  ghost predicate IsEnd(cand: seq<Candidate>, lo: real, hi: real) {
    && lo < hi
    && (exists k :: k in cand && k.High() == hi)
    && (forall k :: k in cand ==> k.High() <= lo || hi <= k.High())
  }

  function Los(regions: seq<Region>): (l: seq<real>)
    ensures |l| == |regions| && forall i :: 0 <= i < |l| ==> l[i] == regions[i].lo
  {
    seq(|regions|, i requires 0 <= i < |regions| => regions[i].lo)
  }

  /** Every place where the overlap reaches `best`, in ascending order, each with its end. */
  ghost predicate AreRegions(cand: seq<Candidate>, best: int, regions: seq<Region>) {
    && (forall i, j :: 0 <= i < j < |regions| ==> regions[i].lo < regions[j].lo)
    && (forall r :: r in regions ==> IsStart(cand, best, r.lo) && IsEnd(cand, r.lo, r.hi))
    && (forall k :: k in cand && Depth(cand, k.Low()) == best ==> k.Low() in Los(regions))
  }

  lemma OpenNext(e: seq<Edge>, i: nat)
    requires i < |e|
    ensures Open(e[..i + 1]) == Open(e[..i]) + if e[i].opening then 1 else -1
  {
    Extend(e, i);
  }

  /** No opening edge counts more than the deepest overlap. */
  lemma OpenBounded(cand: seq<Candidate>, e: seq<Edge>, best: int, i: nat)
    requires AllSound(cand) && EdgesFor(cand, e) && Ordered(e) && IsBest(cand, best) && i < |e|
    ensures Open(e[..i + 1]) <= best
    decreases i
  {
    if e[i].opening {
      OpenAtMostDepth(cand, e, i);
    } else if i > 0 {
      OpenBounded(cand, e, best, i - 1);
      OpenNext(e, i);
    } else {
      OpenNext(e, i);
      assert Depth(cand, 0.0) <= best;
    }
  }

  /** The last of a sequence of edges that all open. */
  lemma {:induction false} OpenRises(e: seq<Edge>, j: nat, i: nat)
    requires j < i < |e| && forall m :: j < m <= i ==> e[m].opening
    ensures Open(e[..i + 1]) > Open(e[..j + 1])
  {
    OpenNext(e, i);
    if j + 1 < i {
      OpenRises(e, j, i - 1);
    }
  }

  lemma EdgeOf(cand: seq<Candidate>, e: seq<Edge>, k: Candidate, opening: bool) returns (n: nat)
    requires EdgesFor(cand, e) && k in cand
    ensures n < |e| && e[n] == Edge(if opening then k.Low() else k.High(), opening)
  {
    EdgesFrom(cand, e);
    var x := Edge(if opening then k.Low() else k.High(), opening);
    assert x in e;
    n :| 0 <= n < |e| && e[n] == x;
  }

  lemma CandidateAt(cand: seq<Candidate>, e: seq<Edge>, n: nat) returns (k: Candidate)
    requires EdgesFor(cand, e) && n < |e|
    ensures k in cand && e[n].at == if e[n].opening then k.Low() else k.High()
  {
    EdgesFrom(cand, e);
    assert FromCandidate(cand, e[n]);
    k :| k in cand && e[n].at == if e[n].opening then k.Low() else k.High();
  }

  /** The next edge after one that opens a region closes an interval, further on. */
  lemma NextCloses(cand: seq<Candidate>, e: seq<Edge>, best: int, i: nat)
    requires AllSound(cand) && EdgesFor(cand, e) && Ordered(e) && IsBest(cand, best)
    requires i < |e| && e[i].opening && Open(e[..i + 1]) == best
    ensures i + 1 < |e| && !e[i + 1].opening && e[i].at < e[i + 1].at
  {
    var k := CandidateAt(cand, e, i);
    var n := EdgeOf(cand, e, k, false);
    assert Sound(k);
    assert n > i;
    OpenBounded(cand, e, best, i + 1);
    OpenNext(e, i + 1);
    assert Before(e[i], e[i + 1]);
  }

  ghost predicate StartsRegion(e: seq<Edge>, best: int, j: nat) {
    j < |e| && e[j].opening && Open(e[..j + 1]) == best
  }

  /** An opening edge where the running count is `best` starts a region, and the edge after it
      ends it. */
  lemma RegionAt(cand: seq<Candidate>, e: seq<Edge>, best: int, i: nat)
    requires AllSound(cand) && EdgesFor(cand, e) && Ordered(e) && IsBest(cand, best)
    requires StartsRegion(e, best, i)
    ensures IsStart(cand, best, e[i].at)
    ensures i + 1 < |e| && IsEnd(cand, e[i].at, e[i + 1].at)
  {
    OpenAtMostDepth(cand, e, i);
    var k := CandidateAt(cand, e, i);
    NextCloses(cand, e, best, i);
    var h := CandidateAt(cand, e, i + 1);
    forall j | j in cand
      ensures j.High() <= e[i].at || e[i + 1].at <= j.High()
    {
      var m := EdgeOf(cand, e, j, false);
      assert m < i ==> Before(e[m], e[i]);
      assert i + 1 < m ==> Before(e[i + 1], e[m]);
    }
  }

  /** Each place where an interval opens `best` deep is found by the sweep. */
  lemma RegionFor(cand: seq<Candidate>, e: seq<Edge>, best: int, k: Candidate) returns (i: nat)
    requires AllSound(cand) && EdgesFor(cand, e) && Ordered(e) && IsBest(cand, best)
    requires k in cand && Depth(cand, k.Low()) == best
    ensures StartsRegion(e, best, i) && e[i].at == k.Low()
  {
    var n := EdgeOf(cand, e, k, true);
    assert e[n] in e;
    i := LastOpening(e, k.Low());
    assert n < i ==> Before(e[n], e[i]);
    DepthAtMostOpen(cand, e, k.Low(), i);
    OpenBounded(cand, e, best, i);
  }

  // ---- the sweep -----------------------------------------------------------------------------

  function InsertEdge(x: Edge, e: seq<Edge>): (r: seq<Edge>)
    requires Ordered(e)
    ensures Ordered(r) && forall y :: y in r ==> y == x || y in e
  {
    if e == [] || Before(x, e[0]) then [x] + e
    else
      var rest := InsertEdge(x, e[1..]);
      assert forall j :: 0 <= j < |rest| ==> rest[j] in rest;
      [e[0]] + rest
  }

  lemma {:induction false} InsertEdgeKeeps(x: Edge, e: seq<Edge>)
    requires Ordered(e)
    ensures multiset(InsertEdge(x, e)) == multiset(e) + multiset{x}
  {
    if e == [] || Before(x, e[0]) {
    } else {
      InsertEdgeKeeps(x, e[1..]);
      assert e == [e[0]] + e[1..];
    }
  }

  /** What std::sort leaves: equal edges are the same edge, so there is only one such order. */
  function SortEdges(e: seq<Edge>): (r: seq<Edge>)
    ensures Ordered(r)
  {
    if e == [] then [] else InsertEdge(e[|e| - 1], SortEdges(e[..|e| - 1]))
  }

  lemma {:induction false} SortEdgesKeeps(e: seq<Edge>)
    ensures multiset(SortEdges(e)) == multiset(e)
  {
    if e != [] {
      SortEdgesKeeps(e[..|e| - 1]);
      InsertEdgeKeeps(e[|e| - 1], SortEdges(e[..|e| - 1]));
      assert e == e[..|e| - 1] + [e[|e| - 1]];
    }
  }

  method CollectEdges(cand: seq<Candidate>) returns (e: seq<Edge>)
    ensures EdgesFor(cand, e) && Ordered(e)
  {
    e := [];
    for i := 0 to |cand|
      invariant e == RawEdges(cand[..i])
    {
      Extend(cand, i);
      e := e + [Edge(cand[i].Low(), true), Edge(cand[i].High(), false)];
    }
    assert cand[..|cand|] == cand;
    SortEdgesKeeps(e);
    e := SortEdges(e);
  }

  /** The first pass: the deepest overlap anywhere. */
  method DeepestOverlap(cand: seq<Candidate>, e: seq<Edge>) returns (best: int)
    requires AllSound(cand) && cand != [] && EdgesFor(cand, e) && Ordered(e)
    ensures IsBest(cand, best) && best >= 1
  {
    var open := 0;
    best := 0;
    ghost var at := 0;
    for i := 0 to |e|
      invariant open == Open(e[..i])
      invariant best >= 0
      invariant forall j :: 0 <= j < i && e[j].opening ==> Open(e[..j + 1]) <= best
      invariant best > 0 ==> 0 <= at < i && e[at].opening && Open(e[..at + 1]) == best
    {
      OpenNext(e, i);
      if e[i].opening {
        open := open + 1;
        if best < open {
          best, at := open, i;
        }
      } else {
        open := open - 1;
      }
    }
    forall x: real
      ensures Depth(cand, x) <= best
    {
      if Depth(cand, x) > 0 {
        var i := SomeOpenReaches(cand, e, x);
      }
    }
    assert best >= 1 by {
      var k := cand[0];
      assert Sound(k) && k.Holds(k.Low());
      assert Holding(k.Low())(k);
      CountPositive(cand, Holding(k.Low()));
      assert Depth(cand, k.Low()) >= 1;
    }
    OpenAtMostDepth(cand, e, at);
  }

  /** The regions that start before edge `i`, in order, and where they do. */
  ghost predicate Collected(e: seq<Edge>, best: int, i: nat, regions: seq<Region>, starts: seq<nat>) {
    && |starts| == |regions|
    && (forall m :: 0 <= m < |starts| ==>
          && starts[m] < i && StartsRegion(e, best, starts[m])
          && starts[m] + 1 < |e| && regions[m] == Region(e[starts[m]].at, e[starts[m] + 1].at))
    && (forall m, n :: 0 <= m < n < |starts| ==> starts[m] < starts[n])
    && (forall j: nat :: j < i && StartsRegion(e, best, j) ==> j in starts)
  }

  lemma CollectNext(e: seq<Edge>, best: int, i: nat, regions: seq<Region>, starts: seq<nat>)
    requires Collected(e, best, i, regions, starts)
    ensures !StartsRegion(e, best, i) ==> Collected(e, best, i + 1, regions, starts)
    ensures StartsRegion(e, best, i) && i + 1 < |e| ==>
              Collected(e, best, i + 1, regions + [Region(e[i].at, e[i + 1].at)], starts + [i])
  {
    hide StartsRegion;
    if StartsRegion(e, best, i) {
      assert forall j :: j in starts ==> j in starts + [i];
      assert i in starts + [i];
    }
  }

  /** The second pass: every stretch that deep. */
  method CollectRegions(cand: seq<Candidate>, e: seq<Edge>, best: int) returns (regions: seq<Region>)
    requires AllSound(cand) && EdgesFor(cand, e) && Ordered(e) && IsBest(cand, best) && best >= 1
    ensures AreRegions(cand, best, regions) && regions != []
  {
    var open := 0;
    regions := [];
    ghost var starts: seq<nat> := [];
    assert Collected(e, best, 0, regions, starts);
    hide Collected, IsBest, AllSound, Ordered;
    for i := 0 to |e|
      invariant open == Open(e[..i])
      invariant Collected(e, best, i, regions, starts)
    {
      OpenNext(e, i);
      CollectNext(e, best, i, regions, starts);
      if e[i].opening {
        open := open + 1;
        if open == best {
          RegionAt(cand, e, best, i);
          // there is always a next edge: what opened here has yet to close
          regions := regions + [Region(e[i].at, e[i + 1].at)];
          starts := starts + [i];
        }
      } else {
        open := open - 1;
      }
    }
    RegionsFromStarts(cand, e, best, regions, starts);
  }

  lemma StartsAscend(cand: seq<Candidate>, e: seq<Edge>, best: int, j: nat, i: nat)
    requires AllSound(cand) && EdgesFor(cand, e) && Ordered(e) && IsBest(cand, best)
    requires j < i && StartsRegion(e, best, j) && StartsRegion(e, best, i)
    ensures e[j].at < e[i].at
  {
    assert Before(e[j], e[i]);
    if e[j].at == e[i].at {
      assert forall o :: j < o <= i ==> Before(e[j], e[o]) && (o == i || Before(e[o], e[i]));
      OpenRises(e, j, i);
    }
  }

  lemma SomeStart(cand: seq<Candidate>, e: seq<Edge>, best: int) returns (i: nat)
    requires AllSound(cand) && EdgesFor(cand, e) && Ordered(e) && IsBest(cand, best) && best >= 1
    ensures StartsRegion(e, best, i)
  {
    var x: real :| Depth(cand, x) == best;
    i := SomeOpenReaches(cand, e, x);
    OpenBounded(cand, e, best, i);
  }

  lemma StartListed(e: seq<Edge>, best: int, regions: seq<Region>, starts: seq<nat>, i: nat)
    requires Collected(e, best, |e|, regions, starts) && StartsRegion(e, best, i)
    ensures e[i].at in Los(regions)
  {
    var m :| 0 <= m < |starts| && starts[m] == i;
    assert Los(regions)[m] == e[i].at;
  }

  lemma RegionsFromStarts(cand: seq<Candidate>, e: seq<Edge>, best: int, regions: seq<Region>, starts: seq<nat>)
    requires AllSound(cand) && EdgesFor(cand, e) && Ordered(e) && IsBest(cand, best) && best >= 1
    requires Collected(e, best, |e|, regions, starts)
    ensures AreRegions(cand, best, regions) && regions != []
  {
    hide AllSound, EdgesFor, Ordered, IsBest, StartsRegion, IsStart, IsEnd;
    forall m, n | 0 <= m < n < |regions|
      ensures regions[m].lo < regions[n].lo
    {
      StartsAscend(cand, e, best, starts[m], starts[n]);
    }
    forall r | r in regions
      ensures IsStart(cand, best, r.lo) && IsEnd(cand, r.lo, r.hi)
    {
      var m :| 0 <= m < |regions| && regions[m] == r;
      RegionAt(cand, e, best, starts[m]);
    }
    forall k | k in cand && Depth(cand, k.Low()) == best
      ensures k.Low() in Los(regions)
    {
      var i := RegionFor(cand, e, best, k);
      StartListed(e, best, regions, starts, i);
    }
    var i := SomeStart(cand, e, best);
    assert i in starts;
  }

  // ---- breaking a tie ------------------------------------------------------------------------

  function Touching(x: real): Candidate -> bool { (k: Candidate) => k.Touches(x) }

  /** How far a region lies from the offset being served. */
  function Away(served: real, r: Region): real {
    if served < r.lo then r.lo - served else if served > r.hi then served - r.hi else 0.0
  }

  function ShareAt(x: real): Candidate -> real {
    (k: Candidate) => if k.Touches(x) then k.Share() else 0.0
  }

  /** How well measured the sources of a region are. */
  function Score(cand: seq<Candidate>, r: Region): real {
    Sum(cand, ShareAt(r.lo))
  }

  /** Whether region `a` is to be kept rather than `b`: once there is a served time it decides, by how near
      it is to each, and until then how well measured they are. */
  predicate Better(cand: seq<Candidate>, served: Option<real>, a: Region, b: Region) {
    match served
    case Some(x) => Away(x, a) < Away(x, b)
    case None => Score(cand, a) > Score(cand, b)
  }

  /** No region is better than the one picked, and each earlier one is worse. */
  ghost predicate IsPick(cand: seq<Candidate>, regions: seq<Region>, served: Option<real>, pick: nat) {
    && pick < |regions|
    && (forall i :: 0 <= i < |regions| ==> !Better(cand, served, regions[i], regions[pick]))
    && (forall i :: 0 <= i < pick ==> Better(cand, served, regions[pick], regions[i]))
  }

  method RegionScore(cand: seq<Candidate>, r: Region) returns (w: real)
    ensures w == Score(cand, r)
  {
    w := 0.0;
    for i := 0 to |cand|
      invariant w == Sum(cand[..i], ShareAt(r.lo))
    {
      Extend(cand, i);
      if cand[i].Touches(r.lo) {
        w := w + cand[i].Share();
      }
    }
    assert cand[..|cand|] == cand;
  }

  method PickRegion(cand: seq<Candidate>, regions: seq<Region>, served: Option<real>) returns (pick: nat)
    requires regions != []
    ensures IsPick(cand, regions, served, pick)
  {
    pick := 0;
    if |regions| > 1 {
      for i := 1 to |regions|
        invariant pick < i
        invariant forall j :: 0 <= j < i ==> !Better(cand, served, regions[j], regions[pick])
        invariant forall j :: 0 <= j < pick ==> Better(cand, served, regions[pick], regions[j])
      {
        match served {
          case Some(x) =>
            if Away(x, regions[i]) < Away(x, regions[pick]) {
              pick := i;
            }
          case None =>
            var mine := RegionScore(cand, regions[i]);
            var other := RegionScore(cand, regions[pick]);
            if mine > other {
              pick := i;
            }
        }
      }
    }
  }

  /** With a time being served, from any point of any region the pick has one at least as near to it, and
      nearer if that region comes before; so a region that holds the time is picked over any that does not. */
  lemma PickIsNearest(cand: seq<Candidate>, best: int, regions: seq<Region>, served: real, pick: nat, i: nat, y: real)
      returns (z: real)
    requires AreRegions(cand, best, regions) && IsPick(cand, regions, Some(served), pick)
    requires i < |regions| && regions[i].lo <= y <= regions[i].hi
    ensures regions[pick].lo <= z <= regions[pick].hi
    ensures Abs(served - z) <= Abs(served - y) && (i < pick ==> Abs(served - z) < Abs(served - y))
  {
    var r := regions[pick];
    assert r in regions;
    z := if served < r.lo then r.lo else if served > r.hi then r.hi else served;
    assert !Better(cand, Some(served), regions[i], r);
    assert i < pick ==> Better(cand, Some(served), r, regions[i]);
    hide AreRegions, IsPick;
  }

  /** With none, no region weighs more by the sources whose intervals touch its low end, and each one before
      weighs less. */
  lemma PickIsWeightiest(cand: seq<Candidate>, regions: seq<Region>, pick: nat, i: nat)
    requires IsPick(cand, regions, None, pick) && i < |regions|
    ensures
      var mine := Filter(cand, Touching(regions[pick].lo));
      var other := Filter(cand, Touching(regions[i].lo));
      && Sum(other, (k: Candidate) => k.Share()) <= Sum(mine, (k: Candidate) => k.Share())
      && (i < pick ==> Sum(other, (k: Candidate) => k.Share()) < Sum(mine, (k: Candidate) => k.Share()))
  {
    var share := (k: Candidate) => k.Share();
    ScoreIs(cand, regions[pick], share);
    ScoreIs(cand, regions[i], share);
    assert !Better(cand, None, regions[i], regions[pick]);
    assert i < pick ==> Better(cand, None, regions[pick], regions[i]);
    hide IsPick, Filter, Sum;
  }

  lemma {:induction false} ScoreIs(cand: seq<Candidate>, r: Region, share: Candidate -> real)
    requires forall k :: share(k) == k.Share()
    ensures Score(cand, r) == Sum(Filter(cand, Touching(r.lo)), share)
  {
    if cand != [] {
      var init, k := cand[..|cand| - 1], cand[|cand| - 1];
      ScoreIs(init, r, share);
      assert cand == init + [k];
      KeptOne(init, k, Touching(r.lo));
      SumOne(Filter(init, Touching(r.lo)), k, share);
      hide Filter;
    }
  }

  // ---- the survivors -------------------------------------------------------------------------

  /** What the whole intersection leaves of two or more candidates. */
  ghost predicate Kept(cand: seq<Candidate>, served: Option<real>, survivors: seq<Candidate>,
                       best: int, regions: seq<Region>, pick: nat)
  {
    && IsBest(cand, best) && best >= 1
    && AreRegions(cand, best, regions)
    && IsPick(cand, regions, served, pick)
    && survivors == Filter(cand, Touching(regions[pick].lo))
  }

  method Intersect(cand: seq<Candidate>, served: Option<real>)
      returns (survivors: seq<Candidate>, best: int, regions: seq<Region>, pick: nat)
    requires AllSound(cand)
    ensures |cand| <= 1 ==> survivors == cand
    ensures |cand| > 1 ==> Kept(cand, served, survivors, best, regions, pick)
  {
    survivors, best, regions, pick := [], |cand|, [], 0;
    if |cand| == 1 {
      survivors := cand;
    } else if |cand| > 1 {
      var e := CollectEdges(cand);
      best := DeepestOverlap(cand, e);
      regions := CollectRegions(cand, e, best);
      pick := PickRegion(cand, regions, served);
      for i := 0 to |cand|
        invariant survivors == Filter(cand[..i], Touching(regions[pick].lo))
      {
        Extend(cand, i);
        if cand[i].Touches(regions[pick].lo) {
          survivors := survivors + [cand[i]];
        }
      }
      assert cand[..|cand|] == cand;
    }
  }

  // ---- what that means -----------------------------------------------------------------------

  lemma CountEqual(cand: seq<Candidate>, p: Candidate -> bool, q: Candidate -> bool)
    requires forall k :: k in cand && p(k) ==> q(k)
    requires Count(cand, p) == Count(cand, q)
    ensures forall k :: k in cand && q(k) ==> p(k)
  {
    forall k | k in cand && q(k)
      ensures p(k)
    {
      if !p(k) {
        var i :| 0 <= i < |cand| && cand[i] == k;
        CountWithout(cand, i, p);
        CountWithout(cand, i, q);
        CountMonotone(Without(cand, i), p, q);
        assert false;
      }
    }
  }

  /** All through a region the overlap is `best` deep. */
  lemma RegionIsFlat(cand: seq<Candidate>, best: int, r: Region, x: real)
    requires IsBest(cand, best) && IsStart(cand, best, r.lo) && IsEnd(cand, r.lo, r.hi)
    requires r.lo <= x < r.hi
    ensures Depth(cand, x) == best
  {
    CountMonotone(cand, Holding(r.lo), Holding(x));
  }

  lemma {:induction false} LatestLow(cand: seq<Candidate>, x: real) returns (k: Candidate)
    requires Depth(cand, x) > 0
    ensures k in cand && k.Holds(x)
    ensures forall j :: j in cand && j.Holds(x) ==> j.Low() <= k.Low()
  {
    var init, last := cand[..|cand| - 1], cand[|cand| - 1];
    assert cand == init + [last];
    if Depth(init, x) == 0 {
      CountPositive(init, Holding(x));
      k := last;
      forall j | j in cand && j.Holds(x)
        ensures j.Low() <= k.Low()
      {
        assert Holding(x)(j);
      }
    } else {
      k := LatestLow(init, x);
      if last.Holds(x) && last.Low() > k.Low() {
        k := last;
      }
    }
  }

  /** An interval that ends between the deepest region's low end and a point as deep would make
      one place deeper still. */
  lemma NoneEndsBefore(cand: seq<Candidate>, best: int, x: real, k: Candidate, j: Candidate)
    requires AllSound(cand) && IsBest(cand, best) && Depth(cand, x) == best
    requires k.Holds(x) && forall i :: i in cand && i.Holds(x) ==> i.Low() <= k.Low()
    requires j in cand && k.Low() < j.High()
    ensures x < j.High()
  {
    if j.High() <= x {
      var at := Max(j.Low(), k.Low());
      assert Sound(j) && j.Holds(at) && !j.Holds(x);
      CountMonotone(cand, Holding(x), Holding(at));
      assert Depth(cand, at) == best;
      CountEqual(cand, Holding(x), Holding(at));
      assert false;
    }
  }

  lemma DeepestIsInARegion(cand: seq<Candidate>, best: int, regions: seq<Region>, x: real) returns (i: nat)
    requires AllSound(cand) && IsBest(cand, best) && best >= 1 && AreRegions(cand, best, regions)
    requires Depth(cand, x) == best
    ensures i < |regions| && regions[i].lo <= x < regions[i].hi
  {
    var k := LatestLow(cand, x);
    CountMonotone(cand, Holding(x), Holding(k.Low()));
    assert Depth(cand, k.Low()) == best;
    i :| 0 <= i < |regions| && Los(regions)[i] == k.Low();
    assert regions[i] in regions;
    var j :| j in cand && j.High() == regions[i].hi;
    NoneEndsBefore(cand, best, x, k, j);
  }

  /** The regions are exactly the places where the overlap is deepest. */
  lemma RegionsAreTheDeepest(cand: seq<Candidate>, best: int, regions: seq<Region>, x: real)
    requires AllSound(cand) && IsBest(cand, best) && best >= 1 && AreRegions(cand, best, regions)
    ensures Depth(cand, x) == best <==> exists i :: 0 <= i < |regions| && regions[i].lo <= x < regions[i].hi
  {
    if i :| 0 <= i < |regions| && regions[i].lo <= x < regions[i].hi {
      assert regions[i] in regions;
      RegionIsFlat(cand, best, regions[i], x);
    }
    if Depth(cand, x) == best {
      var i := DeepestIsInARegion(cand, best, regions, x);
    }
  }

  function EndingAt(x: real): Candidate -> bool { (k: Candidate) => k.High() == x }

  /** The survivors have the low end of the picked region in common, and number the deepest overlap
      plus those whose interval ends exactly there: the sweep does not count two intervals that
      merely touch as overlapping, while survival does. So there are at least `best` of them, and
      exactly `best` if and only if none ends at that point. */
  lemma SurvivorsAgree(cand: seq<Candidate>, served: Option<real>, survivors: seq<Candidate>,
                       best: int, regions: seq<Region>, pick: nat)
    requires AllSound(cand) && Kept(cand, served, survivors, best, regions, pick)
    ensures forall k :: k in cand ==> (k in survivors <==> k.Touches(regions[pick].lo))
    ensures |survivors| == best + Count(cand, EndingAt(regions[pick].lo))
    ensures |survivors| >= best >= 1
    ensures |survivors| == best <==> forall k :: k in cand ==> k.High() != regions[pick].lo
  {
    var lo := regions[pick].lo;
    assert regions[pick] in regions;
    CountSplit(cand, lo);
    CountPositive(cand, EndingAt(lo));
    assert forall k :: k in cand && k.High() == lo ==> EndingAt(lo)(k);
  }

  /** The regions do not overlap. */
  lemma RegionsApart(cand: seq<Candidate>, best: int, a: Region, b: Region)
    requires AllSound(cand) && IsBest(cand, best) && a.lo < b.lo
    requires IsStart(cand, best, a.lo) && IsEnd(cand, a.lo, a.hi) && IsStart(cand, best, b.lo)
    ensures a.hi <= b.lo
  {
    if b.lo < a.hi {
      var k :| k in cand && k.Low() == b.lo;
      assert Sound(k) && Holding(b.lo)(k);
      CountMonotone(cand, Holding(a.lo), Holding(b.lo));
      CountEqual(cand, Holding(a.lo), Holding(b.lo));
      assert false;
    }
  }

  /** A time served from inside a region picks it. */
  lemma PickedFromInside(cand: seq<Candidate>, best: int, regions: seq<Region>, i: nat) returns (served: real)
    requires AllSound(cand) && IsBest(cand, best) && AreRegions(cand, best, regions) && i < |regions|
    ensures IsPick(cand, regions, Some(served), i)
  {
    assert regions[i] in regions;
    served := (regions[i].lo + regions[i].hi) / 2.0;
    hide IsBest, IsStart;
    forall j | 0 <= j < |regions| && j != i
      ensures Better(cand, Some(served), regions[i], regions[j])
    {
      assert regions[j] in regions;
      if j < i {
        RegionsApart(cand, best, regions[j], regions[i]);
      } else {
        RegionsApart(cand, best, regions[i], regions[j]);
      }
    }
  }

  ghost predicate Peak(cand: seq<Candidate>, x: real) {
    forall y: real :: Depth(cand, y) <= Depth(cand, x)
  }

  /** One interval ends where another begins, and the overlap there is as deep as anywhere. */
  ghost predicate TouchesAtPeak(cand: seq<Candidate>) {
    exists j, k :: j in cand && k in cand && k.High() == j.Low() && Peak(cand, j.Low())
  }

  /** Whatever is being served the survivors number the deepest overlap, exactly when no interval ends
      where another begins at a place that deep. */
  lemma SurvivorsNumberTheOverlap(cand: seq<Candidate>, best: int, regions: seq<Region>)
    requires AllSound(cand) && IsBest(cand, best) && best >= 1 && AreRegions(cand, best, regions)
    ensures (forall served, survivors, pick :: Kept(cand, served, survivors, best, regions, pick) ==> |survivors| == best)
            <==> !TouchesAtPeak(cand)
  {
    hide AreRegions;
    if !TouchesAtPeak(cand) {
      forall served, survivors, pick | Kept(cand, served, survivors, best, regions, pick)
        ensures |survivors| == best
      {
        NoneEndsAtThePick(cand, served, survivors, best, regions, pick);
      }
    } else {
      var served, survivors, pick := MoreThanTheOverlap(cand, best, regions);
    }
  }

  lemma NoneEndsAtThePick(cand: seq<Candidate>, served: Option<real>, survivors: seq<Candidate>,
                          best: int, regions: seq<Region>, pick: nat)
    requires AllSound(cand) && Kept(cand, served, survivors, best, regions, pick) && !TouchesAtPeak(cand)
    ensures |survivors| == best
  {
    SurvivorsAgree(cand, served, survivors, best, regions, pick);
    var lo := regions[pick].lo;
    assert regions[pick] in regions;
    var j :| j in cand && j.Low() == lo;
    assert Peak(cand, lo);
  }

  lemma MoreThanTheOverlap(cand: seq<Candidate>, best: int, regions: seq<Region>)
      returns (served: Option<real>, survivors: seq<Candidate>, pick: nat)
    requires AllSound(cand) && IsBest(cand, best) && best >= 1 && AreRegions(cand, best, regions) && TouchesAtPeak(cand)
    ensures Kept(cand, served, survivors, best, regions, pick) && |survivors| > best
  {
    var j, k :| j in cand && k in cand && k.High() == j.Low() && Peak(cand, j.Low());
    assert Depth(cand, j.Low()) == best by {
      var x: real :| Depth(cand, x) == best;
      assert best <= Depth(cand, j.Low());
    }
    pick :| 0 <= pick < |regions| && Los(regions)[pick] == j.Low();
    var inside := PickedFromInside(cand, best, regions, pick);
    served, survivors := Some(inside), Filter(cand, Touching(regions[pick].lo));
    SurvivorsAgree(cand, served, survivors, best, regions, pick);
  }

  lemma {:induction false} CountSplit(cand: seq<Candidate>, x: real)
    requires AllSound(cand)
    ensures Count(cand, Touching(x)) == Depth(cand, x) + Count(cand, EndingAt(x))
  {
    if cand != [] {
      CountSplit(cand[..|cand| - 1], x);
      assert Sound(cand[|cand| - 1]);
    }
  }

  lemma TwoDeep(a: Candidate, b: Candidate, p: Candidate -> bool)
    ensures Count([a, b], p) == (if p(a) then 1 else 0) + (if p(b) then 1 else 0)
    ensures p(a) && p(b) ==> Filter([a, b], p) == [a, b]
  {
    assert [a, b][..|[a, b]| - 1] == [a];
    assert [a][..|[a]| - 1] == [];
    assert Count([a], p) == if p(a) then 1 else 0;
  }

  /** Two intervals that only touch: the deepest overlap is one, yet both can survive. */
  lemma MoreSurvivorsThanOverlap(s: Snapshot)
    ensures
      var a, b := Candidate(s, 1.0, 1.0, 1.0, 1.0, true), Candidate(s, 3.0, 1.0, 1.0, 1.0, true);
      && Kept([a, b], Some(3.0), [a, b], 1, [Region(0.0, 2.0), Region(2.0, 4.0)], 1)
  {
    var a, b := Candidate(s, 1.0, 1.0, 1.0, 1.0, true), Candidate(s, 3.0, 1.0, 1.0, 1.0, true);
    var regions := [Region(0.0, 2.0), Region(2.0, 4.0)];
    assert Filter([a, b], Touching(2.0)) == [a, b] by {
      TwoDeep(a, b, Touching(2.0));
    }
    TouchingOverlap(a, b);
    assert AreRegions([a, b], 1, regions) by {
      TouchingRegions(a, b, regions);
    }
  }

  lemma TouchingOverlap(a: Candidate, b: Candidate)
    requires a.Low() == 0.0 && a.High() == b.Low() == 2.0 && b.High() == 4.0
    ensures forall x: real :: Depth([a, b], x) == if 0.0 <= x < 4.0 then 1 else 0
    ensures IsBest([a, b], 1)
  {
    forall x: real
      ensures Depth([a, b], x) == if 0.0 <= x < 4.0 then 1 else 0
    {
      TwoDeep(a, b, Holding(x));
    }
    assert Depth([a, b], 0.0) == 1;
  }

  lemma TouchingRegions(a: Candidate, b: Candidate, regions: seq<Region>)
    requires a.Low() == 0.0 && a.High() == b.Low() == 2.0 && b.High() == 4.0
    requires regions == [Region(0.0, 2.0), Region(2.0, 4.0)]
    ensures AreRegions([a, b], 1, regions)
  {
    TouchingOverlap(a, b);
    assert a in [a, b] && b in [a, b];
    assert Los(regions)[0] == 0.0 && Los(regions)[1] == 2.0;
    assert IsStart([a, b], 1, 0.0) && IsStart([a, b], 1, 2.0);
    assert IsEnd([a, b], 0.0, 2.0) && IsEnd([a, b], 2.0, 4.0);
  }

  /** If a strict majority of the candidates hold the true offset, so does one of the survivors. */
  lemma MajorityKeepsTheTruth(cand: seq<Candidate>, served: Option<real>, survivors: seq<Candidate>,
                              best: int, regions: seq<Region>, pick: nat, truth: real)
    requires AllSound(cand) && Kept(cand, served, survivors, best, regions, pick)
    requires 2 * Depth(cand, truth) > |cand|
    ensures exists k :: k in survivors && k.Holds(truth)
  {
    assert regions[pick] in regions;
    SurvivorsAgree(cand, served, survivors, best, regions, pick);
    Pigeonhole(cand, Touching(regions[pick].lo), Holding(truth));
  }

  // ---- the order of the snapshots does not matter ----------------------------------------------

  lemma DepthOrder(a: seq<Candidate>, b: seq<Candidate>, x: real)
    requires multiset(a) == multiset(b)
    ensures Depth(a, x) == Depth(b, x)
  {
    CountOrder(a, b, Holding(x));
  }

  lemma BestOrder(a: seq<Candidate>, b: seq<Candidate>, m: int, n: int)
    requires multiset(a) == multiset(b) && IsBest(a, m) && IsBest(b, n)
    ensures m == n
  {
    var x: real :| Depth(a, x) == m;
    var y: real :| Depth(b, y) == n;
    DepthOrder(a, b, x);
    DepthOrder(a, b, y);
  }

  ghost predicate Rising(s: seq<real>) {
    forall i, j :: 0 <= i < j < |s| ==> s[i] < s[j]
  }

  lemma AllIn(a: seq<real>, b: seq<real>)
    requires forall x :: x in a ==> x in b
    ensures forall i :: 0 <= i < |a| ==> a[i] in b
  {
    forall i | 0 <= i < |a|
      ensures a[i] in b
    {
      var x := a[i];
      assert x in a;
    }
  }

  /** Two strictly ascending lists of the same points are one list. */
  lemma {:induction false} SameRising(a: seq<real>, b: seq<real>)
    requires Rising(a) && Rising(b)
    requires forall x :: x in a ==> x in b
    requires forall x :: x in b ==> x in a
    ensures a == b
  {
    AllIn(a, b);
    AllIn(b, a);
    assert (a != [] ==> a[0] in b) && (b != [] ==> b[0] in a);
    if a == [] || b == [] {
    } else {
      assert a[0] in b && b[0] in a;
      assert a[0] == b[0];
      forall x
        ensures x in a[1..] <==> x in b[1..]
      {
        TailMember(a, x);
        TailMember(b, x);
      }
      SameRising(a[1..], b[1..]);
    }
  }

  lemma TailMember(a: seq<real>, x: real)
    requires Rising(a) && a != []
    ensures x in a[1..] <==> x in a && x != a[0]
  {
    assert a == [a[0]] + a[1..];
  }

  lemma RegionsOrder(a: seq<Candidate>, b: seq<Candidate>, best: int, rs: seq<Region>, ts: seq<Region>)
    requires multiset(a) == multiset(b)
    requires AreRegions(a, best, rs) && AreRegions(b, best, ts)
    ensures rs == ts
  {
    StartsInOther(a, b, best, rs, ts);
    StartsInOther(b, a, best, ts, rs);
    SameRising(Los(rs), Los(ts));
    forall i | 0 <= i < |rs|
      ensures rs[i] == ts[i]
    {
      assert rs[i] in rs && ts[i] in ts;
      assert Los(rs)[i] == Los(ts)[i];
      SameEnd(a, b, rs[i].lo, rs[i].hi, ts[i].hi);
    }
  }

  lemma StartsInOther(a: seq<Candidate>, b: seq<Candidate>, best: int, rs: seq<Region>, ts: seq<Region>)
    requires multiset(a) == multiset(b)
    requires AreRegions(a, best, rs) && AreRegions(b, best, ts)
    ensures forall x :: x in Los(rs) ==> x in Los(ts)
  {
    forall x | x in Los(rs)
      ensures x in Los(ts)
    {
      var i :| 0 <= i < |rs| && Los(rs)[i] == x;
      assert rs[i] in rs;
      var k :| k in a && k.Low() == x;
      SameMembers(a, b, k);
      DepthOrder(a, b, x);
    }
  }

  lemma SameEnd(a: seq<Candidate>, b: seq<Candidate>, lo: real, h: real, i: real)
    requires multiset(a) == multiset(b) && IsEnd(a, lo, h) && IsEnd(b, lo, i)
    ensures h == i
  {
    var j :| j in a && j.High() == h;
    var k :| k in b && k.High() == i;
    SameMembers(a, b, j);
    SameMembers(a, b, k);
  }

  lemma PickOrder(a: seq<Candidate>, b: seq<Candidate>, regions: seq<Region>, served: Option<real>, p: nat, q: nat)
    requires multiset(a) == multiset(b)
    requires IsPick(a, regions, served, p) && IsPick(b, regions, served, q)
    ensures p == q
  {
    SumOrder(a, b, ShareAt(regions[p].lo));
    SumOrder(a, b, ShareAt(regions[q].lo));
    assert Better(a, served, regions[p], regions[q]) == Better(b, served, regions[p], regions[q]);
    assert Better(a, served, regions[q], regions[p]) == Better(b, served, regions[q], regions[p]);
  }

  /** Given the same candidates in another order, the same overlap, regions and pick come out, and
      the same sources survive. */
  lemma OrderIndependent(a: seq<Candidate>, b: seq<Candidate>, served: Option<real>,
                         sa: seq<Candidate>, m: int, rs: seq<Region>, p: nat,
                         sb: seq<Candidate>, n: int, ts: seq<Region>, q: nat)
    requires multiset(a) == multiset(b)
    requires Kept(a, served, sa, m, rs, p) && Kept(b, served, sb, n, ts, q)
    ensures m == n && rs == ts && p == q && multiset(sa) == multiset(sb)
  {
    BestOrder(a, b, m, n);
    RegionsOrder(a, b, m, rs, ts);
    PickOrder(a, b, rs, served, p, q);
    FilterOrder(a, b, Touching(rs[p].lo));
  }
}
