/** The median of a list of figures, as std::sort and std::nth_element give it, and why it is the
    figure to judge by: it cannot be moved outside the range of a strict majority. */
module Medians {
  import opened Folds

  predicate Ascending(s: seq<real>) {
    forall i, j :: 0 <= i < j < |s| ==> s[i] <= s[j]
  }

  function Insert(x: real, s: seq<real>): (r: seq<real>)
    requires Ascending(s)
    ensures Ascending(r) && |r| == |s| + 1
    ensures forall y :: y in r ==> y == x || y in s
  {
    if s == [] || x <= s[0] then [x] + s
    else
      var rest := Insert(x, s[1..]);
      assert forall k :: 0 <= k < |rest| ==> rest[k] in rest;
      [s[0]] + rest
  }

  lemma {:induction false} InsertKeeps(x: real, s: seq<real>)
    requires Ascending(s)
    ensures multiset(Insert(x, s)) == multiset(s) + multiset{x}
  {
    if s == [] || x <= s[0] {
    } else {
      InsertKeeps(x, s[1..]);
      assert s == [s[0]] + s[1..];
    }
  }

  function Sort(v: seq<real>): (r: seq<real>)
    ensures Ascending(r) && |r| == |v|
  {
    if v == [] then [] else Insert(v[|v| - 1], Sort(v[..|v| - 1]))
  }

  lemma {:induction false} SortKeeps(v: seq<real>)
    ensures multiset(Sort(v)) == multiset(v)
  {
    if v == [] {
    } else {
      SortKeeps(v[..|v| - 1]);
      InsertKeeps(v[|v| - 1], Sort(v[..|v| - 1]));
      assert v == v[..|v| - 1] + [v[|v| - 1]];
    }
  }

  /** The middle of an ascending list: its middle element, or the mean of the middle two. */
  function Middle(s: seq<real>): real
    requires s != []
  {
    var mid := |s| / 2;
    if |s| % 2 == 1 then s[mid] else 0.5 * (s[mid - 1] + s[mid])
  }

  function Median(v: seq<real>): real
    requires v != []
  {
    Middle(Sort(v))
  }

  /** Only the elements of one stretch can count. */
  lemma CountFrom(s: seq<real>, p: real -> bool, a: nat, b: nat)
    requires a <= b <= |s|
    requires forall i :: 0 <= i < |s| && !(a <= i < b) ==> !p(s[i])
    ensures Count(s, p) <= b - a
  {
    assert s == s[..a] + s[a..b] + s[b..];
    CountConcat(s[..a] + s[a..b], s[b..], p);
    CountConcat(s[..a], s[a..b], p);
    CountNone(s[..a], p);
    CountNone(s[b..], p);
    CountMonotone(s[a..b], p, _ => true);
  }

  /** An element of the ascending list with a strict majority at or above `lo` on its own side. */
  lemma AtLeast(s: seq<real>, p: real -> bool, i: nat, lo: real)
    requires Ascending(s) && i < |s| && Count(s, p) > |s| - i - 1
    requires forall x :: p(x) ==> lo <= x
    ensures lo <= s[i]
  {
    if s[i] < lo {
      CountFrom(s, p, i + 1, |s|);
      assert false;
    }
  }

  lemma AtMost(s: seq<real>, p: real -> bool, i: nat, hi: real)
    requires Ascending(s) && i < |s| && Count(s, p) > i
    requires forall x :: p(x) ==> x <= hi
    ensures s[i] <= hi
  {
    if s[i] > hi {
      CountFrom(s, p, 0, i);
      assert false;
    }
  }

  lemma MiddleOfMajority(s: seq<real>, p: real -> bool, lo: real, hi: real)
    requires Ascending(s) && 2 * Count(s, p) > |s|
    requires forall x :: p(x) ==> lo <= x <= hi
    ensures s != [] && lo <= Middle(s) <= hi
  {
    assert s != [];
    var mid := |s| / 2;
    AtLeast(s, p, mid, lo);
    AtMost(s, p, mid, hi);
    if |s| % 2 == 0 {
      AtLeast(s, p, mid - 1, lo);
      AtMost(s, p, mid - 1, hi);
    }
  }

  /** Median breakdown: whatever the minority says, the median lies where the majority is. */
  lemma MedianOfMajority(v: seq<real>, lo: real, hi: real)
    requires 2 * Count(v, x => lo <= x <= hi) > |v|
    ensures v != [] && lo <= Median(v) <= hi
  {
    var p := x => lo <= x <= hi;
    var s := Sort(v);
    assert Count(v, p) == Count(s, p) by {
      SortKeeps(v);
      CountOrder(v, s, p);
    }
    MiddleOfMajority(s, p, lo, hi);
  }

  /** The same of everything on one side of a figure, and not up to it. */
  lemma MedianBeyond(v: seq<real>, bound: real, above: bool)
    requires 2 * Count(v, Past(bound, above)) > |v|
    ensures v != [] && Past(bound, above)(Median(v))
  {
    hide Sort, Count, Past;
    SortKeeps(v);
    CountOrder(v, Sort(v), Past(bound, above));
    MiddleBeyond(Sort(v), bound, above);
  }

  lemma MiddleBeyond(s: seq<real>, bound: real, above: bool)
    requires Ascending(s) && 2 * Count(s, Past(bound, above)) > |s|
    ensures s != [] && Past(bound, above)(Middle(s))
  {
    assert s != [];
    hide Ascending, Count;
    var mid := |s| / 2;
    PastAt(s, bound, above, mid);
    if |s| % 2 == 0 {
      PastAt(s, bound, above, mid - 1);
    }
  }

  function Past(bound: real, above: bool): real -> bool {
    (x: real) => if above then x > bound else x < bound
  }

  lemma PastAt(s: seq<real>, bound: real, above: bool, i: nat)
    requires Ascending(s) && i < |s| && 2 * Count(s, Past(bound, above)) > |s|
    requires i == |s| / 2 || (|s| % 2 == 0 && i == |s| / 2 - 1)
    ensures Past(bound, above)(s[i])
  {
    if !Past(bound, above)(s[i]) {
      if above {
        CountFrom(s, Past(bound, above), i + 1, |s|);
      } else {
        CountFrom(s, Past(bound, above), 0, i);
      }
      assert false;
    }
  }

  lemma {:induction false} CountMapped<T, U>(s: seq<T>, f: T -> U, p: T -> bool, q: U -> bool)
    requires forall x :: x in s && p(x) ==> q(f(x))
    ensures Count(s, p) <= Count(Map(s, f), q)
  {
    if s != [] {
      var init := s[..|s| - 1];
      CountMapped(init, f, p, q);
      assert Map(s, f)[..|s| - 1] == Map(init, f);
      assert s[|s| - 1] in s;
    }
  }

  /** The same of a figure taken from each of a list of things. */
  lemma MedianOfMost<T>(s: seq<T>, f: T -> real, p: T -> bool, lo: real, hi: real)
    requires forall x :: x in s && p(x) ==> lo <= f(x) <= hi
    requires 2 * Count(s, p) > |s|
    ensures s != [] && lo <= Median(Map(s, f)) <= hi
  {
    hide Median, Count;
    var within := y => lo <= y <= hi;
    CountMapped(s, f, p, within);
    var v := Map(s, f);
    MedianOfMajority(v, lo, hi) by {
      CountSame(v, within, x => lo <= x <= hi);
    }
  }

  lemma {:induction false} CountAll<T>(s: seq<T>, p: T -> bool)
    requires forall x :: x in s ==> p(x)
    ensures Count(s, p) == |s|
  {
    if s != [] {
      CountAll(s[..|s| - 1], p);
    }
  }

  lemma MedianInHull(v: seq<real>, lo: real, hi: real)
    requires v != []
    requires forall x :: x in v ==> lo <= x <= hi
    ensures lo <= Median(v) <= hi
  {
    CountAll(v, x => lo <= x <= hi);
    MedianOfMajority(v, lo, hi);
  }
}
