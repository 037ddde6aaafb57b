/** Means in which each element counts by a weight of its own. */
module WeightedMeans {
  import opened Folds
  import opened Arithmetic

  function Weighed<T>(w: T -> real, f: T -> real): T -> real {
    (x: T) => w(x) * f(x)
  }

  function Mean<T>(s: seq<T>, w: T -> real, f: T -> real): real
    requires Sum(s, w) > 0.0
  {
    Sum(s, Weighed(w, f)) / Sum(s, w)
  }

  lemma {:induction false} TotalPositive<T>(s: seq<T>, w: T -> real)
    requires forall x :: x in s ==> w(x) >= 0.0
    ensures Sum(s, w) >= 0.0
    ensures Sum(s, w) > 0.0 <==> exists x :: x in s && w(x) > 0.0
  {
    if s != [] {
      var init := s[..|s| - 1];
      TotalPositive(init, w);
      assert s == init + [s[|s| - 1]];
    }
  }

  // The mean is a positive linear functional: everything else follows from these three.

  lemma {:induction false} SumsOrdered<T>(s: seq<T>, w: T -> real, f: T -> real, g: T -> real)
    requires forall x :: x in s ==> w(x) >= 0.0 && (w(x) > 0.0 ==> f(x) <= g(x))
    ensures Sum(s, Weighed(w, f)) <= Sum(s, Weighed(w, g))
  {
    if s != [] {
      var init, x := s[..|s| - 1], s[|s| - 1];
      SumsOrdered(init, w, f, g);
      if w(x) > 0.0 {
        Ordered(w(x), f(x), g(x));
      }
    }
  }

  lemma {:induction false} SumsAdd<T>(s: seq<T>, w: T -> real, f: T -> real, g: T -> real, h: T -> real)
    requires forall x :: x in s ==> h(x) == f(x) + g(x)
    ensures Sum(s, Weighed(w, h)) == Sum(s, Weighed(w, f)) + Sum(s, Weighed(w, g))
  {
    if s != [] {
      var init, x := s[..|s| - 1], s[|s| - 1];
      SumsAdd(init, w, f, g, h);
      Distribute(w(x), f(x), g(x));
    }
  }

  lemma {:induction false} SumsConstant<T>(s: seq<T>, w: T -> real, f: T -> real, c: real)
    requires forall x :: x in s ==> f(x) == c
    ensures Sum(s, Weighed(w, f)) == c * Sum(s, w)
  {
    if s != [] {
      var init, x := s[..|s| - 1], s[|s| - 1];
      SumsConstant(init, w, f, c);
      Distribute(c, Sum(init, w), w(x));
      assert Sum(s, w) == Sum(init, w) + w(x);
    }
  }

  lemma MeanOrdered<T>(s: seq<T>, w: T -> real, f: T -> real, g: T -> real)
    requires forall x :: x in s ==> w(x) >= 0.0 && (w(x) > 0.0 ==> f(x) <= g(x))
    requires Sum(s, w) > 0.0
    ensures Mean(s, w, f) <= Mean(s, w, g)
  {
    SumsOrdered(s, w, f, g);
    QuotientOrdered(Sum(s, Weighed(w, f)), Sum(s, Weighed(w, g)), Sum(s, w));
  }

  lemma MeanAdd<T>(s: seq<T>, w: T -> real, f: T -> real, g: T -> real, h: T -> real)
    requires forall x :: x in s ==> h(x) == f(x) + g(x)
    requires Sum(s, w) > 0.0
    ensures Mean(s, w, h) == Mean(s, w, f) + Mean(s, w, g)
  {
    SumsAdd(s, w, f, g, h);
    QuotientAdd(Sum(s, Weighed(w, f)), Sum(s, Weighed(w, g)), Sum(s, w));
  }

  lemma MeanConstant<T>(s: seq<T>, w: T -> real, f: T -> real, c: real)
    requires forall x :: x in s ==> f(x) == c
    requires Sum(s, w) > 0.0
    ensures Mean(s, w, f) == c
  {
    SumsConstant(s, w, f, c);
    QuotientOf(c, Sum(s, w));
  }

  /** The mean is never outside the range of the elements that count. */
  lemma MeanInHull<T>(s: seq<T>, w: T -> real, f: T -> real, lo: real, hi: real)
    requires forall x :: x in s ==> w(x) >= 0.0 && (w(x) > 0.0 ==> lo <= f(x) <= hi)
    requires Sum(s, w) > 0.0
    ensures lo <= Mean(s, w, f) <= hi
  {
    var low, high := (x: T) => lo, (x: T) => hi;
    MeanConstant(s, w, low, lo);
    MeanConstant(s, w, high, hi);
    MeanOrdered(s, w, low, f);
    MeanOrdered(s, w, f, high);
  }

  lemma MeanAbove<T>(s: seq<T>, w: T -> real, f: T -> real, g: T -> real, p: real)
    requires forall x :: x in s ==> w(x) >= 0.0 && (w(x) > 0.0 ==> f(x) <= p + g(x))
    requires Sum(s, w) > 0.0
    ensures Mean(s, w, f) <= p + Mean(s, w, g)
  {
    var at, sum := (x: T) => p, (x: T) => p + g(x);
    MeanConstant(s, w, at, p);
    MeanAdd(s, w, at, g, sum);
    MeanOrdered(s, w, f, sum);
  }

  lemma MeanBelow<T>(s: seq<T>, w: T -> real, f: T -> real, g: T -> real, p: real)
    requires forall x :: x in s ==> w(x) >= 0.0 && (w(x) > 0.0 ==> p <= f(x) + g(x))
    requires Sum(s, w) > 0.0
    ensures p <= Mean(s, w, f) + Mean(s, w, g)
  {
    var at, sum := (x: T) => p, (x: T) => f(x) + g(x);
    MeanConstant(s, w, at, p);
    MeanAdd(s, w, f, g, sum);
    MeanOrdered(s, w, at, sum);
  }

  /** If every element that counts is within its own margin of a point, so is their mean, within the
      mean of the margins. */
  lemma MeanWithin<T>(s: seq<T>, w: T -> real, f: T -> real, g: T -> real, p: real)
    requires forall x :: x in s ==> w(x) >= 0.0 && (w(x) > 0.0 ==> -g(x) <= f(x) - p <= g(x))
    requires Sum(s, w) > 0.0
    ensures -Mean(s, w, g) <= Mean(s, w, f) - p <= Mean(s, w, g)
  {
    MeanAbove(s, w, f, g, p);
    MeanBelow(s, w, f, g, p);
  }

  function SquareOff<T>(f: T -> real, x: real): T -> real { (t: T) => Square(x - f(t)) }

  /** The weighted sum of the squares of the distances from `x`. */
  function SquaresFrom<T>(s: seq<T>, w: T -> real, f: T -> real, x: real): real {
    Sum(s, Weighed(w, SquareOff(f, x)))
  }

  function Short<T>(f: T -> real, m: real): T -> real { (t: T) => m - f(t) }

  function Scaled<T>(f: T -> real, c: real): T -> real { (t: T) => c * f(t) }

  function Constant<T>(c: real): T -> real { (t: T) => c }

  lemma {:induction false} SumsScale<T>(s: seq<T>, w: T -> real, f: T -> real, c: real)
    ensures Sum(s, Weighed(w, Scaled(f, c))) == c * Sum(s, Weighed(w, f))
  {
    if s != [] {
      var init, x := s[..|s| - 1], s[|s| - 1];
      SumsScale(init, w, f, c);
      ScaledOne(w(x), f(x), c, Sum(init, Weighed(w, f)));
    }
  }

  lemma ScaledOne(w: real, y: real, c: real, sum: real)
    ensures c * sum + w * (c * y) == c * (sum + w * y)
  {
  }

  /** What falls short of the mean on one side is made up on the other. */
  lemma ShortsCancel<T>(s: seq<T>, w: T -> real, f: T -> real)
    requires Sum(s, w) > 0.0
    ensures Sum(s, Weighed(w, Short(f, Mean(s, w, f)))) == 0.0
  {
    var m := Mean(s, w, f);
    assert m * Sum(s, w) == Sum(s, Weighed(w, f));
    hide Mean, Sum;
    SumsConstant(s, w, Constant(m), m);
    SumsAdd(s, w, Short(f, m), f, Constant(m));
  }

  /** What the square of the distance from a point `d` beyond `m` exceeds that from `m` by. */
  function Excess<T>(f: T -> real, m: real, d: real): T -> real {
    (t: T) => 2.0 * d * (m - f(t)) + Times(d, d)
  }

  lemma SquareOffBy(y: real, x: real, m: real)
    ensures Square(x - y) == Square(m - y) + (2.0 * (x - m) * (m - y) + Times(x - m, x - m))
  {
    var d, e := x - m, m - y;
    assert x - y == d + e && (d + e) * (d + e) == e * e + (2.0 * d * e + d * d);
  }

  lemma ExcessSum<T>(s: seq<T>, w: T -> real, f: T -> real, m: real, d: real)
    requires Sum(s, Weighed(w, Short(f, m))) == 0.0
    ensures Sum(s, Weighed(w, Excess(f, m, d))) == Times(Times(d, d), Sum(s, w))
  {
    hide Sum, Weighed;
    SumsScale(s, w, Short(f, m), 2.0 * d);
    SumsConstant(s, w, Constant(Times(d, d)), Times(d, d));
    forall t
      ensures Excess(f, m, d)(t) == Scaled(Short(f, m), 2.0 * d)(t) + Constant(Times(d, d))(t)
    {
    }
    SumsAdd(s, w, Scaled(Short(f, m), 2.0 * d), Constant(Times(d, d)), Excess(f, m, d));
  }

  /** The sum from any point exceeds that from the mean by the square of how far the point is from it. */
  lemma SquaresFromMean<T>(s: seq<T>, w: T -> real, f: T -> real, x: real)
    requires Sum(s, w) > 0.0
    ensures
      var m := Mean(s, w, f);
      SquaresFrom(s, w, f, x) == SquaresFrom(s, w, f, m) + Times(Times(x - m, x - m), Sum(s, w))
  {
    var m := Mean(s, w, f);
    ShortsCancel(s, w, f);
    ExcessSum(s, w, f, m, x - m);
    forall t
      ensures SquareOff(f, x)(t) == SquareOff(f, m)(t) + Excess(f, m, x - m)(t)
    {
      SquareOffBy(f(t), x, m);
    }
    hide Sum, Mean, Weighed, Square, Times, Excess, SquareOff;
    SumsAdd(s, w, SquareOff(f, m), Excess(f, m, x - m), SquareOff(f, x));
  }

  /** No point at all leaves a smaller sum than the mean does. */
  lemma MeanIsLeast<T>(s: seq<T>, w: T -> real, f: T -> real, x: real)
    requires Sum(s, w) > 0.0
    ensures SquaresFrom(s, w, f, Mean(s, w, f)) <= SquaresFrom(s, w, f, x)
    ensures SquaresFrom(s, w, f, x) == SquaresFrom(s, w, f, Mean(s, w, f)) ==> x == Mean(s, w, f)
  {
    SquaresFromMean(s, w, f, x);
    hide Mean, Sum, SquaresFrom, Times;
    LeastAtNone(x - Mean(s, w, f), Sum(s, w));
  }

  lemma LeastAtNone(d: real, sw: real)
    requires sw > 0.0
    ensures Times(Times(d, d), sw) >= 0.0 && (Times(Times(d, d), sw) == 0.0 ==> d == 0.0)
  {
    SquareNonNegative(d);
    ProductSign(Times(d, d), sw);
  }
}
