/** The few facts about products and quotients of reals the other proofs lean on. */
module Arithmetic {

  lemma Distribute(a: real, x: real, y: real)
    ensures a * (x + y) == a * x + a * y
    ensures a * (x - y) == a * x - a * y
  {
  }

  lemma ProductSign(x: real, w: real)
    requires w > 0.0
    ensures x * w >= 0.0 <==> x >= 0.0
    ensures x * w > 0.0 <==> x > 0.0
  {
  }

  lemma NonNegativeProduct(x: real, y: real)
    requires x >= 0.0 && y >= 0.0
    ensures x * y >= 0.0
  {
    if x > 0.0 {
      ProductSign(y, x);
    }
  }

  lemma Ordered(w: real, x: real, y: real)
    requires w >= 0.0 && x <= y
    ensures w * x <= w * y && x * w <= y * w
  {
    Distribute(w, y, x);
    if w > 0.0 {
      ProductSign(y - x, w);
    }
  }

  lemma QuotientAtLeast(a: real, w: real, lo: real)
    requires w > 0.0 && lo * w <= a
    ensures lo <= a / w
  {
    var q := a / w;
    assert q * w == a;
    Distribute(w, q, lo);
    ProductSign(q - lo, w);
  }

  lemma QuotientAtMost(a: real, w: real, hi: real)
    requires w > 0.0 && a <= hi * w
    ensures a / w <= hi
  {
    var q := a / w;
    assert q * w == a;
    Distribute(w, hi, q);
    ProductSign(hi - q, w);
  }

  lemma QuotientOrdered(a: real, b: real, w: real)
    requires w > 0.0 && a <= b
    ensures a / w <= b / w
  {
    assert (b / w) * w == b;
    QuotientAtMost(a, w, b / w);
  }

  lemma QuotientAdd(a: real, b: real, w: real)
    requires w != 0.0
    ensures (a + b) / w == a / w + b / w
  {
  }

  lemma QuotientOf(c: real, w: real)
    requires w != 0.0
    ensures c * w / w == c
  {
  }

  function Times(x: real, y: real): real { x * y }

  function Square(x: real): real { Times(x, x) }

  lemma TimesSigns(x: real, y: real)
    ensures x > 0.0 && y > 0.0 ==> Times(x, y) > 0.0
    ensures x < 0.0 && y < 0.0 ==> Times(x, y) > 0.0
    ensures x == 0.0 ==> Times(x, y) == 0.0
  {
    if x > 0.0 && y > 0.0 {
      ProductSign(x, y);
    } else if x < 0.0 && y < 0.0 {
      ProductSign(-x, -y);
      assert x * y == -x * -y;
    }
  }

  lemma SquareNonNegative(x: real)
    ensures Square(x) >= 0.0
    ensures x == 0.0 || Square(x) > 0.0
  {
    hide Times;
    TimesSigns(x, x);
  }
}
