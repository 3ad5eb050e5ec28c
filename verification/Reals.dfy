/** Order and products of real numbers. */
module Reals {
  function Min(a: real, b: real): real {
    if b < a then b else a
  }

  function Max(a: real, b: real): real {
    if a < b then b else a
  }

  function Abs(a: real): real {
    if a < 0.0 then -a else a
  }

  /** A product by name: where it is hidden, proofs are about its terms only through lemmas. */
  function Times(a: real, b: real): real {
    a * b
  }

  function Over(a: real, b: real): real
    requires b != 0.0
  {
    a / b
  }

  lemma PositiveProduct(x: real, y: real)
    requires x > 0.0 && y > 0.0
    ensures x * y > 0.0
  {
  }

  lemma SignOfProduct(x: real, y: real)
    ensures x > 0.0 && y > 0.0 ==> x * y > 0.0
    ensures x > 0.0 && y < 0.0 ==> x * y < 0.0
    ensures x < 0.0 && y > 0.0 ==> x * y < 0.0
    ensures x < 0.0 && y < 0.0 ==> x * y > 0.0
    ensures x == 0.0 || y == 0.0 ==> x * y == 0.0
  {
    var u, v := -x, -y;
    assert u * y == -(x * y) && x * v == -(x * y) && u * v == x * y;
    if x > 0.0 && y > 0.0 {
      PositiveProduct(x, y);
    } else if x > 0.0 && y < 0.0 {
      PositiveProduct(x, v);
    } else if x < 0.0 && y > 0.0 {
      PositiveProduct(u, y);
    } else if x < 0.0 && y < 0.0 {
      PositiveProduct(u, v);
    }
  }

  lemma SignOfTimes(x: real, y: real)
    ensures x > 0.0 && y > 0.0 ==> Times(x, y) > 0.0
    ensures x > 0.0 && y < 0.0 ==> Times(x, y) < 0.0
    ensures x < 0.0 && y > 0.0 ==> Times(x, y) < 0.0
    ensures x < 0.0 && y < 0.0 ==> Times(x, y) > 0.0
    ensures x == 0.0 || y == 0.0 ==> Times(x, y) == 0.0
  {
    SignOfProduct(x, y);
  }

  /** What is left of `d` beside the fraction `t` of it. */
  lemma RestOfTimes(t: real, d: real)
    ensures Times(1.0 - t, d) == d - Times(t, d)
  {
  }

  lemma SquareNonNegative(a: real)
    ensures a * a >= 0.0
  {
    SignOfProduct(a, a);
  }

  /** Multiplying by a number that is not negative keeps an order. */
  lemma ScaledOrder(k: real, a: real, b: real)
    requires k >= 0.0
    ensures a <= b ==> k * a <= k * b
    ensures k > 0.0 ==> (k * a < k * b <==> a < b)
  {
    var d := b - a;
    SignOfProduct(k, d);
    assert k * d == k * b - k * a;
  }

  lemma TimesInOrder(k: real, a: real, b: real)
    requires k >= 0.0
    ensures a <= b ==> Times(k, a) <= Times(k, b)
    ensures k > 0.0 ==> (Times(k, a) < Times(k, b) <==> a < b)
  {
    hide Times;
    SignOfTimes(k, b - a);
    DifferenceOfTimes(k, a, b);
  }

  lemma DifferenceOfTimes(k: real, a: real, b: real)
    ensures Times(k, b - a) == Times(k, b) - Times(k, a)
  {
  }

  lemma TimesIs(a: real, b: real)
    ensures Times(a, b) == b * a
  {
  }

  lemma Reciprocal(s: real)
    requires s > 0.0
    ensures Over(1.0, s) > 0.0 && Times(s, Over(1.0, s)) == 1.0
  {
    var u := 1.0 / s;
    QuotientTimes(1.0, s);
    SignOfProduct(u, s);
    assert s * u == u * s;
  }

  lemma SquaresInOrder(a: real, b: real)
    requires 0.0 <= b
    ensures a * a <= b * b ==> a <= b
    ensures 0.0 <= a && a <= b ==> a * a <= b * b
    ensures 0.0 <= a && a < b ==> a * a < b * b
  {
    var d, s := a - b, a + b;
    assert a * a - b * b == d * s;
    SignOfProduct(d, s);
  }

  lemma QuotientTimes(n: real, d: real)
    requires d != 0.0
    ensures (n / d) * d == n
  {
  }
}
