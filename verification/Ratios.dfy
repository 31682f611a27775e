/** Facts about quotients of reals, each on its own so that the solver meets one product at a time. */
module Ratios {

  function Quotient(e: real, d: real): real
    requires d > 0.0
  {
    e / d
  }

  lemma QuotientIsProduct(e: real, d: real)
    requires d > 0.0
    ensures e * (1.0 / d) == e / d
  {
  }

  lemma QuotientTimes(e: real, d: real)
    requires d > 0.0
    ensures e / d * d == e
  {
  }

  lemma QuotientUnique(e: real, d: real, q: real)
    requires d > 0.0 && q * d == e
    ensures q == e / d
  {
  }

  lemma QuotientOrder(a: real, b: real, d: real)
    requires d > 0.0
    ensures a <= b <==> a / d <= b / d
    ensures a < b <==> a / d < b / d
  {
    var x, y := a / d, b / d;
    QuotientTimes(a, d);
    QuotientTimes(b, d);
    if x < y {
      ProductOrderStrict(x, y, d);
    } else if y < x {
      ProductOrderStrict(y, x, d);
    }
  }

  lemma ProductOrder(a: real, b: real, d: real)
    requires a <= b && d >= 0.0
    ensures a * d <= b * d
  {
  }

  lemma QuotientSum(a: real, b: real, d: real)
    requires d > 0.0
    ensures (a + b) / d == a / d + b / d
  {
  }

  lemma QuotientSign(e: real, d: real)
    requires d > 0.0
    ensures e >= 0.0 <==> e / d >= 0.0
    ensures e > 0.0 <==> e / d > 0.0
    ensures d / d == 1.0
  {
    QuotientOrder(0.0, e, d);
    QuotientOrder(e, 0.0, d);
  }

  /** A larger denominator makes a non-negative quotient smaller. */
  lemma QuotientAntitone(e: real, d: real, d': real)
    requires e >= 0.0 && 0.0 < d <= d'
    ensures e / d' <= e / d
  {
    var q := e / d';
    QuotientSign(e, d');
    QuotientTimes(e, d');
    ProductOrder(d, d', q);
    assert q * d <= e;
    QuotientTimes(e, d);
    if e / d < q {
      ProductOrderStrict(e / d, q, d);
    }
  }

  lemma ProductOrderStrict(a: real, b: real, d: real)
    requires a < b && d > 0.0
    ensures a * d < b * d
  {
  }

  /** Dividing numerator and denominator by the same number changes nothing. */
  lemma QuotientOfQuotients(e: real, s: real, d: real)
    requires s > 0.0 && d > 0.0
    ensures s / d > 0.0
    ensures (e / d) / (s / d) == e / s
    ensures (e / d) * (1.0 / (s / d)) == e / s
  {
    QuotientSign(s, d);
    var x, y := e / d, s / d;
    QuotientTimes(e, d);
    QuotientTimes(s, d);
    QuotientIsProduct(x, y);
    var q := x / y;
    QuotientTimes(x, y);
    Rearrange(q, y, d);
    assert q * s == e;
    QuotientUnique(e, s, q);
  }

  lemma Rearrange(q: real, y: real, d: real)
    ensures (q * y) * d == q * (y * d)
  {
  }
}
