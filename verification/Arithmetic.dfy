/** The few facts about products and quotients that the key spacing rests on. */
module Arithmetic {

  lemma ProductMonotone(x: nat, y: nat, m: nat)
    requires x <= y
    ensures x * m <= y * m
  {
    assert (y - x) * m >= 0;
  }

  lemma QuotientFits(value: nat, base: nat, p: nat)
    requires base > 0 && value < base * p
    ensures value / base < p
  {
    if value / base >= p {
      ProductMonotone(p, value / base, base);
    }
  }

  lemma QuotientUnique(x: nat, g: nat, q: nat, r: nat)
    requires g > 0 && r < g && x == g * q + r
    ensures x / g == q && x % g == r
  {
    var p := x / g;
    if p < q {
      ProductMonotone(p + 1, q, g);
    } else if q < p {
      ProductMonotone(q + 1, p, g);
    }
  }

  lemma QuotientMonotone(x: nat, y: nat, g: nat)
    requires g > 0 && x <= y
    ensures x / g <= y / g
  {
    if x / g > y / g {
      ProductMonotone(y / g + 1, x / g, g);
    }
  }

  lemma QuotientPlusTwo(x: nat, g: nat)
    requires g > 0
    ensures (x + 2 * g) / g == x / g + 2
  {
    var q, r := x / g, x % g;
    assert x + 2 * g == g * (q + 2) + r;
    QuotientUnique(x + 2 * g, g, q + 2, r);
  }

  /** Comparing two-part numbers: the high parts decide, then the digits. */
  lemma DigitOrder(p: nat, d: nat, q: nat, e: nat, base: nat)
    requires d < base && e < base
    ensures Compose(p, d, base) < Compose(q, e, base) <==> p < q || (p == q && d < e)
    ensures Compose(p, d, base) == Compose(q, e, base) <==> p == q && d == e
  {
    if p < q {
      ProductMonotone(p + 1, q, base);
      assert (p + 1) * base == p * base + base;
    } else if q < p {
      ProductMonotone(q + 1, p, base);
      assert (q + 1) * base == q * base + base;
    }
  }

  /** The number with leading part `q` and last digit `d`. */
  function Compose(q: nat, d: nat, base: nat): nat {
    q * base + d
  }

  /** `v / base` by repeated subtraction, which keeps nested quotients out of the solver's sight. */
  function LeadingPart(v: nat, base: nat): nat
    requires base > 0
  {
    if v < base then 0 else 1 + LeadingPart(v - base, base)
  }

  /** `v % base` likewise. */
  function LastDigit(v: nat, base: nat): (d: nat)
    requires base > 0
    ensures d < base
  {
    if v < base then v else LastDigit(v - base, base)
  }

  lemma {:induction false} SplitAndCompose(v: nat, base: nat)
    requires base > 0
    ensures v == Compose(LeadingPart(v, base), LastDigit(v, base), base)
    decreases v
  {
    if v >= base {
      SplitAndCompose(v - base, base);
      var q := LeadingPart(v - base, base);
      assert (1 + q) * base == q * base + base;
    }
  }

  lemma QuotientAndRemainder(v: nat, base: nat)
    requires base > 0
    ensures LeadingPart(v, base) == v / base && LastDigit(v, base) == v % base
  {
    SplitAndCompose(v, base);
    QuotientUnique(v, base, LeadingPart(v, base), LastDigit(v, base));
  }
}
