/** The fraction a key denotes: string order on valid keys is the order of those fractions. */
module KeyValues {
  import opened Wrappers
  import opened Text
  import opened FractionalIndexing
  import opened KeyMinting

  /** The base-N fraction 0.d1d2d3... whose digits are the ranks of the units. */
  ghost function Fraction(ix: Indexer, key: Str): real
    requires ix.Valid() && ix.InAlphabet(key)
  {
    if key == [] then 0.0
    else Divide(ix.rankByChar[key[0]] as real + Fraction(ix, key[1..]), |ix.alphabet|)
  }

  ghost function Divide(x: real, n: nat): (r: real)
    requires n > 0
    ensures 0.0 <= x < n as real ==> 0.0 <= r < 1.0
    ensures x > 0.0 ==> r > 0.0
    ensures x == 0.0 ==> r == 0.0
  {
    x / (n as real)
  }

  lemma ProductMonotone(x: real, y: real, m: real)
    requires x <= y && m >= 0.0
    ensures x * m <= y * m
  {
    assert (y - x) * m >= 0.0;
  }

  lemma QuotientTimes(x: real, m: real)
    requires m > 0.0
    ensures (x / m) * m == x
  {
  }

  lemma ProductReflects(x: real, y: real, m: real)
    requires x * m < y * m && m >= 0.0
    ensures x < y
  {
    if y <= x {
      ProductMonotone(y, x, m);
    }
  }

  lemma DivideMonotone(x: real, y: real, n: nat)
    requires n > 0 && x < y
    ensures Divide(x, n) < Divide(y, n)
  {
    var m := n as real;
    QuotientTimes(x, m);
    QuotientTimes(y, m);
    ProductReflects(x / m, y / m, m);
  }

  /** Fractions lie in [0, 1), and only a string of zeros denotes 0. */
  lemma {:induction false} FractionBounds(ix: Indexer, key: Str)
    requires ix.Valid() && ix.InAlphabet(key)
    ensures 0.0 <= Fraction(ix, key) < 1.0
    ensures key != [] && key[|key| - 1] != ix.zero ==> Fraction(ix, key) > 0.0
  {
    if key != [] {
      FractionBounds(ix, key[1..]);
      if key[|key| - 1] != ix.zero && |key| == 1 {
        ix.RankOrder(key[0], ix.zero);
      }
    }
  }

  /** A smaller string denotes a smaller fraction, as long as the greater one is well-formed. */
  lemma {:induction false} OrderOfFractions(ix: Indexer, a: Str, b: Str)
    requires ix.Valid() && ix.InAlphabet(a) && ix.WellFormed(b) && Less(a, b)
    ensures Fraction(ix, a) < Fraction(ix, b)
  {
    if a == [] {
      FractionBounds(ix, b);
    } else {
      var x := ix.rankByChar[a[0]] as real + Fraction(ix, a[1..]);
      var y := ix.rankByChar[b[0]] as real + Fraction(ix, b[1..]);
      FractionBounds(ix, a[1..]);
      FractionBounds(ix, b[1..]);
      ix.RankOrder(a[0], b[0]);
      if a[0] == b[0] {
        OrderOfFractions(ix, a[1..], b[1..]);
      }
      DivideMonotone(x, y, |ix.alphabet|);
    }
  }

  /** On keys, string order and fraction order coincide, so distinct keys are distinct fractions. */
  lemma StringOrderIsFractionOrder(ix: Indexer, a: Str, b: Str)
    requires ix.Valid() && ix.WellFormed(a) && ix.WellFormed(b)
    ensures Less(a, b) <==> Fraction(ix, a) < Fraction(ix, b)
    ensures a == b <==> Fraction(ix, a) == Fraction(ix, b)
  {
    LessTotal(a, b);
    LessIrreflexive(a);
    if Less(a, b) {
      OrderOfFractions(ix, a, b);
    } else if Less(b, a) {
      OrderOfFractions(ix, b, a);
    }
  }

  /** Without the no-trailing-zero rule both directions fail: `p` and `p0` are the same fraction. */
  lemma {:induction false} TrailingZeroIsSameFraction(ix: Indexer, p: Str)
    requires ix.Valid() && ix.InAlphabet(p)
    ensures ix.InAlphabet(p + [ix.zero])
    ensures Less(p, p + [ix.zero]) && Fraction(ix, p + [ix.zero]) == Fraction(ix, p)
  {
    ix.RankOf(0);
    LessThanExtension(p, [ix.zero]);
    if p == [] {
      assert p + [ix.zero] == [ix.zero];
      assert Fraction(ix, [ix.zero][1..]) == 0.0;
    } else {
      TrailingZeroIsSameFraction(ix, p[1..]);
      assert (p + [ix.zero])[1..] == p[1..] + [ix.zero];
    }
  }

  /** A minted key is numerically between its neighbours; open ends stand for 0 and 1. */
  lemma MintedFractionIsBetween(ix: Indexer, prev: Option<Str>, next: Option<Str>)
    requires ix.Valid() && ProperBounds(ix, prev, next)
    ensures var r := ix.IntermediateKey(prev, next);
      && r.Success? && ix.WellFormed(r.value)
      && (if prev.Some? then ix.WellFormed(prev.value) && Fraction(ix, prev.value) < Fraction(ix, r.value)
          else 0.0 < Fraction(ix, r.value))
      && (if next.Some? then ix.WellFormed(next.value) && Fraction(ix, r.value) < Fraction(ix, next.value)
          else Fraction(ix, r.value) < 1.0)
  {
    IntermediateKeyIsBetween(ix, prev, next);
    var key := ix.IntermediateKey(prev, next).value;
    FractionBounds(ix, key);
    if prev.Some? {
      ix.ValidKeyIff(prev.value);
      StringOrderIsFractionOrder(ix, prev.value, key);
    }
    if next.Some? {
      ix.ValidKeyIff(next.value);
      StringOrderIsFractionOrder(ix, key, next.value);
    }
  }
}
