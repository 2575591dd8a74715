/**
 * `rebalance`: spreading a column over fixed-width keys. The spacing division, the nudge off a
 * trailing zero, the repair that never fires, and the fixed-width encoder.
 */
module KeyRebalancing {
  import opened Arithmetic
  import opened Wrappers
  import opened Text
  import opened FractionalIndexing

  /** `Number.MAX_SAFE_INTEGER`. */
  const MAX_SAFE_INTEGER := 9007199254740991

  function Pow(base: nat, exponent: nat): nat {
    if exponent == 0 then 1 else base * Pow(base, exponent - 1)
  }

  lemma {:induction false} PowGrows(base: nat, exponent: nat)
    requires base >= 2
    ensures Pow(base, exponent) > 0 && Pow(base, exponent + 1) >= 2 * Pow(base, exponent)
  {
    if exponent > 0 {
      PowGrows(base, exponent - 1);
    }
    assert (base - 2) * Pow(base, exponent) >= 0;
  }

  // --- encodeFixed -----------------------------------------------------------

  /** Big-endian digits of `value`, padded or cut to `length` units. */
  function EncodeFixed(ix: Indexer, value: nat, length: nat): (s: Str)
    requires ix.Valid()
    ensures |s| == length
    decreases length
  {
    if length == 0 then []
    else
      EncodeFixed(ix, LeadingPart(value, |ix.alphabet|), length - 1) +
      [ix.alphabet[LastDigit(value, |ix.alphabet|)]]
  }

  /** The number that a string of digits spells. */
  ghost function Decode(ix: Indexer, s: Str): nat
    requires ix.Valid() && ix.InAlphabet(s)
    decreases |s|
  {
    if s == [] then 0
    else Compose(Decode(ix, s[..|s| - 1]), ix.rankByChar[s[|s| - 1]], |ix.alphabet|)
  }

  /** `encodeFixed` as written: an array filled from its last cell. */
  method EncodeFixedLoop(ix: Indexer, value: nat, length: nat) returns (s: Str)
    requires ix.Valid()
    ensures s == EncodeFixed(ix, value, length)
  {
    var base := |ix.alphabet|;
    var chars := new CodeUnit[length];
    var v: nat := value;
    var i := length;
    while i > 0
      invariant i <= length
      invariant EncodeFixed(ix, value, length) == EncodeFixed(ix, v, i) + chars[i..]
    {
      var digit, rest := v % base, v / base;
      QuotientAndRemainder(v, base);
      EncodeStep(ix, v, i, chars[i..]);
      ghost var tail := chars[i..];
      i := i - 1;
      chars[i] := ix.alphabet[digit];
      assert chars[i..] == [ix.alphabet[digit]] + tail;
      v := rest;
    }
    s := chars[..];
  }

  lemma EncodeStep(ix: Indexer, v: nat, i: nat, tail: Str)
    requires ix.Valid() && i > 0
    ensures EncodeFixed(ix, v, i) + tail ==
            EncodeFixed(ix, LeadingPart(v, |ix.alphabet|), i - 1) +
            ([ix.alphabet[LastDigit(v, |ix.alphabet|)]] + tail)
  {
  }

  lemma LeadingPartFits(value: nat, base: nat, length: nat)
    requires base > 0 && length > 0 && value < Pow(base, length)
    ensures LeadingPart(value, base) < Pow(base, length - 1)
  {
    QuotientAndRemainder(value, base);
    QuotientFits(value, base, Pow(base, length - 1));
  }

  /** Decoding inverts the encoder on every value that fits the width. */
  lemma {:induction false} DecodeEncode(ix: Indexer, value: nat, length: nat)
    requires ix.Valid() && value < Pow(|ix.alphabet|, length)
    ensures ix.InAlphabet(EncodeFixed(ix, value, length))
    ensures Decode(ix, EncodeFixed(ix, value, length)) == value
    decreases length
  {
    if length > 0 {
      var rest, digit := LeadingPart(value, |ix.alphabet|), LastDigit(value, |ix.alphabet|);
      LeadingPartFits(value, |ix.alphabet|, length);
      SplitAndCompose(value, |ix.alphabet|);
      DecodeEncode(ix, rest, length - 1);
      DecodeSnoc(ix, EncodeFixed(ix, rest, length - 1), rest, digit, value);
    }
  }

  lemma DecodeSnoc(ix: Indexer, s: Str, rest: nat, digit: nat, value: nat)
    requires ix.Valid() && ix.InAlphabet(s) && digit < |ix.alphabet|
    requires Decode(ix, s) == rest && value == Compose(rest, digit, |ix.alphabet|)
    ensures ix.InAlphabet(s + [ix.alphabet[digit]])
    ensures Decode(ix, s + [ix.alphabet[digit]]) == value
  {
    ix.RankOf(digit);
    var t := s + [ix.alphabet[digit]];
    assert t[..|t| - 1] == s;
  }

  /** Appending one unit to strings of equal length. */
  lemma {:induction false} LessSnoc(a: Str, x: CodeUnit, b: Str, y: CodeUnit)
    requires |a| == |b|
    ensures Less(a + [x], b + [y]) <==> Less(a, b) || (a == b && x < y)
  {
    if a != [] {
      LessSnoc(a[1..], x, b[1..], y);
      assert (a + [x])[1..] == a[1..] + [x] && (b + [y])[1..] == b[1..] + [y];
      assert a == [a[0]] + a[1..] && b == [b[0]] + b[1..];
      if a[0] == b[0] && a[1..] == b[1..] {
        LessIrreflexive(a);
      }
    }
  }

  lemma DecodeOneMore(ix: Indexer, s: Str, x: CodeUnit)
    requires ix.Valid() && ix.InAlphabet(s) && ix.InAlphabet(s + [x])
    ensures x in ix.rankByChar && ix.rankByChar[x] < |ix.alphabet|
    ensures Decode(ix, s + [x]) == Compose(Decode(ix, s), ix.rankByChar[x], |ix.alphabet|)
  {
    assert (s + [x])[..|s|] == s && (s + [x])[|s|] == x;
  }

  lemma SameSnoc(a: Str, x: CodeUnit, b: Str, y: CodeUnit)
    requires |a| == |b|
    ensures a + [x] == b + [y] <==> a == b && x == y
  {
    assert (a + [x])[..|a|] == a && (b + [y])[..|b|] == b;
    assert (a + [x])[|a|] == x && (b + [y])[|b|] == y;
  }

  /** One more digit on both sides. */
  lemma DigitDecides(ix: Indexer, a: Str, x: CodeUnit, b: Str, y: CodeUnit)
    requires ix.Valid() && ix.InAlphabet(a + [x]) && ix.InAlphabet(b + [y]) && |a| == |b|
    requires ix.InAlphabet(a) && ix.InAlphabet(b)
    requires Less(a, b) <==> Decode(ix, a) < Decode(ix, b)
    requires a == b <==> Decode(ix, a) == Decode(ix, b)
    ensures Less(a + [x], b + [y]) <==> Decode(ix, a + [x]) < Decode(ix, b + [y])
    ensures a + [x] == b + [y] <==> Decode(ix, a + [x]) == Decode(ix, b + [y])
  {
    DecodeOneMore(ix, a, x);
    DecodeOneMore(ix, b, y);
    SameSnoc(a, x, b, y);
    LessSnoc(a, x, b, y);
    ix.RankOrder(x, y);
    DigitOrder(Decode(ix, a), ix.rankByChar[x], Decode(ix, b), ix.rankByChar[y], |ix.alphabet|);
  }

  /** At one width, string order is numeric order. */
  lemma {:induction false} FixedWidthOrder(ix: Indexer, a: Str, b: Str)
    requires ix.Valid() && ix.InAlphabet(a) && ix.InAlphabet(b) && |a| == |b|
    ensures Less(a, b) <==> Decode(ix, a) < Decode(ix, b)
    ensures a == b <==> Decode(ix, a) == Decode(ix, b)
    decreases |a|
  {
    if a != [] {
      var a', x, b', y := a[..|a| - 1], a[|a| - 1], b[..|b| - 1], b[|b| - 1];
      FixedWidthOrder(ix, a', b');
      assert a == a' + [x] && b == b' + [y];
      DigitDecides(ix, a', x, b', y);
    }
  }

  // --- spacing ---------------------------------------------------------------

  /** The `k`-th of `count` evenly spaced slots. */
  function RawPick(k: nat, count: nat, capacity: nat): nat {
    LeadingPart((k + 1) * capacity, count + 1)
  }

  /** The slot moved off a trailing zero digit. */
  function Pick(base: nat, k: nat, count: nat, capacity: nat): nat
    requires base > 0
  {
    var value := RawPick(k, count, capacity);
    if LastDigit(value, base) == 0 then value + 1 else value
  }

  /** Enough capacity keeps raw picks two slots apart and off the last slot. */
  lemma RawPicksAreSpaced(k: nat, count: nat, capacity: nat)
    requires k < count && capacity >= 2 * (count + 1)
    ensures 2 <= RawPick(k, count, capacity) <= capacity - 2
    ensures RawPick(k, count, capacity) + 2 <= RawPick(k + 1, count, capacity)
  {
    var g, x := count + 1, (k + 1) * capacity;
    QuotientAndRemainder(x, g);
    QuotientAndRemainder((k + 2) * capacity, g);
    assert (k + 2) * capacity == x + capacity;
    QuotientPlusTwo(x, g);
    QuotientMonotone(x + 2 * g, x + capacity, g);
    assert k * capacity >= 0 && x == k * capacity + capacity;
    QuotientPlusTwo(0, g);
    QuotientMonotone(2 * g, x, g);
    LastPickFits(k, count, capacity);
  }

  lemma LastPickFits(k: nat, count: nat, capacity: nat)
    requires k < count && capacity >= 2 * (count + 1)
    ensures RawPick(k, count, capacity) <= capacity - 2
  {
    var g := count + 1;
    QuotientAndRemainder((k + 1) * capacity, g);
    LastProductFits(k, count, capacity);
    QuotientMonotone((k + 1) * capacity, g * (capacity - 2), g);
    QuotientUnique(g * (capacity - 2), g, capacity - 2, 0);
  }

  lemma LastProductFits(k: nat, count: nat, capacity: nat)
    requires k < count && capacity >= 2 * (count + 1)
    ensures (k + 1) * capacity <= (count + 1) * (capacity - 2)
  {
    ProductMonotone(k + 1, count, capacity);
    assert (count + 1) * (capacity - 2) == count * capacity + capacity - 2 * (count + 1);
  }

  /** Nudged picks still increase strictly, stay below the capacity, and never end in zero. */
  lemma PicksIncrease(base: nat, k: nat, count: nat, capacity: nat)
    requires base >= 2 && k < count && capacity >= 2 * (count + 1)
    ensures 0 < Pick(base, k, count, capacity) < capacity
    ensures LastDigit(Pick(base, k, count, capacity), base) != 0
    ensures k + 1 < count ==> Pick(base, k, count, capacity) < Pick(base, k + 1, count, capacity)
  {
    RawPicksAreSpaced(k, count, capacity);
    var value := RawPick(k, count, capacity);
    if LastDigit(value, base) == 0 {
      NudgeLeavesRemainderOne(value, base);
    }
  }

  lemma NudgeLeavesRemainderOne(value: nat, base: nat)
    requires base >= 2 && LastDigit(value, base) == 0
    ensures LastDigit(value + 1, base) == 1
  {
    SplitAndCompose(value, base);
    QuotientUnique(value + 1, base, LeadingPart(value, base), 1);
    QuotientAndRemainder(value + 1, base);
  }

  lemma {:induction false} PicksIncreaseFar(base: nat, i: nat, j: nat, count: nat, capacity: nat)
    requires base >= 2 && i < j < count && capacity >= 2 * (count + 1)
    ensures Pick(base, i, count, capacity) < Pick(base, j, count, capacity)
    decreases j
  {
    PicksIncrease(base, j - 1, count, capacity);
    if i < j - 1 {
      PicksIncreaseFar(base, i, j - 1, count, capacity);
    }
  }

  // --- rebalance -------------------------------------------------------------

  /** The `count` keys of one width that `rebalance` mints. */
  function SpreadKeys(ix: Indexer, count: nat, width: nat): seq<Str>
    requires ix.Valid()
  {
    seq(count, k requires 0 <= k < count =>
      EncodeFixed(ix, Pick(|ix.alphabet|, k, count, Pow(|ix.alphabet|, width)), width))
  }

  /** The least width from `length` on whose key space holds `required` slots. */
  function FitWidth(base: nat, required: nat, length: nat): Result<nat, IndexerError>
    requires base >= 2
    decreases required - Pow(base, length)
  {
    PowGrows(base, length);
    if Pow(base, length) >= required then Success(length)
    else if Pow(base, length + 1) > MAX_SAFE_INTEGER then Failure(UnsafeKeySpace)
    else FitWidth(base, required, length + 1)
  }

  /** The width `rebalance` settles on, or the throw it ends in. */
  function ChooseWidth(base: nat, count: nat, targetLength: Option<int>): Result<nat, IndexerError>
    requires base >= 2
  {
    if targetLength.None? then FitWidth(base, 2 * (count + 1), 2)
    else if targetLength.value < 2 then Failure(InvalidTargetLength)
    else if Pow(base, targetLength.value) > MAX_SAFE_INTEGER then Failure(UnsafeKeySpace)
    else if Pow(base, targetLength.value) < 2 * (count + 1) then Failure(TargetLengthTooSmall)
    else Success(targetLength.value)
  }

  function Rebalanced(ix: Indexer, count: int, targetLength: Option<int>): Result<seq<Str>, IndexerError>
    requires ix.Valid()
  {
    if count < 0 then Failure(InvalidCount)
    else if count == 0 then Success([])
    else
      var width := ChooseWidth(|ix.alphabet|, count, targetLength);
      if width.Failure? then Failure(width.error)
      else Success(SpreadKeys(ix, count, width.value))
  }

  method PowLoop(base: nat, exponent: nat) returns (p: nat)
    ensures p == Pow(base, exponent)
  {
    p := 1;
    for i := 0 to exponent
      invariant p == Pow(base, i)
    {
      p := base * p;
    }
  }

  /** The division and the nudge of one turn of the loop, with the operators of the source. */
  method NudgedPick(base: nat, k: nat, count: nat, capacity: nat) returns (value: int)
    requires base > 0
    ensures value == Pick(base, k, count, capacity)
  {
    value := (k + 1) * capacity / (count + 1);
    QuotientAndRemainder((k + 1) * capacity, count + 1);
    QuotientAndRemainder(value, base);
    if value % base == 0 {
      value := value + 1;
    }
  }

  /** The first keys of a spread column. */
  ghost predicate SpreadSoFar(ix: Indexer, keys: seq<Str>, count: nat, length: nat, capacity: nat)
    requires ix.Valid() && capacity >= 2 * (count + 1)
  {
    && |keys| <= count
    && forall i :: 0 <= i < |keys| ==> keys[i] == EncodeFixed(ix, Pick(|ix.alphabet|, i, count, capacity), length)
  }

  lemma SpreadOneMore(ix: Indexer, keys: seq<Str>, count: nat, length: nat, capacity: nat)
    requires ix.Valid() && capacity >= 2 * (count + 1) && |keys| < count
    requires SpreadSoFar(ix, keys, count, length, capacity)
    ensures SpreadSoFar(ix, keys + [EncodeFixed(ix, Pick(|ix.alphabet|, |keys|, count, capacity), length)],
                        count, length, capacity)
  {
  }

  /**
   * The minting loop of `rebalance`. The repair against `previousValue` is kept, and the loop
   * invariant shows that it never changes a pick.
   */
  method SpreadLoop(ix: Indexer, count: nat, length: nat, capacity: nat) returns (keys: seq<Str>)
    requires ix.Valid() && capacity == Pow(|ix.alphabet|, length) && capacity >= 2 * (count + 1)
    ensures keys == SpreadKeys(ix, count, length)
  {
    var base := |ix.alphabet|;
    keys := [];
    var previousValue: int := -1;
    for k := 0 to count
      invariant |keys| == k && SpreadSoFar(ix, keys, count, length, capacity)
      invariant previousValue == if k == 0 then -1 else Pick(base, k - 1, count, capacity)
    {
      var value := RepairedPick(base, k, count, capacity, previousValue);
      previousValue := value;
      var key := EncodeFixedLoop(ix, value, length);
      SpreadOneMore(ix, keys, count, length, capacity);
      keys := keys + [key];
    }
  }

  /** One pick with its repair; after the previous pick, the repair has nothing to do. */
  method RepairedPick(base: nat, k: nat, count: nat, capacity: nat, previousValue: int) returns (value: int)
    requires base > 1 && k < count && capacity >= 2 * (count + 1)
    requires previousValue == if k == 0 then -1 else Pick(base, k - 1, count, capacity)
    ensures value == Pick(base, k, count, capacity)
  {
    value := NudgedPick(base, k, count, capacity);
    if k > 0 {
      PicksIncrease(base, k - 1, count, capacity);
    }
    if value <= previousValue {
      value := previousValue + 1;
    }
  }

  /** `rebalance` as written: the checks in their order, the widening loop, then the minting loop. */
  method Rebalance(ix: Indexer, count: int, targetLength: Option<int>)
    returns (r: Result<seq<Str>, IndexerError>)
    requires ix.Valid()
    ensures r == Rebalanced(ix, count, targetLength)
  {
    if count < 0 {
      return Failure(InvalidCount);
    }
    if count == 0 {
      return Success([]);
    }
    if targetLength.Some? && targetLength.value < 2 {
      return Failure(InvalidTargetLength);
    }
    var base := |ix.alphabet|;
    var required := 2 * (count + 1);
    var length: nat := if targetLength.Some? then targetLength.value else 2;
    var capacity := PowLoop(base, length);
    if targetLength.None? {
      while capacity < required
        invariant capacity == Pow(base, length)
        invariant FitWidth(base, required, 2) == FitWidth(base, required, length)
        decreases required - capacity
      {
        PowGrows(base, length);
        length := length + 1;
        capacity := PowLoop(base, length);
        if capacity > MAX_SAFE_INTEGER {
          return Failure(UnsafeKeySpace);
        }
      }
    } else {
      if capacity > MAX_SAFE_INTEGER {
        return Failure(UnsafeKeySpace);
      }
      if capacity < required {
        return Failure(TargetLengthTooSmall);
      }
    }
    var keys := SpreadLoop(ix, count, length, capacity);
    r := Success(keys);
  }

  /** An accepted width has room for two slots per gap, and without a target it is the least such. */
  lemma {:induction false} FitWidthIsLeast(base: nat, required: nat, length: nat)
    requires base >= 2 && length >= 2
    ensures var w := FitWidth(base, required, length);
      && (w.Success? ==>
            && w.value >= length
            && Pow(base, w.value) >= required
            && (w.value > length ==>
                  Pow(base, w.value - 1) < required && Pow(base, w.value) <= MAX_SAFE_INTEGER))
      && (w.Failure? ==>
            && w.error == UnsafeKeySpace
            && exists l :: l >= length && Pow(base, l) < required && MAX_SAFE_INTEGER < Pow(base, l + 1))
    decreases required - Pow(base, length)
  {
    PowGrows(base, length);
    if Pow(base, length) < required && Pow(base, length + 1) <= MAX_SAFE_INTEGER {
      FitWidthIsLeast(base, required, length + 1);
    }
  }

  ghost predicate StrictlySorted(keys: seq<Str>) {
    forall i, j :: 0 <= i < j < |keys| ==> Less(keys[i], keys[j])
  }

  /**
   * Whatever count and width it accepts, `rebalance` returns exactly `count` keys of that one
   * width, each well-formed, strictly increasing as strings, spelling the nudged picks.
   */
  lemma RebalancedKeysAreSpread(ix: Indexer, count: int, targetLength: Option<int>)
    requires ix.Valid()
    ensures var r := Rebalanced(ix, count, targetLength);
      r.Success? ==>
        && |r.value| == count
        && StrictlySorted(r.value)
        && (forall key :: key in r.value ==> ix.WellFormed(key))
        && (ix.PairFree() ==> forall key :: key in r.value ==> ix.IsValidKey(key))
        && (count > 0 ==>
              var w := ChooseWidth(|ix.alphabet|, count, targetLength).value;
              forall k :: 0 <= k < count ==>
                && |r.value[k]| == w
                && ix.InAlphabet(r.value[k])
                && Decode(ix, r.value[k]) == Pick(|ix.alphabet|, k, count, Pow(|ix.alphabet|, w)))
  {
    var r := Rebalanced(ix, count, targetLength);
    if r.Success? && count > 0 {
      var base := |ix.alphabet|;
      FitWidthIsLeast(base, 2 * (count + 1), 2);
      var w := ChooseWidth(base, count, targetLength).value;
      var capacity := Pow(base, w);
      assert capacity >= 2 * (count + 1) && w >= 2;
      forall k | 0 <= k < count
        ensures ix.WellFormed(r.value[k]) && Decode(ix, r.value[k]) == Pick(base, k, count, capacity)
        ensures ix.PairFree() ==> ix.IsValidKey(r.value[k])
      {
        SpreadKeyIsWellFormed(ix, k, count, w);
        if ix.PairFree() {
          ix.PairFreeStrings(r.value[k]);
          ix.ValidKeyIff(r.value[k]);
        }
      }
      forall i, j | 0 <= i < j < count ensures Less(r.value[i], r.value[j]) {
        PicksIncreaseFar(base, i, j, count, capacity);
        FixedWidthOrder(ix, r.value[i], r.value[j]);
      }
    }
  }

  lemma SpreadKeyIsWellFormed(ix: Indexer, k: nat, count: nat, w: nat)
    requires ix.Valid() && k < count && w >= 1 && Pow(|ix.alphabet|, w) >= 2 * (count + 1)
    ensures var base := |ix.alphabet|;
      var key := SpreadKeys(ix, count, w)[k];
      ix.WellFormed(key) && Decode(ix, key) == Pick(base, k, count, Pow(base, w))
  {
    var base := |ix.alphabet|;
    var capacity := Pow(base, w);
    var value := Pick(base, k, count, capacity);
    PicksIncrease(base, k, count, capacity);
    DecodeEncode(ix, value, w);
    ix.RankOf(0);
    var digit := LastDigit(value, base);
    ix.RankOf(digit);
    ix.RankOrder(ix.alphabet[digit], ix.zero);
  }

  // --- even spacing --------------------------------------------------------------

  /** A pick lies within one slot of its share of the key space. */
  lemma PickIsNearShare(base: nat, k: nat, count: nat, capacity: nat)
    requires base > 0
    ensures var d := Pick(base, k, count, capacity);
      (d - 1) * (count + 1) <= (k + 1) * capacity < (d + 1) * (count + 1)
  {
    var g, x := count + 1, (k + 1) * capacity;
    var q, r := LeadingPart(x, g), LastDigit(x, g);
    SplitAndCompose(x, g);
    assert (q - 1) * g == q * g - g && (q + 1) * g == q * g + g && (q + 2) * g == q * g + 2 * g;
  }

  ghost predicate AllDigits(ix: Indexer, keys: seq<Str>) {
    forall key :: key in keys ==> ix.InAlphabet(key)
  }

  /** Where the `k`-th of the keys stands in the key space; its two ends stand before and after them. */
  ghost function Spot(ix: Indexer, keys: seq<Str>, capacity: nat, k: nat): nat
    requires ix.Valid() && AllDigits(ix, keys)
  {
    if k == 0 then 0 else if k <= |keys| then Decode(ix, keys[k - 1]) else capacity
  }

  /** Every spot lies within one slot of its share. */
  ghost predicate NearShares(ix: Indexer, keys: seq<Str>, capacity: nat)
    requires ix.Valid() && AllDigits(ix, keys)
  {
    forall k :: 0 <= k <= |keys| + 1 ==>
      var d := Spot(ix, keys, capacity, k);
      (d - 1) * (|keys| + 1) <= k * capacity < (d + 1) * (|keys| + 1)
  }

  ghost function Gap(ix: Indexer, keys: seq<Str>, capacity: nat, k: nat): int
    requires ix.Valid() && AllDigits(ix, keys)
  {
    Spot(ix, keys, capacity, k + 1) - Spot(ix, keys, capacity, k)
  }

  /** A gap between two such spots is within two slots of an even share. */
  lemma GapNearShare(s: int, t: int, k: nat, g: nat, capacity: nat)
    requires (s - 1) * g <= k * capacity < (s + 1) * g
    requires (t - 1) * g <= (k + 1) * capacity < (t + 1) * g
    ensures (t - s - 2) * g < capacity < (t - s + 2) * g
  {
    assert (k + 1) * capacity == k * capacity + capacity;
    assert (t - 1) * g - (s + 1) * g == (t - s - 2) * g;
    assert (t + 1) * g - (s - 1) * g == (t - s + 2) * g;
  }

  lemma IntProductMonotone(x: int, y: int, g: nat)
    requires x <= y
    ensures x * g <= y * g
  {
    assert (y - x) * g >= 0;
  }

  lemma GapsAreClose(m: int, n: int, g: nat, capacity: nat)
    requires (m - 2) * g < capacity < (n + 2) * g
    ensures m - n <= 3
  {
    if n + 2 <= m - 2 {
      IntProductMonotone(n + 2, m - 2, g);
    }
  }

  ghost predicate EvenGaps(ix: Indexer, keys: seq<Str>, capacity: nat)
    requires ix.Valid() && AllDigits(ix, keys)
  {
    forall i, j :: 0 <= i <= |keys| && 0 <= j <= |keys| ==>
      Gap(ix, keys, capacity, i) - Gap(ix, keys, capacity, j) <= 3
  }

  lemma NearSharesAreEven(ix: Indexer, keys: seq<Str>, capacity: nat, i: nat, j: nat)
    requires ix.Valid() && AllDigits(ix, keys) && NearShares(ix, keys, capacity)
    requires i <= |keys| && j <= |keys|
    ensures Gap(ix, keys, capacity, i) - Gap(ix, keys, capacity, j) <= 3
  {
    var g := |keys| + 1;
    GapNearShare(Spot(ix, keys, capacity, i), Spot(ix, keys, capacity, i + 1), i, g, capacity);
    GapNearShare(Spot(ix, keys, capacity, j), Spot(ix, keys, capacity, j + 1), j, g, capacity);
    GapsAreClose(Gap(ix, keys, capacity, i), Gap(ix, keys, capacity, j), g, capacity);
  }

  lemma EndIsNearShare(capacity: nat, g: nat)
    requires g > 0
    ensures (capacity - 1) * g <= g * capacity < (capacity + 1) * g
  {
  }

  lemma SpotIsNearShare(ix: Indexer, keys: seq<Str>, capacity: nat, k: nat)
    requires ix.Valid() && AllDigits(ix, keys) && k <= |keys| + 1
    requires 1 <= k <= |keys| ==> Decode(ix, keys[k - 1]) == Pick(|ix.alphabet|, k - 1, |keys|, capacity)
    ensures var d := Spot(ix, keys, capacity, k);
      (d - 1) * (|keys| + 1) <= k * capacity < (d + 1) * (|keys| + 1)
  {
    if k == |keys| + 1 {
      EndIsNearShare(capacity, |keys| + 1);
    } else if k > 0 {
      PickIsNearShare(|ix.alphabet|, k - 1, |keys|, capacity);
    }
  }

  lemma PicksAreNearShares(ix: Indexer, keys: seq<Str>, capacity: nat)
    requires ix.Valid() && AllDigits(ix, keys)
    requires forall k :: 0 <= k < |keys| ==> Decode(ix, keys[k]) == Pick(|ix.alphabet|, k, |keys|, capacity)
    ensures NearShares(ix, keys, capacity) && EvenGaps(ix, keys, capacity)
  {
    forall k | 0 <= k <= |keys| + 1
      ensures var d := Spot(ix, keys, capacity, k);
        (d - 1) * (|keys| + 1) <= k * capacity < (d + 1) * (|keys| + 1)
    {
      SpotIsNearShare(ix, keys, capacity, k);
    }
    forall i, j | 0 <= i <= |keys| && 0 <= j <= |keys|
      ensures Gap(ix, keys, capacity, i) - Gap(ix, keys, capacity, j) <= 3
    {
      NearSharesAreEven(ix, keys, capacity, i, j);
    }
  }

  /** The width: as asked, or the least from 2 on that leaves two slots per gap. */
  ghost predicate WidthFits(base: nat, count: nat, targetLength: Option<int>, w: nat) {
    && Pow(base, w) >= 2 * (count + 1)
    && (targetLength.Some? ==> w == targetLength.value && Pow(base, w) <= MAX_SAFE_INTEGER)
    && (targetLength.None? ==> w == 2 || (w > 2 && Pow(base, w - 1) < 2 * (count + 1)))
  }

  lemma ChosenWidthFits(base: nat, count: nat, targetLength: Option<int>)
    requires base >= 2 && ChooseWidth(base, count, targetLength).Success?
    ensures WidthFits(base, count, targetLength, ChooseWidth(base, count, targetLength).value)
  {
    FitWidthIsLeast(base, 2 * (count + 1), 2);
  }

  /**
   * The returned keys split the key space of their width evenly: each stands within one slot of its
   * share, and no two gaps, those at both ends included, differ by more than three slots.
   */
  lemma RebalancedKeysAreEven(ix: Indexer, count: nat, targetLength: Option<int>)
    requires ix.Valid() && count > 0 && Rebalanced(ix, count, targetLength).Success?
    ensures var keys := Rebalanced(ix, count, targetLength).value;
      && |keys| == count && AllDigits(ix, keys)
      && (forall k :: 0 <= k < count ==> |keys[k]| == |keys[0]|)
      && WidthFits(|ix.alphabet|, count, targetLength, |keys[0]|)
      && NearShares(ix, keys, Pow(|ix.alphabet|, |keys[0]|))
      && EvenGaps(ix, keys, Pow(|ix.alphabet|, |keys[0]|))
  {
    var keys := Rebalanced(ix, count, targetLength).value;
    RebalancedKeysAreSpread(ix, count, targetLength);
    ChosenWidthFits(|ix.alphabet|, count, targetLength);
    assert AllDigits(ix, keys);
    PicksAreNearShares(ix, keys, Pow(|ix.alphabet|, |keys[0]|));
  }

  /** It fails only for want of a width, and a forced one must stay within the safe integers. */
  lemma RebalanceSucceedsIff(ix: Indexer, count: int, targetLength: Option<int>)
    requires ix.Valid()
    ensures Rebalanced(ix, count, targetLength).Success? <==>
      || count == 0
      || (count > 0 && exists w: nat ::
            && w >= 2 && WidthFits(|ix.alphabet|, count, targetLength, w)
            && (w > 2 ==> Pow(|ix.alphabet|, w) <= MAX_SAFE_INTEGER))
  {
    var base := |ix.alphabet|;
    if count > 0 {
      FitWidthIsLeast(base, 2 * (count + 1), 2);
      if ChooseWidth(base, count, targetLength).Success? {
        ChosenWidthFits(base, count, targetLength);
      } else if targetLength.None? {
        NoWidthFits(base, count);
      }
    }
  }

  lemma NoWidthFits(base: nat, count: nat)
    requires base >= 2 && FitWidth(base, 2 * (count + 1), 2).Failure?
    ensures forall w: nat :: w >= 2 && Pow(base, w) >= 2 * (count + 1) ==> w > 2 && Pow(base, w) > MAX_SAFE_INTEGER
  {
    FitWidthIsLeast(base, 2 * (count + 1), 2);
    var l :| l >= 2 && Pow(base, l) < 2 * (count + 1) && MAX_SAFE_INTEGER < Pow(base, l + 1);
    forall w: nat | w >= 2 && Pow(base, w) >= 2 * (count + 1) ensures w > 2 && Pow(base, w) > MAX_SAFE_INTEGER {
      if w <= l {
        PowMonotone(base, w, l);
      } else {
        PowMonotone(base, l + 1, w);
      }
    }
  }

  /** Keys of a rebalanced column are always far below the 32 units that trigger the nightly job. */
  lemma RebalancedKeysAreShort(ix: Indexer, count: nat)
    requires ix.Valid() && |ix.alphabet| == 62
    ensures var r := Rebalanced(ix, count, None);
      && (r.Success? ==> forall key :: key in r.value ==> |key| <= 8)
      && (r.Failure? ==> r.error == UnsafeKeySpace && 2 * (count + 1) > Pow(62, 8))
  {
    var r := Rebalanced(ix, count, None);
    RebalancedKeysAreSpread(ix, count, None);
    FitWidthIsLeast(62, 2 * (count + 1), 2);
    SafeWidths();
    if r.Success? && count > 0 {
      var w := FitWidth(62, 2 * (count + 1), 2).value;
      if w > 8 {
        PowMonotone(62, 9, w);
      }
    } else if r.Failure? {
      var l :| l >= 2 && Pow(62, l) < 2 * (count + 1) && MAX_SAFE_INTEGER < Pow(62, l + 1);
      if l < 8 {
        PowMonotone(62, l + 1, 8);
      } else {
        PowMonotone(62, 8, l);
      }
    }
  }

  lemma SafeWidths()
    ensures Pow(62, 8) <= MAX_SAFE_INTEGER < Pow(62, 9)
  {
    assert Pow(62, 2) == 3844;
    assert Pow(62, 4) == 62 * 62 * Pow(62, 2) == 14776336;
    assert Pow(62, 6) == 62 * 62 * Pow(62, 4) == 56800235584;
    assert Pow(62, 8) == 62 * 62 * Pow(62, 6) == 218340105584896;
    assert Pow(62, 9) == 13537086546263552;
  }

  lemma {:induction false} PowMonotone(base: nat, i: nat, j: nat)
    requires base >= 2 && i <= j
    ensures Pow(base, i) <= Pow(base, j)
    decreases j
  {
    if i < j {
      PowMonotone(base, i, j - 1);
      PowGrows(base, j - 1);
    }
  }
}
