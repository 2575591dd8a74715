/**
 * What `getIntermediateKey` promises: betweenness for every accepted alphabet and seed, and
 * closure of the valid keys exactly for the alphabets that cannot spell a surrogate pair.
 */
module KeyMinting {
  import opened Wrappers
  import opened Text
  import opened FractionalIndexing

  /** `prev` is open or a valid key, `next` likewise, and they are in order: what callers owe. */
  ghost predicate ProperBounds(ix: Indexer, prev: Option<Str>, next: Option<Str>) {
    && (prev.Some? ==> ix.IsValidKey(prev.value))
    && (next.Some? ==> ix.IsValidKey(next.value))
    && (prev.Some? && next.Some? ==> Less(prev.value, next.value))
  }

  ghost predicate Between(prev: Option<Str>, key: Str, next: Option<Str>) {
    && (prev.Some? ==> Less(prev.value, key))
    && (next.Some? ==> Less(key, next.value))
  }

  function LongerBound(prev: Option<Str>, next: Option<Str>): nat {
    var p, n := |prev.GetOr([])|, |next.GetOr([])|;
    if p > n then p else n
  }

  /**
   * `getIntermediateKey` succeeds exactly on proper bounds. Its result then lies strictly between
   * them, has the shape of a key, and is at most one unit longer than the longer bound. It never
   * reaches its own "internal error" throw, nor the precondition throw of `midpoint`.
   */
  lemma IntermediateKeyIsBetween(ix: Indexer, prev: Option<Str>, next: Option<Str>)
    requires ix.Valid()
    ensures var r := ix.IntermediateKey(prev, next);
      && (r.Success? <==> ProperBounds(ix, prev, next))
      && (r.Success? ==>
            && Between(prev, r.value, next)
            && ix.WellFormed(r.value)
            && |r.value| <= 1 + LongerBound(prev, next))
      && (r.Failure? ==> r.error == MalformedKey || r.error == NotAscending)
      && (prev.None? && next.None? ==> r == Success(ix.seed))
  {
    if ProperBounds(ix, prev, next) {
      if prev.Some? {
        ix.ValidKeyIff(prev.value);
      }
      if next.Some? {
        ix.ValidKeyIff(next.value);
      }
      if prev.None? && next.None? {
        ix.RankOf(0);
        assert ix.rankByChar.Keys != {};
      } else {
        ix.MidpointIsBetween(prev.GetOr([]), next);
      }
    }
  }

  /** Every key minted between valid keys is accepted back by `isValidKey`. */
  ghost predicate ClosedUnderMinting(ix: Indexer)
    requires ix.Valid()
  {
    forall prev, next ::
      var r := ix.IntermediateKey(prev, next);
      r.Success? ==> ix.IsValidKey(r.value)
  }

  lemma PairFreeIsClosed(ix: Indexer)
    requires ix.Valid() && ix.PairFree()
    ensures ClosedUnderMinting(ix)
  {
    forall prev, next | ix.IntermediateKey(prev, next).Success?
      ensures ix.IsValidKey(ix.IntermediateKey(prev, next).value)
    {
      var key := ix.IntermediateKey(prev, next).value;
      IntermediateKeyIsBetween(ix, prev, next);
      ix.PairFreeStrings(key);
      ix.ValidKeyIff(key);
    }
  }

  /** The lower bound `h` + digit `lo`, or what stands below it when `lo` is the zero digit. */
  ghost function LowerBound(ix: Indexer, h: CodeUnit, lo: nat): Option<Str>
    requires ix.Valid() && lo < |ix.alphabet|
  {
    if lo > 0 then Some([h, ix.alphabet[lo]]) else if h != ix.zero then Some([h]) else None
  }

  /** The upper bound `h` + digit `hi`, or the key `[l]` when `hi` is past the alphabet. */
  ghost function UpperBound(ix: Indexer, h: CodeUnit, l: CodeUnit, hi: nat): Str
    requires ix.Valid()
  {
    if hi < |ix.alphabet| then [h, ix.alphabet[hi]] else [l]
  }

  /**
   * Bisecting the second digit behind a high surrogate `h` towards the low surrogate that follows
   * it in the alphabet: some step mints `h` + low surrogate, which `isValidKey` refuses.
   */
  lemma {:induction false} BisectToPair(ix: Indexer, r: nat, lo: nat, hi: nat)
    returns (prev: Option<Str>, next: Option<Str>)
    requires ix.Valid() && 0 < r < |ix.alphabet|
    requires IsHigh(ix.alphabet[r - 1]) && IsLow(ix.alphabet[r])
    requires lo < r < hi <= |ix.alphabet|
    requires !IsLow(ix.alphabet[lo])
    requires hi < |ix.alphabet| ==> !IsLow(ix.alphabet[hi])
    ensures ix.IntermediateKey(prev, next).Success?
    ensures !ix.IsValidKey(ix.IntermediateKey(prev, next).value)
    decreases hi - lo
  {
    var h, l := ix.alphabet[r - 1], ix.alphabet[r];
    prev, next := LowerBound(ix, h, lo), Some(UpperBound(ix, h, l, hi));
    var mid := (lo + hi + 1) / 2;
    MintedAtMid(ix, r, lo, hi);
    var key := [h, ix.alphabet[mid]];
    if IsLow(ix.alphabet[mid]) {
      assert HasSurrogatePair(key) by { assert IsHigh(key[0]) && IsLow(key[1]); }
      ix.ValidKeyIff(key);
    } else if mid < r {
      prev, next := BisectToPair(ix, r, mid, hi);
    } else {
      prev, next := BisectToPair(ix, r, lo, mid);
    }
  }

  lemma ShortKeysAreValid(ix: Indexer, c: CodeUnit, d: CodeUnit)
    requires ix.Valid() && c in ix.rankByChar && c != ix.zero
    ensures ix.IsValidKey([c])
    ensures d in ix.rankByChar && !(IsHigh(d) && IsLow(c)) ==> ix.IsValidKey([d, c])
  {
    ix.ValidKeyIff([c]);
    ix.ValidKeyIff([d, c]);
  }

  /** The bounds of a bisection step are proper, so a key is minted between them. */
  lemma BisectionIsProper(ix: Indexer, r: nat, lo: nat, hi: nat)
    requires ix.Valid() && 0 < r < |ix.alphabet|
    requires IsHigh(ix.alphabet[r - 1]) && IsLow(ix.alphabet[r])
    requires lo < r < hi <= |ix.alphabet|
    requires !IsLow(ix.alphabet[lo])
    requires hi < |ix.alphabet| ==> !IsLow(ix.alphabet[hi])
    ensures var h, l := ix.alphabet[r - 1], ix.alphabet[r];
      var prev, next := LowerBound(ix, h, lo), UpperBound(ix, h, l, hi);
      ProperBounds(ix, prev, Some(next))
  {
    var h, l := ix.alphabet[r - 1], ix.alphabet[r];
    ix.RankOf(r - 1);
    ix.RankOf(r);
    ix.RankOf(lo);
    ix.RankOrder(h, l);
    ix.RankOrder(ix.alphabet[lo], h);
    ShortKeysAreValid(ix, l, h);
    if lo > 0 {
      ShortKeysAreValid(ix, ix.alphabet[lo], h);
    } else if h != ix.zero {
      ShortKeysAreValid(ix, h, h);
    }
    if hi < |ix.alphabet| {
      ix.RankOf(hi);
      ix.RankOrder(ix.alphabet[lo], ix.alphabet[hi]);
      ShortKeysAreValid(ix, ix.alphabet[hi], h);
      assert lo > 0 ==> [h, ix.alphabet[lo]][1..] == [ix.alphabet[lo]];
      assert [h, ix.alphabet[hi]][1..] == [ix.alphabet[hi]];
    }
  }

  /** One bisection step mints `h` + the middle digit. */
  lemma MintedAtMid(ix: Indexer, r: nat, lo: nat, hi: nat)
    requires ix.Valid() && 0 < r < |ix.alphabet|
    requires IsHigh(ix.alphabet[r - 1]) && IsLow(ix.alphabet[r])
    requires lo < r < hi <= |ix.alphabet|
    requires !IsLow(ix.alphabet[lo])
    requires hi < |ix.alphabet| ==> !IsLow(ix.alphabet[hi])
    ensures var h, l := ix.alphabet[r - 1], ix.alphabet[r];
      ix.IntermediateKey(LowerBound(ix, h, lo), Some(UpperBound(ix, h, l, hi))) ==
      Success([h, ix.alphabet[(lo + hi + 1) / 2]])
  {
    var h := ix.alphabet[r - 1];
    var a, mid := LowerBound(ix, h, lo).GetOr([]), (lo + hi + 1) / 2;
    BisectionIsProper(ix, r, lo, hi);
    IntermediateKeyIsBetween(ix, LowerBound(ix, h, lo), Some(UpperBound(ix, h, ix.alphabet[r], hi)));
    ix.RankOf(0);
    ix.RankOf(lo);
    assert lo > 0 ==> Drop(a, 1) == [ix.alphabet[lo]];
    if hi < |ix.alphabet| {
      MidpointBehindPrefix(ix, h, a, hi, mid);
    } else {
      MidpointDescends(ix, r, a, mid);
    }
  }

  /** `midpoint` behind a shared first digit `h`, between two different second digits. */
  lemma MidpointBehindPrefix(ix: Indexer, h: CodeUnit, a: Str, hi: nat, mid: nat)
    requires ix.Valid() && hi < |ix.alphabet|
    requires if a == [] then h == ix.zero else a[0] == h
    requires var tail := Drop(a, 1);
      && |tail| <= 1
      && ix.InAlphabet(tail)
      && var lo := if tail == [] then 0 else ix.rankByChar[tail[0]];
         lo + 1 < hi && mid == (lo + hi + 1) / 2
    ensures ix.Midpoint(a, Some([h, ix.alphabet[hi]])) == Success([h, ix.alphabet[mid]])
  {
    var tail, b := Drop(a, 1), [h, ix.alphabet[hi]];
    ix.RankOf(0);
    ix.RankOf(hi);
    assert b[1..] == [ix.alphabet[hi]] && b[..1] == [h];
    assert Less(tail, b[1..]) by { if tail != [] { ix.RankOrder(tail[0], ix.alphabet[hi]); } }
    assert Less(a, b) by { if a != [] { assert a[1..] == tail; } }
    assert ix.SharedRun(tail, b[1..]) == 0;
    assert ix.SharedRun(a, b) == 1;
    assert ix.Midpoint(tail, Some(b[1..])) == Success([ix.alphabet[mid]]);
    assert [h] + [ix.alphabet[mid]] == [h, ix.alphabet[mid]];
  }

  /** `midpoint` up to the single digit that follows `h`: descend behind `h` without upper bound. */
  lemma MidpointDescends(ix: Indexer, r: nat, a: Str, mid: nat)
    requires ix.Valid() && 0 < r < |ix.alphabet|
    requires if a == [] then r == 1 else a[0] == ix.alphabet[r - 1]
    requires var tail := Drop(a, 1);
      && |tail| <= 1
      && ix.InAlphabet(tail)
      && var lo := if tail == [] then 0 else ix.rankByChar[tail[0]];
         lo + 1 < |ix.alphabet| && mid == (lo + |ix.alphabet| + 1) / 2
    ensures ix.Midpoint(a, Some([ix.alphabet[r]])) == Success([ix.alphabet[r - 1], ix.alphabet[mid]])
  {
    var tail, b := Drop(a, 1), [ix.alphabet[r]];
    ix.RankOf(0);
    ix.RankOf(r - 1);
    ix.RankOf(r);
    assert Less(a, b) && ix.SharedRun(a, b) == 0;
    assert ix.Midpoint(tail, None) == Success([ix.alphabet[mid]]);
    assert [ix.alphabet[r - 1]] + [ix.alphabet[mid]] == [ix.alphabet[r - 1], ix.alphabet[mid]];
  }

  /** In a sorted alphabet, a low surrogate that follows a high one has such a neighbour. */
  lemma {:induction false} AdjacentPair(ix: Indexer, i: nat, j: nat) returns (r: nat)
    requires ix.Valid() && i < j < |ix.alphabet| && IsHigh(ix.alphabet[i]) && IsLow(ix.alphabet[j])
    ensures 0 < r < |ix.alphabet| && IsHigh(ix.alphabet[r - 1]) && IsLow(ix.alphabet[r])
    decreases j - i
  {
    if IsLow(ix.alphabet[i + 1]) {
      r := i + 1;
    } else {
      assert ix.alphabet[i] < ix.alphabet[i + 1] < ix.alphabet[j];
      r := AdjacentPair(ix, i + 1, j);
    }
  }

  lemma SurrogatesMeet(ix: Indexer) returns (r: nat)
    requires ix.Valid() && !ix.PairFree()
    ensures 0 < r < |ix.alphabet| && IsHigh(ix.alphabet[r - 1]) && IsLow(ix.alphabet[r])
    ensures !IsLow(ix.alphabet[0])
  {
    var h, l :| h in ix.alphabet && l in ix.alphabet && IsHigh(h) && IsLow(l);
    ix.RankOrder(h, l);
    ix.RankOrder(h, ix.alphabet[0]);
    ix.RankOf(0);
    r := AdjacentPair(ix, ix.rankByChar[h], ix.rankByChar[l]);
  }

  lemma PairBreaksClosure(ix: Indexer) returns (prev: Option<Str>, next: Option<Str>)
    requires ix.Valid() && !ix.PairFree()
    ensures ix.IntermediateKey(prev, next).Success? && !ix.IsValidKey(ix.IntermediateKey(prev, next).value)
  {
    var r := SurrogatesMeet(ix);
    prev, next := BisectToPair(ix, r, 0, |ix.alphabet|);
  }

  /**
   * Exactly when minting stays within the keys that `isValidKey` accepts. The doc promises it for
   * every alphabet; it fails as soon as the alphabet holds both a high and a low surrogate,
   * because keys are built unit by unit but validated code point by code point.
   */
  lemma ClosedIffPairFree(ix: Indexer)
    requires ix.Valid()
    ensures ClosedUnderMinting(ix) <==> ix.PairFree()
  {
    if ix.PairFree() {
      PairFreeIsClosed(ix);
    } else {
      var prev, next := PairBreaksClosure(ix);
    }
  }

  /** Keys ending in zero are rightly refused: nothing lies between `p` and `p` + the zero unit. */
  lemma {:induction false} NothingBelowTrailingZero(ix: Indexer, p: Str, x: Str)
    requires ix.Valid() && ix.InAlphabet(x)
    ensures !(Less(p, x) && Less(x, p + [ix.zero]))
  {
    if x != [] {
      ix.RankOf(0);
      ix.RankOrder(x[0], ix.zero);
      if p != [] {
        NothingBelowTrailingZero(ix, p[1..], x[1..]);
        assert (p + [ix.zero])[1..] == p[1..] + [ix.zero];
      }
    }
  }
}
