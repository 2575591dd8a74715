/**
 * Fractional position keys: the constructor's checks, key validation, and the recursive
 * `midpoint` that mints a key strictly between two neighbours.
 */
module FractionalIndexing {
  import opened Wrappers
  import opened Text

  datatype IndexerError =
    | AlphabetTooShort
    | DuplicateCharacter(unit: CodeUnit)
    | UnsortedAlphabet
    | SeedNotACharacter
    | SeedIsZero
    | UnknownCharacter(unit: CodeUnit)
    | MalformedKey
    | NotAscending
    | PreconditionViolated
    | InternalError
    | InvalidCount
    | InvalidTargetLength
    | UnsafeKeySpace
    | TargetLengthTooSmall

  predicate Ascending(alphabet: Str) {
    forall i, j :: 0 <= i < j < |alphabet| ==> alphabet[i] < alphabet[j]
  }

  /** The key that the constructor falls back to when no seed is given. */
  function DefaultSeed(alphabet: Str): Str
    requires |alphabet| >= 2
  {
    if 77 in alphabet then [77] else [alphabet[|alphabet| / 2]]
  }

  predicate SeedAccepted(alphabet: Str, seed: Str)
    requires |alphabet| >= 2
  {
    |seed| == 1 && seed[0] in alphabet && seed[0] != alphabet[0]
  }

  datatype Indexer = Indexer(alphabet: Str, zero: CodeUnit, seed: Str, rankByChar: map<CodeUnit, nat>) {

    /** What the constructor establishes. */
    ghost predicate Valid() {
      && |alphabet| >= 2
      && Ascending(alphabet)
      && zero == alphabet[0]
      && SeedAccepted(alphabet, seed)
      && (forall c :: c in rankByChar ==> rankByChar[c] < |alphabet| && alphabet[rankByChar[c]] == c)
      && (forall i :: 0 <= i < |alphabet| ==> alphabet[i] in rankByChar)
    }

    lemma RankOf(i: nat)
      requires Valid() && i < |alphabet|
      ensures alphabet[i] in rankByChar && rankByChar[alphabet[i]] == i
    {
      var r := rankByChar[alphabet[i]];
      assert r < i || i < r || r == i;
    }

    /** Digit order is code-unit order. */
    lemma RankOrder(c: CodeUnit, d: CodeUnit)
      requires Valid() && c in rankByChar && d in rankByChar
      ensures rankByChar[c] < rankByChar[d] <==> c < d
      ensures rankByChar[c] == rankByChar[d] <==> c == d
      ensures rankByChar[c] == 0 <==> c == zero
    {
      RankOf(0);
    }

    predicate InAlphabet(s: Str) {
      forall c :: c in s ==> c in rankByChar
    }

    /** The shape of a key, read unit by unit: non-empty, in the alphabet, not ending in zero. */
    predicate WellFormed(key: Str) {
      key != [] && InAlphabet(key) && key[|key| - 1] != zero
    }

    /** `isValidKey`: the loop visits code points, so a surrogate pair is never a character. */
    predicate IsValidKey(key: Str) {
      && key != []
      && (forall p :: p in CodePoints(key) ==> |p| == 1 && p[0] in rankByChar)
      && key[|key| - 1] != zero
    }

    lemma ValidKeyIff(key: Str)
      ensures IsValidKey(key) <==> WellFormed(key) && !HasSurrogatePair(key)
    {
      CodePointsAreUnits(key);
      if !HasSurrogatePair(key) {
        var points := CodePoints(key);
        forall i | 0 <= i < |key| ensures points[i] == [key[i]] && points[i] in points {}
      }
    }

    /** No surrogate pair can be spelled with this alphabet. */
    ghost predicate PairFree() {
      !exists h, l :: h in alphabet && l in alphabet && IsHigh(h) && IsLow(l)
    }

    lemma PairFreeStrings(s: Str)
      requires Valid() && PairFree() && InAlphabet(s)
      ensures !HasSurrogatePair(s)
    {
      forall i | 0 <= i < |s| - 1 ensures !(IsHigh(s[i]) && IsLow(s[i + 1])) {
        assert s[i] in s && s[i + 1] in s;
      }
    }

    // --- getIntermediateKey --------------------------------------------------

    /** `getIntermediateKey`, every throw included; `None` is an open end. */
    function IntermediateKey(prev: Option<Str>, next: Option<Str>): Result<Str, IndexerError>
      requires Valid()
    {
      if prev.Some? && !IsValidKey(prev.value) then Failure(MalformedKey)
      else if next.Some? && !IsValidKey(next.value) then Failure(MalformedKey)
      else if prev.Some? && next.Some? && !Less(prev.value, next.value) then Failure(NotAscending)
      else if prev.None? && next.None? then Success(seed)
      else
        var key := Midpoint(prev.GetOr([]), next);
        if key.Failure? then key
        else if || (prev.Some? && !Less(prev.value, key.value))
                || (next.Some? && !Less(key.value, next.value)) then Failure(InternalError)
        else key
    }

    // --- midpoint ----------------------------------------------------------

    /** Length of the leading run on which `b` agrees with `a` padded by zeros. */
    function SharedRun(a: Str, b: Str): (n: nat)
      ensures n <= |b|
      decreases |b|
    {
      if b != [] && (if a == [] then zero else a[0]) == b[0]
      then 1 + SharedRun(Drop(a, 1), b[1..])
      else 0
    }

    /** Mints a string between `a` and `b`, with the source's two throws as failures. */
    function Midpoint(a: Str, b: Option<Str>): Result<Str, IndexerError>
      requires Valid()
      decreases if b.Some? then 1 + |b.value| else 0, |a|
    {
      if b.Some? && !Less(a, b.value) then Failure(PreconditionViolated)
      else
        var n := if b.Some? then SharedRun(a, b.value) else 0;
        if n > 0 then Prepend(b.value[..n], Midpoint(Drop(a, n), Some(b.value[n..])))
        else if a != [] && a[0] !in rankByChar then Failure(UnknownCharacter(a[0]))
        else if b.Some? && b.value[0] !in rankByChar then Failure(UnknownCharacter(b.value[0]))
        else
          var digitA := if a != [] then rankByChar[a[0]] else 0;
          var digitB := if b.Some? then rankByChar[b.value[0]] else |alphabet|;
          if digitB - digitA > 1 then
            var mid := (digitA + digitB + 1) / 2;
            Success([alphabet[mid]])
          else if b.Some? && |b.value| > 1 then Success(b.value[..1])
          else Prepend([alphabet[digitA]], Midpoint(Drop(a, 1), None))
    }

    /** The scanning loop of `midpoint`: `a` padded with zeros against `b`. */
    method ScanShared(a: Str, b: Str) returns (n: nat)
      ensures n == SharedRun(a, b)
    {
      n := 0;
      while n < |b| && (if n < |a| then a[n] else zero) == b[n]
        invariant n <= |b|
        invariant SharedRun(a, b) == n + SharedRun(Drop(a, n), b[n..])
      {
        assert Drop(Drop(a, n), 1) == Drop(a, n + 1);
        assert b[n..][1..] == b[n + 1..];
        n := n + 1;
      }
    }

    /** `midpoint` as written: a scanning loop, then recursion on the remainder. */
    method MidpointLoop(a: Str, b: Option<Str>) returns (r: Result<Str, IndexerError>)
      requires Valid()
      ensures r == Midpoint(a, b)
      decreases if b.Some? then 1 + |b.value| else 0, |a|
    {
      if b.Some? && !Less(a, b.value) {
        return Failure(PreconditionViolated);
      }
      if b.Some? {
        var n := ScanShared(a, b.value);
        if n > 0 {
          var rest := MidpointLoop(Drop(a, n), Some(b.value[n..]));
          return Prepend(b.value[..n], rest);
        }
      }
      if a != [] && a[0] !in rankByChar {
        return Failure(UnknownCharacter(a[0]));
      }
      var digitA := if a != [] then rankByChar[a[0]] else 0;
      if b.Some? && b.value[0] !in rankByChar {
        return Failure(UnknownCharacter(b.value[0]));
      }
      var digitB := if b.Some? then rankByChar[b.value[0]] else |alphabet|;
      if digitB - digitA > 1 {
        var mid := (digitA + digitB + 1) / 2;
        return Success([alphabet[mid]]);
      }
      if b.Some? && |b.value| > 1 {
        return Success(b.value[..1]);
      }
      var rest := MidpointLoop(Drop(a, 1), None);
      return Prepend([alphabet[digitA]], rest);
    }

    /** One unit of the scan: the bounds that remain are still ordered, and the upper one well-formed. */
    lemma SharedUnit(a: Str, b: Str)
      requires Valid() && InAlphabet(a) && WellFormed(b) && Less(a, b) && SharedRun(a, b) > 0
      ensures InAlphabet(Drop(a, 1)) && WellFormed(b[1..]) && Less(Drop(a, 1), b[1..])
      ensures a != [] ==> a[0] == b[0]
    {
      if b[1..] == [] {
        assert false;
      }
    }

    /** `b` up to `n` is `a` padded by zeros. */
    predicate SplitsBehind(a: Str, b: Str, n: nat) {
      n <= |b| && if n <= |a| then a == b[..n] + Drop(a, n) else Less(a, b[..n])
    }

    lemma SplitsOneBehind(a: Str, b: Str, n: nat)
      requires b != [] && SplitsBehind(Drop(a, 1), b[1..], n) && (a != [] ==> a[0] == b[0])
      ensures SplitsBehind(a, b, n + 1)
    {
      var a', b' := Drop(a, 1), b[1..];
      var p := b[..n + 1];
      assert p[0] == b[0] && p[1..] == b'[..n];
      if n + 1 <= |a| {
        assert a == [a[0]] + a';
        assert Drop(a', n) == Drop(a, n + 1);
        assert p == [b[0]] + b'[..n];
      }
    }

    /** What the scan of `midpoint` finds: `b` starts with `a` padded by zeros, up to the split. */
    lemma {:induction false} SharedRunSplits(a: Str, b: Str)
      requires Valid() && InAlphabet(a) && WellFormed(b) && Less(a, b)
      ensures var n := SharedRun(a, b);
        && n < |b|
        && InAlphabet(Drop(a, n)) && WellFormed(b[n..])
        && Less(Drop(a, n), b[n..])
        && SharedRun(Drop(a, n), b[n..]) == 0
        && SplitsBehind(a, b, n)
      decreases |b|
    {
      if SharedRun(a, b) == 0 {
        assert Drop(a, 0) == a && b[0..] == b;
      } else {
        SharedUnit(a, b);
        var a', b' := Drop(a, 1), b[1..];
        SharedRunSplits(a', b');
        var n := SharedRun(a', b');
        SplitsOneBehind(a, b, n);
        assert Drop(a', n) == Drop(a, n + 1);
        assert b'[n..] == b[n + 1..];
      }
    }

    /**
     * The heart of the class: for well-formed bounds, `midpoint` succeeds, and its result is a
     * well-formed key strictly between them, at most one unit longer than the longer bound.
     */
    lemma {:induction false} MidpointIsBetween(a: Str, b: Option<Str>)
      requires Valid() && InAlphabet(a)
      requires b.Some? ==> WellFormed(b.value) && Less(a, b.value)
      ensures var m := Midpoint(a, b);
        && m.Success?
        && WellFormed(m.value)
        && Less(a, m.value)
        && (b.Some? ==> Less(m.value, b.value))
        && |m.value| <= 1 + (if b.Some? && |b.value| > |a| then |b.value| else |a|)
      decreases if b.Some? then 1 + |b.value| else 0, |a|
    {
      RankOf(0);
      var n := if b.Some? then SharedRun(a, b.value) else 0;
      if n > 0 {
        SharedRunSplits(a, b.value);
        var p, a', b' := b.value[..n], Drop(a, n), b.value[n..];
        assert b.value == p + b';
        MidpointIsBetween(a', Some(b'));
        var m := Midpoint(a', Some(b')).value;
        LessAfterPrefix(p, a', m);
        LessAfterPrefix(p, m, b');
        if |a| < n {
          LessThanExtension(p, m);
          LessTransitive(a, p, p + m);
        }
      } else {
        if b.Some? {
          assert SharedRun(a, b.value) == 0;
          SharedRunSplits(a, b.value);
        }
        MidpointSplit(a, b);
      }
    }

    /** `MidpointIsBetween` once the first digits differ. */
    lemma MidpointSplit(a: Str, b: Option<Str>)
      requires Valid() && InAlphabet(a)
      requires b.Some? ==> WellFormed(b.value) && Less(a, b.value) && SharedRun(a, b.value) == 0
      ensures var m := Midpoint(a, b);
        && m.Success?
        && WellFormed(m.value)
        && Less(a, m.value)
        && (b.Some? ==> Less(m.value, b.value))
        && |m.value| <= 1 + (if b.Some? && |b.value| > |a| then |b.value| else |a|)
      decreases if b.Some? then 1 + |b.value| else 0, |a|, 0
    {
      RankOf(0);
      var digitA := if a != [] then rankByChar[a[0]] else 0;
      var digitB := if b.Some? then rankByChar[b.value[0]] else |alphabet|;
      if b.Some? {
        RankOrder(if a != [] then a[0] else zero, b.value[0]);
      }
      assert digitA < digitB;
      if digitB - digitA > 1 {
        var mid := (digitA + digitB + 1) / 2;
        RankOf(mid);
        RankOrder(if a != [] then a[0] else zero, alphabet[mid]);
        if b.Some? {
          RankOrder(alphabet[mid], b.value[0]);
        }
      } else if b.Some? && |b.value| > 1 {
        RankOrder(b.value[0], zero);
        LessThanExtension(b.value[..1], b.value[1..]);
        assert b.value == b.value[..1] + b.value[1..];
      } else {
        assert a != [] || b.Some?;
        MidpointIsBetweenOpen(Drop(a, 1));
        var m := Midpoint(Drop(a, 1), None).value;
        RankOf(digitA);
        assert ([alphabet[digitA]] + m)[1..] == m;
        if b.Some? {
          RankOrder(alphabet[digitA], b.value[0]);
        }
      }
    }

    /** `MidpointIsBetween` with no upper bound. */
    lemma {:induction false} MidpointIsBetweenOpen(a: Str)
      requires Valid() && InAlphabet(a)
      ensures var m := Midpoint(a, None);
        m.Success? && WellFormed(m.value) && Less(a, m.value) && |m.value| <= 1 + |a|
      decreases 0, |a|
    {
      MidpointSplit(a, None);
    }
  }

  /** `s.slice(n)`. */
  function Drop(s: Str, n: nat): Str {
    if n <= |s| then s[n..] else []
  }

  function Prepend(prefix: Str, r: Result<Str, IndexerError>): Result<Str, IndexerError> {
    if r.Success? then Success(prefix + r.value) else r
  }

  // --- the constructor -------------------------------------------------------

  /** The constructor: a loop over the alphabet that builds the rank map, then the seed checks. */
  method NewIndexer(alphabet: Str, seed: Option<Str>) returns (r: Result<Indexer, IndexerError>)
    ensures r == Failure(AlphabetTooShort) <==> |alphabet| < 2
    ensures r.Success? <==>
            && |alphabet| >= 2
            && Ascending(alphabet)
            && SeedAccepted(alphabet, seed.GetOr(DefaultSeed(alphabet)))
    ensures r.Success? ==>
              && r.value.Valid()
              && r.value.alphabet == alphabet
              && r.value.seed == seed.GetOr(DefaultSeed(alphabet))
    ensures r.Failure? && (r.error.DuplicateCharacter? || r.error.UnsortedAlphabet?) <==>
            |alphabet| >= 2 && !Ascending(alphabet)
  {
    if |alphabet| < 2 {
      return Failure(AlphabetTooShort);
    }
    var rank: map<CodeUnit, nat> := map[];
    for i := 0 to |alphabet|
      invariant Ascending(alphabet[..i])
      invariant forall c :: c in rank ==> rank[c] < i && alphabet[rank[c]] == c
      invariant forall k :: 0 <= k < i ==> alphabet[k] in rank
    {
      var char' := alphabet[i];
      if char' in rank {
        assert alphabet[rank[char']] == alphabet[i];
        return Failure(DuplicateCharacter(char'));
      }
      if i > 0 && alphabet[i - 1] >= char' {
        return Failure(UnsortedAlphabet);
      }
      assert alphabet[..i + 1] == alphabet[..i] + [char'];
      assert i > 0 ==> alphabet[..i][i - 1] < char';
      rank := rank[char' := i];
    }
    assert alphabet[..|alphabet|] == alphabet;
    var resolved := seed.GetOr(if 77 in rank then [77] else [alphabet[|alphabet| / 2]]);
    assert 77 in rank <==> 77 in alphabet;
    if |resolved| != 1 || resolved[0] !in rank {
      return Failure(SeedNotACharacter);
    }
    if resolved[0] == alphabet[0] {
      return Failure(SeedIsZero);
    }
    r := Success(Indexer(alphabet, alphabet[0], resolved, rank));
  }

  /** The Base62 alphabet: digits, upper case, lower case. */
  const BASE62: Str := seq(62, i requires 0 <= i < 62 => Base62Unit(i))

  function Base62Unit(i: nat): CodeUnit
    requires i < 62
  {
    if i < 10 then 48 + i else if i < 36 then 55 + i else 61 + i
  }

  /** The repository's only instance: `new FractionalIndexer()`, seeded with `M`. */
  method NewBase62Indexer() returns (ix: Indexer)
    ensures ix.Valid() && ix.alphabet == BASE62 && ix.seed == [77] && ix.PairFree()
  {
    assert BASE62[22] == 77;
    assert SeedAccepted(BASE62, DefaultSeed(BASE62));
    var r := NewIndexer(BASE62, None);
    ix := r.value;
    assert forall i :: 0 <= i < |BASE62| ==> !IsHigh(BASE62[i]);
  }
}
