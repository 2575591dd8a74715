/** JavaScript strings as sequences of UTF-16 code units, ordered by the language's `<`. */
module Text {

  type CodeUnit = c: int | 0 <= c < 0x1_0000

  type Str = seq<CodeUnit>

  /** `a < b`: the first differing code unit decides, and a proper prefix comes first. */
  predicate Less(a: Str, b: Str) {
    && b != []
    && (a == [] || a[0] < b[0] || (a[0] == b[0] && Less(a[1..], b[1..])))
  }

  predicate AtMost(a: Str, b: Str) {
    a == b || Less(a, b)
  }

  lemma LessIrreflexive(a: Str)
    ensures !Less(a, a)
  {
  }

  lemma {:induction false} LessTransitive(a: Str, b: Str, c: Str)
    requires Less(a, b) && Less(b, c)
    ensures Less(a, c)
  {
    if a != [] && a[0] == b[0] && b[0] == c[0] {
      LessTransitive(a[1..], b[1..], c[1..]);
    }
  }

  lemma {:induction false} LessTotal(a: Str, b: Str)
    ensures a == b || Less(a, b) || Less(b, a)
  {
    if a != [] && b != [] && a[0] == b[0] {
      LessTotal(a[1..], b[1..]);
      assert a == [a[0]] + a[1..] && b == [b[0]] + b[1..];
    }
  }

  lemma LessAsymmetric(a: Str, b: Str)
    requires Less(a, b)
    ensures !Less(b, a) && a != b
  {
    LessIrreflexive(a);
    if Less(b, a) {
      LessTransitive(a, b, a);
    }
  }

  /** A shared prefix never decides a comparison. */
  lemma {:induction false} LessAfterPrefix(p: Str, a: Str, b: Str)
    ensures Less(p + a, p + b) <==> Less(a, b)
  {
    if p == [] {
      assert p + a == a && p + b == b;
    } else {
      LessAfterPrefix(p[1..], a, b);
      assert (p + a)[1..] == p[1..] + a && (p + b)[1..] == p[1..] + b;
    }
  }

  lemma LessThanExtension(a: Str, s: Str)
    requires s != []
    ensures Less(a, a + s)
  {
    LessAfterPrefix(a, [], s);
    assert a + [] == a;
  }

  /** `a` and `b` agree up to `k`, where `a` ends or has the smaller unit. */
  predicate SplitsAt(a: Str, b: Str, k: nat) {
    && k < |b| && k <= |a|
    && a[..k] == b[..k]
    && (k == |a| || a[k] < b[k])
  }

  /** The same order by its first difference; unlike `Less` it does not unfold by itself. */
  predicate Precedes(a: Str, b: Str) {
    exists k: nat | k <= |a| :: SplitsAt(a, b, k)
  }

  lemma SplitKeepsHeads(a: Str, b: Str, k: nat)
    requires SplitsAt(a, b, k) && a != []
    ensures a[0] <= b[0]
  {
    if k > 0 {
      assert a[..k][0] == b[..k][0];
    }
  }

  lemma {:induction false} PrecedesIsLess(a: Str, b: Str)
    ensures Precedes(a, b) <==> Less(a, b)
  {
    if a == [] {
      if b != [] {
        assert SplitsAt(a, b, 0);
      }
    } else if b != [] && a[0] == b[0] {
      PrecedesIsLess(a[1..], b[1..]);
      if Precedes(a, b) {
        var k: nat :| k <= |a| && SplitsAt(a, b, k);
        assert a[1..][..k - 1] == a[..k][1..] && b[1..][..k - 1] == b[..k][1..];
        assert SplitsAt(a[1..], b[1..], k - 1);
      }
      if Precedes(a[1..], b[1..]) {
        var k: nat :| k <= |a[1..]| && SplitsAt(a[1..], b[1..], k);
        assert a[..k + 1] == [a[0]] + a[1..][..k] && b[..k + 1] == [b[0]] + b[1..][..k];
        assert SplitsAt(a, b, k + 1);
      }
    } else if b != [] {
      if a[0] < b[0] {
        assert SplitsAt(a, b, 0);
      }
      if Precedes(a, b) {
        var k: nat :| k <= |a| && SplitsAt(a, b, k);
        SplitKeepsHeads(a, b, k);
      }
    }
  }

  /** `Precedes` is a strict total order. */
  lemma PrecedesOrder(a: Str, b: Str, c: Str)
    ensures !Precedes(a, a)
    ensures a == b || Precedes(a, b) || Precedes(b, a)
    ensures !(Precedes(a, b) && Precedes(b, a))
    ensures Precedes(a, b) && Precedes(b, c) ==> Precedes(a, c)
  {
    PrecedesIsLess(a, a);
    PrecedesIsLess(a, b);
    PrecedesIsLess(b, a);
    PrecedesIsLess(b, c);
    PrecedesIsLess(a, c);
    LessIrreflexive(a);
    LessTotal(a, b);
    if Less(a, b) {
      LessAsymmetric(a, b);
      if Less(b, c) {
        LessTransitive(a, b, c);
      }
    }
  }

  /** Every non-empty finite set of strings has a greatest member. */
  lemma {:induction false} GreatestExists(s: set<Str>) returns (m: Str)
    requires s != {}
    ensures m in s && forall x :: x in s ==> AtMost(x, m)
  {
    var y :| y in s;
    if s == {y} {
      m := y;
    } else {
      var rest := s - {y};
      m := GreatestExists(rest);
      LessTotal(m, y);
      if Less(m, y) {
        forall x | x in s ensures AtMost(x, y) {
          if x != y && x != m {
            assert x in rest;
            LessTransitive(x, m, y);
          }
        }
        m := y;
      }
    }
  }

  /** UTF-16 surrogates: a high unit followed by a low one is a single code point. */
  predicate IsHigh(c: CodeUnit) {
    0xD800 <= c <= 0xDBFF
  }

  predicate IsLow(c: CodeUnit) {
    0xDC00 <= c <= 0xDFFF
  }

  /** The strings visited by `for (const char of s)`, one per code point. */
  function CodePoints(s: Str): seq<Str> {
    if s == [] then []
    else if |s| >= 2 && IsHigh(s[0]) && IsLow(s[1]) then [s[..2]] + CodePoints(s[2..])
    else [s[..1]] + CodePoints(s[1..])
  }

  predicate HasSurrogatePair(s: Str) {
    exists i :: 0 <= i < |s| - 1 && IsHigh(s[i]) && IsLow(s[i + 1])
  }

  /**
   * Iterating by code point agrees with iterating by index exactly when no surrogate pair occurs.
   */
  lemma {:induction false} CodePointsAreUnits(s: Str)
    ensures HasSurrogatePair(s) <==> exists p :: p in CodePoints(s) && |p| != 1
    ensures !HasSurrogatePair(s) ==> CodePoints(s) == seq(|s|, i requires 0 <= i < |s| => [s[i]])
  {
    if s == [] {
    } else if |s| >= 2 && IsHigh(s[0]) && IsLow(s[1]) {
      assert s[..2] in CodePoints(s);
    } else {
      CodePointsAreUnits(s[1..]);
      assert s[..1] == [s[0]];
      if HasSurrogatePair(s) {
        var i :| 0 <= i < |s| - 1 && IsHigh(s[i]) && IsLow(s[i + 1]);
        assert IsHigh(s[1..][i - 1]) && IsLow(s[1..][i]);
      }
      if HasSurrogatePair(s[1..]) {
        var i :| 0 <= i < |s[1..]| - 1 && IsHigh(s[1..][i]) && IsLow(s[1..][i + 1]);
        assert IsHigh(s[i + 1]) && IsLow(s[i + 2]);
      }
    }
  }
}
