/** The microsecond clocks of the phone and of the sync endpoint: they never repeat or go back. */
module Clocks {

  class HybridClock {
    var last: int

    constructor ()
      ensures last == 0
    {
      last := 0;
    }

    /** `now`, given what `Date.now()` reads: strictly later than before, and never behind the wall. */
    method Now(dateNow: int) returns (stamp: int)
      modifies this
      ensures stamp == last && stamp > old(last) && stamp >= dateNow * 1000
      ensures stamp == dateNow * 1000 || stamp == old(last) + 1
    {
      var wall := dateNow * 1000;
      last := if wall > last then wall else last + 1;
      stamp := last;
    }
  }

  /** The stamps issued against successive readings of the wall clock, from a clock at `last`. */
  function Stamps(last: int, readings: seq<int>): (s: seq<int>)
    ensures |s| == |readings|
    decreases |readings|
  {
    if readings == [] then []
    else
      var wall := readings[0] * 1000;
      var stamp := if wall > last then wall else last + 1;
      [stamp] + Stamps(stamp, readings[1..])
  }

  /**
   * However the wall clock stalls or rewinds, a device's stamps increase strictly, are never behind
   * the wall, and run ahead of it by single steps only.
   */
  lemma {:induction false} StampsIncrease(last: int, readings: seq<int>, i: nat, j: nat)
    requires i < j < |readings|
    ensures last < Stamps(last, readings)[i] < Stamps(last, readings)[j]
    ensures readings[j] * 1000 <= Stamps(last, readings)[j]
    ensures Stamps(last, readings)[j] == readings[j] * 1000 ||
            Stamps(last, readings)[j] == Stamps(last, readings)[j - 1] + 1
    decreases |readings|
  {
    var s := Stamps(last, readings);
    if i > 0 {
      StampsIncrease(s[0], readings[1..], i - 1, j - 1);
    } else if j > 1 {
      StampsIncrease(s[0], readings[1..], 0, j - 1);
    }
  }
}
