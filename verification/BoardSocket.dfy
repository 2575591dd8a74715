/** The client's half of delta-sync: apply frames in strict sequence order, or ask again. */
module BoardSocket {
  import opened ReplayLog

  datatype Status = Connecting | Connected | Synced | Disconnected

  /** What the consumer observes: a mutation handed to the listeners, or a call to reload the board. */
  datatype Observation = Delivered(frame: Envelope) | Resync(realigned: nat)

  /** The persisted `lastSeq`, the last status, everything observed, and the syncs requested. */
  datatype Client = Client(lastSeq: nat, status: Status, seen: seq<Observation>, asked: seq<nat>)

  function Applied(c: Client, e: Envelope): Client {
    if e.seqId <= c.lastSeq then c else c.(lastSeq := e.seqId, seen := c.seen + [Delivered(e)])
  }

  function AppliedAll(c: Client, events: seq<Envelope>): Client {
    if events == [] then c else Applied(AppliedAll(c, events[..|events| - 1]), events[|events| - 1])
  }

  function Asking(c: Client): Client {
    c.(asked := c.asked + [c.lastSeq])
  }

  function Realigned(c: Client, headSeq: nat): Client {
    c.(lastSeq := headSeq, status := Synced, seen := c.seen + [Resync(headSeq)])
  }

  function AfterJoined(c: Client, headSeq: nat): Client {
    if c.lastSeq > headSeq then Realigned(c, headSeq)
    else if headSeq > c.lastSeq then Asking(c.(status := Connected))
    else c.(status := Synced)
  }

  function AfterMutation(c: Client, e: Envelope): Client {
    if e.seqId <= c.lastSeq then c
    else if e.seqId > c.lastSeq + 1 then Asking(c)
    else Applied(c, e)
  }

  function AfterSyncResult(c: Client, events: seq<Envelope>, headSeq: nat): Client {
    if HasGap(c.lastSeq, events, headSeq) then Realigned(c, headSeq)
    else
      var d := AppliedAll(c, events);
      d.(status := if headSeq > d.lastSeq then Connected else Synced)
  }

  class BoardSocketManager {
    var lastSeq: nat
    var status: Status
    var seen: seq<Observation>
    var asked: seq<nat>

    ghost function State(): Client
      reads this
    {
      Client(lastSeq, status, seen, asked)
    }

    constructor (stored: nat)
      ensures State() == Client(stored, Connecting, [], [])
    {
      lastSeq, status, seen, asked := stored, Connecting, [], [];
    }

    method NotifyListeners(e: Envelope)
      modifies this`seen
      ensures seen == old(seen) + [Delivered(e)]
    {
      seen := seen + [Delivered(e)];
    }

    method NeedsResync()
      modifies this`seen
      ensures seen == old(seen) + [Resync(lastSeq)]
    {
      seen := seen + [Resync(lastSeq)];
    }

    method RequestSync()
      modifies this`asked
      ensures asked == old(asked) + [lastSeq]
    {
      asked := asked + [lastSeq];
    }

    method ApplyInOrder(e: Envelope)
      modifies this`lastSeq, this`seen
      ensures State() == Applied(old(State()), e)
    {
      if e.seqId <= lastSeq {
        return;
      }
      NotifyListeners(e);
      lastSeq := e.seqId;
    }

    method OnJoined(headSeq: nat)
      modifies this
      ensures State() == AfterJoined(old(State()), headSeq)
    {
      status := Connected;
      if lastSeq > headSeq {
        lastSeq := headSeq;
        NeedsResync();
        status := Synced;
      } else if headSeq > lastSeq {
        RequestSync();
      } else {
        status := Synced;
      }
    }

    method HandleIncoming(e: Envelope)
      modifies this
      ensures State() == AfterMutation(old(State()), e)
    {
      if e.seqId <= lastSeq {
        return;
      }
      if e.seqId > lastSeq + 1 {
        RequestSync();
        return;
      }
      ApplyInOrder(e);
    }

    method OnSyncResult(events: seq<Envelope>, headSeq: nat)
      modifies this
      ensures State() == AfterSyncResult(old(State()), events, headSeq)
    {
      if (|events| > 0 && events[0].seqId > lastSeq + 1) || (|events| == 0 && headSeq > lastSeq) {
        lastSeq := headSeq;
        NeedsResync();
        status := Synced;
        return;
      }
      ghost var before := State();
      for k := 0 to |events|
        invariant State() == AppliedAll(before, events[..k])
      {
        assert events[..k + 1][..k] == events[..k];
        ApplyInOrder(events[k]);
      }
      assert events[..|events|] == events;
      status := if headSeq > lastSeq then Connected else Synced;
    }
  }

  // --- what is observed ----------------------------------------------------------------

  /** `lastSeq` just before observation `i`, given what it was at the start. */
  function Level(start: nat, seen: seq<Observation>, i: nat): nat
    requires i <= |seen|
  {
    if i == 0 then start
    else match seen[i - 1]
      case Delivered(e) => e.seqId
      case Resync(realigned) => realigned
  }

  /** Every delivery is the successor of what came before. */
  ghost predicate InSequence(start: nat, seen: seq<Observation>) {
    forall i {:trigger seen[i]} :: 0 <= i < |seen| && seen[i].Delivered? ==>
      seen[i].frame.seqId == Level(start, seen, i) + 1
  }

  ghost predicate Tracks(start: nat, c: Client) {
    InSequence(start, c.seen) && c.lastSeq == Level(start, c.seen, |c.seen|)
  }

  /** Between two reload requests the listeners get consecutive numbers, each exactly once. */
  lemma {:induction false} ConsecutiveBetweenResyncs(start: nat, seen: seq<Observation>, i: nat, j: nat)
    requires InSequence(start, seen)
    requires i <= j < |seen| && forall k :: i <= k <= j ==> seen[k].Delivered?
    ensures seen[j].frame.seqId == seen[i].frame.seqId + (j - i)
    decreases j
  {
    if i < j {
      ConsecutiveBetweenResyncs(start, seen, i, j - 1);
    }
  }

  lemma ObservedOneMore(start: nat, c: Client, o: Observation, d: Client)
    requires Tracks(start, c) && d.seen == c.seen + [o]
    requires match o
      case Delivered(e) => e.seqId == c.lastSeq + 1 && d.lastSeq == e.seqId
      case Resync(realigned) => d.lastSeq == realigned
    ensures Tracks(start, d)
  {
    forall i | 0 <= i < |d.seen| && d.seen[i].Delivered?
      ensures d.seen[i].frame.seqId == Level(start, d.seen, i) + 1
    {
      if i < |c.seen| {
        assert d.seen[i] == c.seen[i] && Level(start, d.seen, i) == Level(start, c.seen, i);
      } else {
        assert Level(start, d.seen, i) == Level(start, c.seen, |c.seen|);
      }
    }
  }

  /** A batch with no hole above `lastSeq`: each newer frame follows its predecessor in the batch. */
  ghost predicate NoHole(lastSeq: nat, events: seq<Envelope>) {
    forall i :: 0 < i < |events| && events[i].seqId > lastSeq ==>
      events[i].seqId <= 1 + (if events[i - 1].seqId > lastSeq then events[i - 1].seqId else lastSeq)
  }

  lemma {:induction false} AppliedAllReaches(c: Client, events: seq<Envelope>)
    requires Ascending(events)
    ensures var d := AppliedAll(c, events);
      && d.asked == c.asked && d.status == c.status && c.seen <= d.seen
      && d.lastSeq ==
           if events == [] || events[|events| - 1].seqId <= c.lastSeq then c.lastSeq else events[|events| - 1].seqId
  {
    if events != [] {
      AppliedAllReaches(c, events[..|events| - 1]);
    }
  }

  lemma {:induction false} AppliedAllKeepsLevel(start: nat, c: Client, events: seq<Envelope>)
    requires c.lastSeq == Level(start, c.seen, |c.seen|)
    ensures var d := AppliedAll(c, events); d.lastSeq == Level(start, d.seen, |d.seen|)
  {
    if events != [] {
      AppliedAllKeepsLevel(start, c, events[..|events| - 1]);
    }
  }

  /**
   * The "contiguous" assumption made explicit. A batch that passes the gap test is delivered in
   * sequence if and only if it has no hole above `lastSeq`; a hole is skipped without a resync.
   */
  lemma {:induction false} DeliveredInSequenceIffNoHole(start: nat, c: Client, events: seq<Envelope>)
    requires Tracks(start, c) && Ascending(events)
    requires events != [] ==> events[0].seqId <= c.lastSeq + 1
    ensures Tracks(start, AppliedAll(c, events)) <==> NoHole(c.lastSeq, events)
  {
    if events != [] {
      var rest, e := events[..|events| - 1], events[|events| - 1];
      DeliveredInSequenceIffNoHole(start, c, rest);
      AppliedAllReaches(c, rest);
      var b, d := AppliedAll(c, rest), AppliedAll(c, events);
      assert forall i :: 0 <= i < |rest| ==> rest[i] == events[i];
      assert NoHole(c.lastSeq, events) ==> NoHole(c.lastSeq, rest);
      if e.seqId > c.lastSeq {
        assert d.seen == b.seen + [Delivered(e)];
        if NoHole(c.lastSeq, events) {
          ObservedOneMore(start, b, Delivered(e), d);
        }
        if Tracks(start, d) {
          LastInSequence(start, b, e, d);
          AppliedAllKeepsLevel(start, c, rest);
          NoHoleAtEnd(c.lastSeq, events);
        }
      } else if NoHole(c.lastSeq, rest) {
        assert NoHole(c.lastSeq, events);
      }
    }
  }

  /** Undo the last delivery of a client in sequence. */
  lemma LastInSequence(start: nat, b: Client, e: Envelope, d: Client)
    requires Tracks(start, d) && d.seen == b.seen + [Delivered(e)]
    ensures InSequence(start, b.seen) && e.seqId == Level(start, b.seen, |b.seen|) + 1
  {
    assert d.seen[|b.seen|] == Delivered(e);
    assert Level(start, d.seen, |b.seen|) == Level(start, b.seen, |b.seen|);
    ShorterInSequence(start, b, d);
  }

  lemma NoHoleAtEnd(lastSeq: nat, events: seq<Envelope>)
    requires events != [] && NoHole(lastSeq, events[..|events| - 1])
    requires |events| > 1 ==>
      var previous := events[|events| - 2].seqId;
      events[|events| - 1].seqId <= 1 + (if previous > lastSeq then previous else lastSeq)
    ensures NoHole(lastSeq, events)
  {
    assert forall i :: 0 <= i < |events| - 1 ==> events[..|events| - 1][i] == events[i];
  }

  lemma ShorterInSequence(start: nat, b: Client, d: Client)
    requires InSequence(start, d.seen) && b.seen <= d.seen
    ensures InSequence(start, b.seen)
  {
    forall i | 0 <= i < |b.seen| && b.seen[i].Delivered?
      ensures b.seen[i].frame.seqId == Level(start, b.seen, i) + 1
    {
      assert d.seen[i] == b.seen[i] && Level(start, d.seen, i) == Level(start, b.seen, i);
    }
  }
}
