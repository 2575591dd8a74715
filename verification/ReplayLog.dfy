/** The server's half of delta-sync: a sequence counter and a trimmed replay log per board. */
module ReplayLog {
  import opened Text

  /** A mutation frame; its type, payload and time are one JSON text. */
  datatype Envelope = Envelope(seqId: nat, body: Str)

  /** What Redis holds for a board. */
  datatype Log = Log(counter: nat, entries: seq<Envelope>)

  const REPLAY_LOG_MAX_EVENTS := 500

  // --- the Redis commands -----------------------------------------------------------

  /** `ZADD`: keep the set ordered by score. */
  function ZAdd(entries: seq<Envelope>, e: Envelope): seq<Envelope> {
    if entries == [] || entries[|entries| - 1].seqId <= e.seqId then entries + [e]
    else ZAdd(entries[..|entries| - 1], e) + [entries[|entries| - 1]]
  }

  /** `ZREMRANGEBYRANK key 0 -(limit + 1)`: keep the `limit` highest scores. */
  function Newest(entries: seq<Envelope>, limit: nat): seq<Envelope> {
    if |entries| > limit then entries[|entries| - limit..] else entries
  }

  /** `ZRANGEBYSCORE key lowest +inf`. */
  function FromScore(entries: seq<Envelope>, lowest: int): seq<Envelope> {
    if entries == [] then []
    else
      var rest := FromScore(entries[..|entries| - 1], lowest);
      if entries[|entries| - 1].seqId >= lowest then rest + [entries[|entries| - 1]] else rest
  }

  function Missed(entries: seq<Envelope>, afterSeq: int): seq<Envelope> {
    FromScore(entries, (if afterSeq > 0 then afterSeq else 0) + 1)
  }

  /** `INCR`: the next sequence number is taken. */
  function Allocated(log: Log): Log {
    log.(counter := log.counter + 1)
  }

  /** Append and trim. */
  function Appended(log: Log, e: Envelope): Log {
    log.(entries := Newest(ZAdd(log.entries, e), REPLAY_LOG_MAX_EVENTS))
  }

  /** A whole `emit` with no other in between. */
  function Emitted(log: Log, body: Str): Log {
    Appended(Allocated(log), Envelope(log.counter + 1, body))
  }

  class RedisPubSubService {
    var counter: nat
    var entries: seq<Envelope>

    ghost function State(): Log
      reads this
    {
      Log(counter, entries)
    }

    constructor ()
      ensures State() == Log(0, [])
    {
      counter, entries := 0, [];
    }

    method NextSequence() returns (id: nat)
      modifies this`counter
      ensures id == counter && State() == Allocated(old(State()))
    {
      counter := counter + 1;
      id := counter;
    }

    method AppendToReplayLog(e: Envelope)
      modifies this`entries
      ensures State() == Appended(old(State()), e)
    {
      entries := ZAdd(entries, e);
      entries := Newest(entries, REPLAY_LOG_MAX_EVENTS);
    }

    /** `BoardEventsService.emit`, with no other emit in between. */
    method Emit(body: Str) returns (frame: Envelope)
      modifies this
      ensures State() == Emitted(old(State()), body)
      ensures frame == Envelope(counter, body)
    {
      var id := NextSequence();
      frame := Envelope(id, body);
      AppendToReplayLog(frame);
    }

    /** The log's time to live runs out; the counter has none. */
    method Expire()
      modifies this`entries
      ensures State() == Log(old(counter), [])
    {
      entries := [];
    }

    method CurrentSequence() returns (head: nat)
      ensures head == counter
    {
      head := counter;
    }

    /** The range read, entry by entry. */
    method GetMissedEvents(afterSeq: int) returns (events: seq<Envelope>)
      ensures events == Missed(entries, afterSeq)
    {
      var lowerBound := (if afterSeq > 0 then afterSeq else 0) + 1;
      events := [];
      for k := 0 to |entries|
        invariant events == FromScore(entries[..k], lowerBound)
      {
        assert entries[..k + 1][..k] == entries[..k];
        if entries[k].seqId >= lowerBound {
          events := events + [entries[k]];
        }
      }
      assert entries[..|entries|] == entries;
    }
  }

  // --- what the log is, when emits are serialised --------------------------------------

  /** Frame `n` carries the `n`-th emitted mutation. */
  ghost predicate Genuine(e: Envelope, emitted: seq<Str>) {
    1 <= e.seqId <= |emitted| && e.body == emitted[e.seqId - 1]
  }

  /** Consecutive genuine frames. */
  ghost predicate IsRun(events: seq<Envelope>, emitted: seq<Str>) {
    forall i :: 0 <= i < |events| ==> Genuine(events[i], emitted) && events[i].seqId == events[0].seqId + i
  }

  /** The log is a gapless window of the newest mutations, ending at the counter. */
  ghost predicate IsWindow(log: Log, emitted: seq<Str>) {
    && log.counter == |emitted|
    && |log.entries| <= REPLAY_LOG_MAX_EVENTS
    && IsRun(log.entries, emitted)
    && (log.entries != [] ==> log.entries[|log.entries| - 1].seqId == log.counter)
  }

  /** The last sequence number that the log no longer holds. */
  function Rotated(log: Log): int {
    log.counter - |log.entries|
  }

  lemma EmitExtendsWindow(log: Log, emitted: seq<Str>, body: Str)
    requires IsWindow(log, emitted)
    ensures IsWindow(Emitted(log, body), emitted + [body])
    ensures var n := |log.entries| + 1;
      |Emitted(log, body).entries| == if n > REPLAY_LOG_MAX_EVENTS then REPLAY_LOG_MAX_EVENTS else n
  {
    var e := Envelope(log.counter + 1, body);
    assert ZAdd(log.entries, e) == log.entries + [e];
  }

  /** How many entries of a run lie below a score. */
  function BelowScore(entries: seq<Envelope>, lowest: int): (n: nat)
    ensures n <= |entries|
  {
    if entries == [] || lowest <= entries[0].seqId then 0
    else if lowest - entries[0].seqId >= |entries| then |entries|
    else lowest - entries[0].seqId
  }

  /** What the last entry of a run adds. */
  lemma SkipOneMore(entries: seq<Envelope>, lowest: int)
    requires entries != [] && entries[|entries| - 1].seqId == entries[0].seqId + |entries| - 1
    ensures var n := |entries| - 1;
      entries[BelowScore(entries, lowest)..] ==
        entries[..n][BelowScore(entries[..n], lowest)..] + if entries[n].seqId >= lowest then [entries[n]] else []
  {
    var n := |entries| - 1;
    var k := BelowScore(entries, lowest);
    if k <= n {
      assert BelowScore(entries[..n], lowest) == k;
      assert entries[..n][k..] + [entries[n]] == entries[k..];
    } else {
      assert BelowScore(entries[..n], lowest) == n;
    }
  }

  lemma {:induction false} FromScoreOfRun(entries: seq<Envelope>, emitted: seq<Str>, lowest: int)
    requires IsRun(entries, emitted)
    ensures FromScore(entries, lowest) == entries[BelowScore(entries, lowest)..]
  {
    if entries != [] {
      var n := |entries| - 1;
      var rest := entries[..n];
      assert forall i :: 0 <= i < n ==> rest[i] == entries[i];
      FromScoreOfRun(rest, emitted, lowest);
      assert entries[n].seqId == entries[0].seqId + n;
      SkipOneMore(entries, lowest);
    }
  }

  lemma MissedOfRun(entries: seq<Envelope>, emitted: seq<Str>, afterSeq: nat)
    requires IsRun(entries, emitted)
    ensures IsRun(Missed(entries, afterSeq), emitted)
  {
    FromScoreOfRun(entries, emitted, afterSeq + 1);
  }

  // --- what the log is, however emits overlap -------------------------------------------

  ghost predicate Ascending(events: seq<Envelope>) {
    forall i, j :: 0 <= i < j < |events| ==> events[i].seqId < events[j].seqId
  }

  lemma AppendKeepsAscending(entries: seq<Envelope>, last: Envelope)
    requires Ascending(entries) && forall x :: x in entries ==> x.seqId < last.seqId
    ensures Ascending(entries + [last])
    ensures forall x :: x in entries + [last] <==> x in entries || x == last
  {
  }

  lemma LastIsGreatest(entries: seq<Envelope>)
    requires Ascending(entries) && entries != []
    ensures forall x :: x in entries ==> x.seqId <= entries[|entries| - 1].seqId
    ensures forall x :: x in entries[..|entries| - 1] ==> x.seqId < entries[|entries| - 1].seqId
  {
  }

  /** A late append goes to its place by number. */
  lemma {:induction false} ZAddKeepsAscending(entries: seq<Envelope>, e: Envelope)
    requires Ascending(entries) && forall x :: x in entries ==> x.seqId != e.seqId
    ensures Ascending(ZAdd(entries, e))
    ensures forall x :: x in ZAdd(entries, e) <==> x in entries || x == e
  {
    if entries != [] {
      LastIsGreatest(entries);
    }
    if entries != [] && entries[|entries| - 1].seqId > e.seqId {
      var rest, last := entries[..|entries| - 1], entries[|entries| - 1];
      assert entries == rest + [last];
      ZAddKeepsAscending(rest, e);
      AppendKeepsAscending(ZAdd(rest, e), last);
    } else {
      AppendKeepsAscending(entries, e);
    }
  }

  lemma NewestKeepsAscending(entries: seq<Envelope>, limit: nat)
    requires Ascending(entries)
    ensures Ascending(Newest(entries, limit)) && |Newest(entries, limit)| <= limit
    ensures forall x :: x in Newest(entries, limit) ==> x in entries
  {
  }

  /** A read is ascending as well, and ends where the log ends. */
  lemma {:induction false} FromScoreKeepsAscending(entries: seq<Envelope>, lowest: int)
    requires Ascending(entries)
    ensures var r := FromScore(entries, lowest);
      && Ascending(r)
      && (forall x :: x in r ==> x in entries)
      && (r == [] <==> entries == [] || entries[|entries| - 1].seqId < lowest)
      && (r != [] ==> r[|r| - 1] == entries[|entries| - 1])
  {
    if entries != [] {
      var rest, last := entries[..|entries| - 1], entries[|entries| - 1];
      assert entries == rest + [last];
      FromScoreKeepsAscending(rest, lowest);
      var r := FromScore(rest, lowest);
      forall i | 0 <= i < |r| ensures r[i].seqId < last.seqId {
        assert r[i] in rest;
        var k :| 0 <= k < |rest| && rest[k] == r[i];
        assert rest[k] == entries[k];
      }
    }
  }

  /** And has every entry from the score on, holes or not. */
  lemma {:induction false} FromScoreIsExact(entries: seq<Envelope>, lowest: int, x: Envelope)
    ensures x in FromScore(entries, lowest) <==> x in entries && x.seqId >= lowest
  {
    if entries != [] {
      assert entries == entries[..|entries| - 1] + [entries[|entries| - 1]];
      FromScoreIsExact(entries[..|entries| - 1], lowest, x);
    }
  }

  /** What the client checks before it applies a sync result. */
  predicate HasGap(lastSeq: nat, events: seq<Envelope>, headSeq: nat) {
    || (events != [] && events[0].seqId > lastSeq + 1)
    || (events == [] && headSeq > lastSeq)
  }

  /** A read of the log is a run that reaches the counter, starting as early as the log allows. */
  lemma MissedIsRun(log: Log, emitted: seq<Str>, afterSeq: nat)
    requires IsWindow(log, emitted)
    ensures var events := Missed(log.entries, afterSeq);
      && IsRun(events, emitted)
      && (events != [] ==>
            && events[|events| - 1].seqId == log.counter
            && events[0].seqId == 1 + if afterSeq > Rotated(log) then afterSeq else Rotated(log))
      && (events == [] <==> log.entries == [] || afterSeq >= log.counter)
  {
    FromScoreOfRun(log.entries, emitted, afterSeq + 1);
  }

  /** The client's test is exact: it reports a gap just when a missed frame has left the log. */
  lemma GapIffRotated(log: Log, emitted: seq<Str>, lastSeq: nat)
    requires IsWindow(log, emitted) && lastSeq <= log.counter
    ensures HasGap(lastSeq, Missed(log.entries, lastSeq), log.counter) <==> lastSeq < Rotated(log)
    ensures lastSeq >= Rotated(log) ==>
      Missed(log.entries, lastSeq) ==
        seq(log.counter - lastSeq, i requires 0 <= i < log.counter - lastSeq =>
          Envelope(lastSeq + 1 + i, emitted[lastSeq + i]))
  {
    MissedIsRun(log, emitted, lastSeq);
    FromScoreOfRun(log.entries, emitted, lastSeq + 1);
  }
}
