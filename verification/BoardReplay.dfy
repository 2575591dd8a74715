/** That a board client applies what it can: frames as they come, and missed ones from the log. */
module BoardReplay {
  import opened Text
  import opened ReplayLog
  import opened BoardSocket
  import opened DeltaSync

  /** Frames handed in one by one, as the socket does. */
  function ReceivedAll(c: Client, frames: seq<Envelope>): Client {
    if frames == [] then c else AfterMutation(ReceivedAll(c, frames[..|frames| - 1]), frames[|frames| - 1])
  }

  function Deliveries(frames: seq<Envelope>): seq<Observation> {
    seq(|frames|, i requires 0 <= i < |frames| => Delivered(frames[i]))
  }

  /** The frames directly after `lastSeq`, without a gap. */
  ghost predicate Follow(lastSeq: nat, frames: seq<Envelope>) {
    forall i :: 0 <= i < |frames| ==> frames[i].seqId == lastSeq + 1 + i
  }

  lemma DeliveriesEnd(frames: seq<Envelope>)
    requires frames != []
    ensures Deliveries(frames) == Deliveries(frames[..|frames| - 1]) + [Delivered(frames[|frames| - 1])]
  {
  }

  /**
   * Frames that follow `lastSeq` are handed over, each as it comes, with no request to the server
   * and no reload; a batch of them ends the same.
   */
  lemma {:induction false} FollowingFramesAreDelivered(c: Client, frames: seq<Envelope>)
    requires Follow(c.lastSeq, frames)
    ensures ReceivedAll(c, frames) ==
      Client(c.lastSeq + |frames|, c.status, c.seen + Deliveries(frames), c.asked)
    ensures AppliedAll(c, frames) == ReceivedAll(c, frames)
  {
    if frames != [] {
      assert Follow(c.lastSeq, frames[..|frames| - 1]);
      FollowingFramesAreDelivered(c, frames[..|frames| - 1]);
      DeliveriesEnd(frames);
    }
  }

  /** The server answers the client's request for what comes after its `lastSeq`. */
  ghost function Answered(w: World): World
    requires w.client.lastSeq in w.client.asked
  {
    var events := Missed(w.log.entries, w.client.lastSeq);
    Next(Next(Next(w, ReadLog(w.client.lastSeq)), ReadHead(events)), Deliver(SyncResult(events, w.log.counter)))
  }

  /** The client joins, and is told the head. */
  ghost function Joined(w: World): World {
    Next(Next(w, AnswerJoin), Deliver(JoinAck(w.log.counter)))
  }

  /** The mutations after `lastSeq`, as frames. */
  function FramesAfter(lastSeq: nat, emitted: seq<Str>): (frames: seq<Envelope>)
    requires lastSeq <= |emitted|
    ensures Follow(lastSeq, frames)
  {
    seq(|emitted| - lastSeq, i requires 0 <= i < |emitted| - lastSeq =>
      Envelope(lastSeq + 1 + i, emitted[lastSeq + i]))
  }

  lemma AnswerReplaysIff(w: World)
    requires IsWindow(w.log, w.emitted) && w.client.lastSeq in w.client.asked && w.client.lastSeq < |w.emitted|
    ensures var c, d := w.client, Answered(w).client;
      && d.lastSeq == |w.emitted| && d.status == Synced && d.asked == c.asked
      && d.seen == c.seen + if c.lastSeq >= Rotated(w.log) then Deliveries(FramesAfter(c.lastSeq, w.emitted))
                            else [Resync(|w.emitted|)]
  {
    GapIffRotated(w.log, w.emitted, w.client.lastSeq);
    if w.client.lastSeq >= Rotated(w.log) {
      assert Missed(w.log.entries, w.client.lastSeq) == FramesAfter(w.client.lastSeq, w.emitted);
      FollowingFramesAreDelivered(w.client, FramesAfter(w.client.lastSeq, w.emitted));
    }
  }

  /**
   * A join on a log that ends at the head. The client reloads the board exactly if it is ahead of
   * the server, or the log no longer holds all that it missed; otherwise it is handed just the
   * missed mutations, in order, and asks the server only if there are any.
   */
  lemma JoinReplaysIff(w: World)
    requires IsWindow(w.log, w.emitted)
    ensures var c, j, head := w.client, Joined(w), |w.emitted|;
      if c.lastSeq >= head then
        j.client == Client(head, Synced, c.seen + if c.lastSeq > head then [Resync(head)] else [], c.asked)
      else
        && j.client == Client(c.lastSeq, Connected, c.seen, c.asked + [c.lastSeq])
        && c.lastSeq in j.client.asked
        && Answered(j).client ==
             Client(head, Synced,
                    c.seen + if c.lastSeq >= Rotated(w.log) then Deliveries(FramesAfter(c.lastSeq, w.emitted))
                             else [Resync(head)],
                    c.asked + [c.lastSeq])
  {
    var c, j := w.client, Joined(w);
    if c.lastSeq < |w.emitted| {
      assert j.client.asked[|c.asked|] == c.lastSeq;
      AnswerReplaysIff(j);
    }
  }

  lemma {:induction false} LogIsLimited(s: Setup, run: seq<Event>)
    requires s.Valid() && |s.entries| <= REPLAY_LOG_MAX_EVENTS && IsTrace(s, run)
    ensures |After(s, run).log.entries| <= REPLAY_LOG_MAX_EVENTS
    decreases |run|
  {
    if run != [] {
      LogIsLimited(s, run[..|run| - 1]);
    }
  }

  /** Where that holds: after every run whose emits append in order, once each is logged. */
  lemma OrderedLogsAreWindows(s: Setup, run: seq<Event>)
    requires s.Valid() && IsRun(s.entries, s.emitted) && EndsAt(s.entries, |s.emitted|)
    requires |s.entries| <= REPLAY_LOG_MAX_EVENTS
    requires IsTrace(s, run) && OrderedRun(s, run) && After(s, run).pending == {}
    ensures IsWindow(After(s, run).log, After(s, run).emitted)
  {
    OrderedRunsAreHoleFree(s, run);
    LogIsLimited(s, run);
    var w := After(s, run);
    assert w.logged < w.log.counter ==> w.log.counter in w.pending;
  }
}
