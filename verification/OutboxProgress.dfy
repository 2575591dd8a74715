/** That the outbox moves: when a drain starts, how far it goes, and when a filled queue may idle. */
module OutboxProgress {
  import opened Wrappers
  import opened Text
  import opened Outbox

  /** Idle on a filled queue although the link is up. */
  predicate Idles(b: Box) {
    b.awaiting.None? && b.connected && b.queue != []
  }

  /** The flush of the head rejected, and its failure was counted. */
  ghost predicate CountedFailure(w: World, e: Event, maxAttempts: int) {
    e == Settle(false) && w.box.awaiting.Some? && w.box.awaiting.value.attempts + 1 < maxAttempts
  }

  /**
   * After any run, a filled queue idles on an open link only where a counted failure has just
   * stopped a drain, or where the link has come up and the board is not joined yet.
   */
  lemma IdlesOnlyAfterFailure(stored: seq<Item>, run: seq<Event>, maxAttempts: int)
    requires UniqueIds(stored) && IsRun(stored, run, maxAttempts)
    requires Idles(After(stored, run, maxAttempts).box)
    ensures run != []
    ensures var before, e := After(stored, run[..|run| - 1], maxAttempts), run[|run| - 1];
      e == Connect || CountedFailure(before, e, maxAttempts)
  {
    if run != [] {
      OutboxConserves(stored, run[..|run| - 1], maxAttempts);
    }
  }

  /** On an open link an enqueue leaves a drain running, on the oldest item. */
  lemma EnqueueStarts(w: World, id: ItemId, body: Str, maxAttempts: int)
    requires Invariant(w, maxAttempts) && Enabled(w, Enqueue(id, body)) && w.box.connected
    ensures var b := Next(w, Enqueue(id, body), maxAttempts).box;
      && b.queue == w.box.queue + [Item(id, body, 0)] && b.connected
      && b.awaiting == Some(b.queue[0])
  {
    assert (w.box.queue + [Item(id, body, 0)]) != [];
  }

  /** The calls answered so far each took the head off the queue. */
  ghost predicate AllRemove(queue: seq<Item>, oks: seq<bool>, maxAttempts: int) {
    |oks| <= |queue| && forall i :: 0 <= i < |oks| ==> oks[i] || queue[i].attempts + 1 >= maxAttempts
  }

  /** How the first items leave by these answers. */
  function Departures(queue: seq<Item>, oks: seq<bool>): seq<Departure>
    requires |oks| <= |queue|
  {
    seq(|oks|, i requires 0 <= i < |oks| => if oks[i] then Flushed(queue[i]) else Dropped(queue[i]))
  }

  ghost function Drained(w: World, oks: seq<bool>, maxAttempts: int): World
    requires Drains(w, oks, maxAttempts)
    decreases |oks|
  {
    if oks == [] then w else Drained(Next(w, Settle(oks[0]), maxAttempts), oks[1..], maxAttempts)
  }

  /** A drain waits for the head of a queue of distinct items, on an open link. */
  ghost predicate Draining(b: Box) {
    && b.connected && UniqueIds(b.queue)
    && b.awaiting == (if b.queue == [] then None else Some(b.queue[0]))
  }

  lemma DrainStep(w: World, ok: bool, maxAttempts: int)
    requires Draining(w.box) && w.box.queue != [] && (ok || w.box.queue[0].attempts + 1 >= maxAttempts)
    ensures var t, head := Next(w, Settle(ok), maxAttempts), w.box.queue[0];
      && Draining(t.box) && t.box.queue == w.box.queue[1..]
      && t.left == w.left + [if ok then Flushed(head) else Dropped(head)]
  {
    HeadOnly(w.box.queue, 0);
  }

  lemma DeparturesFirst(left: seq<Departure>, queue: seq<Item>, oks: seq<bool>)
    requires 0 < |oks| <= |queue|
    ensures left + [if oks[0] then Flushed(queue[0]) else Dropped(queue[0])] + Departures(queue[1..], oks[1..]) ==
            left + Departures(queue, oks)
    ensures queue[1..][|oks[1..]|..] == queue[|oks|..]
  {
  }

  lemma OthersRemove(queue: seq<Item>, oks: seq<bool>, maxAttempts: int)
    requires oks != [] && AllRemove(queue, oks, maxAttempts)
    ensures AllRemove(queue[1..], oks[1..], maxAttempts)
  {
    assert forall i :: 0 <= i < |oks[1..]| ==> oks[1..][i] == oks[i + 1] && queue[1..][i] == queue[i + 1];
  }

  /**
   * A drain goes on while its calls succeed (or drop their item): it takes the items in order, one
   * call each, and ends only with the queue.
   */
  lemma {:induction false} DrainGoesOn(w: World, oks: seq<bool>, maxAttempts: int)
    requires Draining(w.box) && AllRemove(w.box.queue, oks, maxAttempts)
    ensures Drains(w, oks, maxAttempts)
    ensures var t, rest := Drained(w, oks, maxAttempts), w.box.queue[|oks|..];
      && t.box == Box(rest, if rest == [] then None else Some(rest[0]), true)
      && t.left == w.left + Departures(w.box.queue, oks)
    decreases |oks|
  {
    if oks != [] {
      DrainStep(w, oks[0], maxAttempts);
      OthersRemove(w.box.queue, oks, maxAttempts);
      DeparturesFirst(w.left, w.box.queue, oks);
      DrainGoesOn(Next(w, Settle(oks[0]), maxAttempts), oks[1..], maxAttempts);
    }
  }

  lemma RunningDrains(w: World, maxAttempts: int)
    requires Invariant(w, maxAttempts) && w.box.connected && (w.box.queue != [] ==> w.box.awaiting.Some?)
    ensures Draining(w.box)
  {
    QueueIdsUnique(w);
  }

  /** A failure that is not the item's last stops the drain: the item stays first, with one more failure counted. */
  lemma FailureStopsDrain(w: World, maxAttempts: int)
    requires Invariant(w, maxAttempts) && w.box.awaiting.Some? && w.box.queue[0].attempts + 1 < maxAttempts
    ensures var t, head := Next(w, Settle(false), maxAttempts), w.box.queue[0];
      && t.box.queue == [head.(attempts := head.attempts + 1)] + w.box.queue[1..]
      && t.box.awaiting == None && t.left == w.left
  {
    SettledQueue(w, false, maxAttempts);
  }

  function Successful(n: nat): seq<bool> {
    seq(n, _ => true)
  }

  /**
   * After any run that left the link up, an enqueue is the last thing needed: if the server takes
   * everything, the whole queue is flushed in order, and nothing else has to happen.
   */
  lemma EnqueueFlushesAll(stored: seq<Item>, run: seq<Event>, maxAttempts: int, id: ItemId, body: Str)
    requires UniqueIds(stored) && IsRun(stored, run, maxAttempts)
    requires After(stored, run, maxAttempts).box.connected
    requires Enabled(After(stored, run, maxAttempts), Enqueue(id, body))
    ensures var w := After(stored, run, maxAttempts);
      var t, all := Next(w, Enqueue(id, body), maxAttempts), w.box.queue + [Item(id, body, 0)];
      && Drains(t, Successful(|all|), maxAttempts)
      && Drained(t, Successful(|all|), maxAttempts).box == Box([], None, true)
      && Drained(t, Successful(|all|), maxAttempts).left ==
           w.left + seq(|all|, i requires 0 <= i < |all| => Flushed(all[i]))
  {
    var w := After(stored, run, maxAttempts);
    OutboxConserves(stored, run, maxAttempts);
    EnqueueStarts(w, id, body, maxAttempts);
    var t, all := Next(w, Enqueue(id, body), maxAttempts), w.box.queue + [Item(id, body, 0)];
    StepKeepsInvariant(w, Enqueue(id, body), maxAttempts);
    RunningDrains(t, maxAttempts);
    DrainGoesOn(t, Successful(|all|), maxAttempts);
    assert Departures(all, Successful(|all|)) == seq(|all|, i requires 0 <= i < |all| => Flushed(all[i]));
  }

  /** And so is a join after a reconnect, whatever was queued meanwhile. */
  lemma JoinFlushesAll(stored: seq<Item>, run: seq<Event>, maxAttempts: int)
    requires UniqueIds(stored) && IsRun(stored, run, maxAttempts)
    ensures var w := After(stored, run, maxAttempts);
      var t := Next(Next(w, Connect, maxAttempts), Joined, maxAttempts);
      && Drains(t, Successful(|w.box.queue|), maxAttempts)
      && Drained(t, Successful(|w.box.queue|), maxAttempts).box == Box([], None, true)
      && |Drained(t, Successful(|w.box.queue|), maxAttempts).left| == |w.enqueued|
  {
    var w := After(stored, run, maxAttempts);
    OutboxConserves(stored, run, maxAttempts);
    JoinResumes(stored, run, maxAttempts);
    StepKeepsInvariant(w, Connect, maxAttempts);
    StepKeepsInvariant(Next(w, Connect, maxAttempts), Joined, maxAttempts);
    RunningDrains(Next(Next(w, Connect, maxAttempts), Joined, maxAttempts), maxAttempts);
    DrainGoesOn(Next(Next(w, Connect, maxAttempts), Joined, maxAttempts), Successful(|w.box.queue|), maxAttempts);
  }
}
