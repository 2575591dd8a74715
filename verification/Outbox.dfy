/** The persisted queue of offline mutations, flushed in order with a cap on retries. */
module Outbox {
  import opened Wrappers
  import opened Text

  type ItemId = Str

  datatype Item = Item(id: ItemId, body: Str, attempts: nat)

  const DEFAULT_MAX_ATTEMPTS := 5

  /** The stored queue, the item whose flush is awaited (if a drain is running), and the link. */
  datatype Box = Box(queue: seq<Item>, awaiting: Option<Item>, connected: bool)

  function Without(queue: seq<Item>, id: ItemId): seq<Item> {
    if queue == [] then []
    else if queue[0].id == id then Without(queue[1..], id)
    else [queue[0]] + Without(queue[1..], id)
  }

  function WithAttempts(queue: seq<Item>, id: ItemId, attempts: nat): seq<Item> {
    if queue == [] then []
    else
      [if queue[0].id == id then queue[0].(attempts := attempts) else queue[0]]
      + WithAttempts(queue[1..], id, attempts)
  }

  /** The head of the drain loop: take the next item, or finish. */
  function Looped(b: Box): Box {
    b.(awaiting := if b.queue != [] && b.connected then Some(b.queue[0]) else None)
  }

  /** `flushOutbox`: one drain at a time, and only while connected. */
  function Flushing(b: Box): Box {
    if b.awaiting.Some? || !b.connected then b else Looped(b)
  }

  function Enqueued(b: Box, item: Item): Box {
    Flushing(b.(queue := b.queue + [item]))
  }

  predicate Drops(item: Item, maxAttempts: int) {
    item.attempts + 1 >= maxAttempts
  }

  /** The awaited flush resolves or rejects, and the loop runs on to its next wait. */
  function Settled(b: Box, ok: bool, maxAttempts: int): Box
    requires b.awaiting.Some?
  {
    var next := b.awaiting.value;
    if ok || Drops(next, maxAttempts) then Looped(b.(queue := Without(b.queue, next.id)))
    else b.(queue := WithAttempts(b.queue, next.id, next.attempts + 1), awaiting := None)
  }

  lemma WithoutNext(kept: seq<Item>, queue: seq<Item>, k: nat, id: ItemId)
    requires k < |queue|
    ensures kept + Without(queue[k..], id) ==
      (if queue[k].id != id then kept + [queue[k]] else kept) + Without(queue[k + 1..], id)
  {
    var tail, rest := queue[k..], Without(queue[k + 1..], id);
    assert tail[0] == queue[k] && tail[1..] == queue[k + 1..];
    assert kept + ([queue[k]] + rest) == (kept + [queue[k]]) + rest;
  }

  class BoardOutbox {
    const maxAttempts: int
    var queue: seq<Item>
    var awaiting: Option<Item>
    var connected: bool
    var dropped: seq<Item>

    ghost function State(): Box
      reads this
    {
      Box(queue, awaiting, connected)
    }

    constructor (maxAttempts: Option<int>, stored: seq<Item>)
      ensures State() == Box(stored, None, false) && dropped == []
      ensures this.maxAttempts == maxAttempts.GetOr(DEFAULT_MAX_ATTEMPTS)
    {
      this.maxAttempts := maxAttempts.GetOr(DEFAULT_MAX_ATTEMPTS);
      queue, awaiting, connected, dropped := stored, None, false, [];
    }

    method Remove(id: ItemId)
      modifies this`queue
      ensures queue == Without(old(queue), id)
    {
      var kept: seq<Item> := [];
      var k := 0;
      while k < |queue|
        invariant 0 <= k <= |queue| && queue == old(queue)
        invariant kept + Without(queue[k..], id) == Without(queue, id)
      {
        WithoutNext(kept, queue, k, id);
        if queue[k].id != id {
          kept := kept + [queue[k]];
        }
        k := k + 1;
      }
      queue := kept;
    }

    method Bump(id: ItemId, attempts: nat)
      modifies this`queue
      ensures queue == WithAttempts(old(queue), id, attempts)
    {
      var mapped: seq<Item> := [];
      var k := 0;
      while k < |queue|
        invariant 0 <= k <= |queue| && queue == old(queue)
        invariant mapped + WithAttempts(queue[k..], id, attempts) == WithAttempts(queue, id, attempts)
      {
        var item := queue[k];
        ghost var tail := queue[k..];
        assert tail[0] == item && tail[1..] == queue[k + 1..];
        mapped := mapped + [if item.id == id then item.(attempts := attempts) else item];
        k := k + 1;
      }
      queue := mapped;
    }

    /** The loop head, up to the next `await`. */
    method Loop()
      modifies this`awaiting
      ensures State() == Looped(old(State()))
    {
      if |queue| > 0 && connected {
        awaiting := Some(queue[0]);
      } else {
        awaiting := None;
      }
    }

    method FlushOutbox()
      modifies this`awaiting
      ensures State() == Flushing(old(State()))
    {
      if awaiting.Some? || !connected {
        return;
      }
      Loop();
    }

    method EnqueueOutbound(item: Item)
      modifies this`queue, this`awaiting
      ensures State() == Enqueued(old(State()), item)
    {
      queue := queue + [item];
      if connected {
        FlushOutbox();
      }
    }

    /** From one `await` of the drain loop to the next. */
    method Settle(ok: bool)
      requires awaiting.Some?
      modifies this`queue, this`awaiting, this`dropped
      ensures State() == Settled(old(State()), ok, maxAttempts)
      ensures dropped ==
        old(dropped) + if !ok && Drops(old(awaiting).value, maxAttempts) then [old(awaiting).value] else []
    {
      var next := awaiting.value;
      if !ok {
        var attempts := next.attempts + 1;
        if attempts >= maxAttempts {
          Remove(next.id);
          dropped := dropped + [next];
          Loop();
          return;
        }
        Bump(next.id, attempts);
        awaiting := None;
        return;
      }
      Remove(next.id);
      Loop();
    }
  }

  // --- runs, with their history -----------------------------------------------------------

  /** How an item left the queue. */
  datatype Departure = Flushed(item: Item) | Dropped(item: Item)

  datatype Try = Try(id: ItemId, ok: bool)

  /** The box with everything ever queued, everything that left, and every flush call settled. */
  datatype World = World(box: Box, enqueued: seq<Item>, left: seq<Departure>, tries: seq<Try>)

  datatype Event = Enqueue(id: ItemId, body: Str) | Settle(ok: bool) | Connect | Joined | Disconnect

  /** A session starts on the queue that an earlier one stored, with whatever failures it had counted. */
  function Start(stored: seq<Item>): World {
    World(Box(stored, None, false), stored, [], [])
  }

  ghost predicate Enabled(w: World, e: Event) {
    match e
    case Enqueue(id, _) => forall k :: 0 <= k < |w.enqueued| ==> w.enqueued[k].id != id
    case Settle(_) => w.box.awaiting.Some?
    case Connect => true
    case Joined => true
    case Disconnect => true
  }

  ghost function Next(w: World, e: Event, maxAttempts: int): World
    requires Enabled(w, e)
  {
    match e
    case Enqueue(id, body) =>
      w.(box := Enqueued(w.box, Item(id, body, 0)), enqueued := w.enqueued + [Item(id, body, 0)])
    case Settle(ok) =>
      var next := w.box.awaiting.value;
      World(
        Settled(w.box, ok, maxAttempts), w.enqueued,
        if ok then w.left + [Flushed(next)] else if Drops(next, maxAttempts) then w.left + [Dropped(next)] else w.left,
        w.tries + [Try(next.id, ok)])
    case Connect => w.(box := w.box.(connected := true))
    case Joined => w.(box := Flushing(w.box))
    case Disconnect => w.(box := w.box.(connected := false))
  }

  ghost predicate IsRun(stored: seq<Item>, run: seq<Event>, maxAttempts: int)
    decreases |run|, 0
  {
    || run == []
    || (IsRun(stored, run[..|run| - 1], maxAttempts) &&
        Enabled(After(stored, run[..|run| - 1], maxAttempts), run[|run| - 1]))
  }

  ghost function After(stored: seq<Item>, run: seq<Event>, maxAttempts: int): World
    requires IsRun(stored, run, maxAttempts)
    decreases |run|, 1
  {
    if run == [] then Start(stored) else Next(After(stored, run[..|run| - 1], maxAttempts), run[|run| - 1], maxAttempts)
  }

  /** The calls an item may have from when it is first queued: at least one, even past the cap. */
  function Allowance(item: Item, maxAttempts: int): nat {
    if maxAttempts - item.attempts < 1 then 1 else maxAttempts - item.attempts
  }

  function Count(tries: seq<Try>, t: Try): nat {
    if tries == [] then 0
    else Count(tries[..|tries| - 1], t) + if tries[|tries| - 1] == t then 1 else 0
  }

  function Fails(tries: seq<Try>, id: ItemId): nat {
    Count(tries, Try(id, false))
  }

  function Successes(tries: seq<Try>, id: ItemId): nat {
    Count(tries, Try(id, true))
  }

  /** The same mutation, whatever its retries. */
  predicate Same(a: Item, b: Item) {
    a.id == b.id && a.body == b.body
  }

  ghost predicate UniqueIds(items: seq<Item>) {
    forall i, j :: 0 <= i < j < |items| ==> items[i].id != items[j].id
  }

  /** What has left, followed by the queue, is what was stored and enqueued, in order. */
  ghost predicate Conserved(queue: seq<Item>, enqueued: seq<Item>, left: seq<Departure>) {
    && |left| + |queue| == |enqueued|
    && (forall k :: 0 <= k < |left| ==> Same(left[k].item, enqueued[k]))
    && (forall k :: 0 <= k < |queue| ==> Same(queue[k], enqueued[|left| + k]))
  }

  /** A flushed item succeeded once, a dropped one failed exactly as often as it was allowed. */
  ghost predicate LeftProperly(d: Departure, original: Item, tries: seq<Try>, maxAttempts: int) {
    match d
    case Flushed(item) => Successes(tries, item.id) == 1 && Fails(tries, item.id) < Allowance(original, maxAttempts)
    case Dropped(item) => Successes(tries, item.id) == 0 && Fails(tries, item.id) == Allowance(original, maxAttempts)
  }

  /** A queued item has only failed so far, and only the head has been tried at all. */
  ghost predicate WaitsProperly(item: Item, original: Item, isHead: bool, tries: seq<Try>, maxAttempts: int) {
    && Successes(tries, item.id) == 0
    && Fails(tries, item.id) == item.attempts - original.attempts
    && Fails(tries, item.id) < Allowance(original, maxAttempts)
    && (isHead || item.attempts == original.attempts)
  }

  ghost predicate LeftFit(left: seq<Departure>, enqueued: seq<Item>, tries: seq<Try>, maxAttempts: int) {
    && |left| <= |enqueued|
    && forall k :: 0 <= k < |left| ==> LeftProperly(left[k], enqueued[k], tries, maxAttempts)
  }

  ghost predicate QueueFits(queue: seq<Item>, originals: seq<Item>, tries: seq<Try>, maxAttempts: int) {
    && |queue| == |originals|
    && forall k :: 0 <= k < |queue| ==> WaitsProperly(queue[k], originals[k], k == 0, tries, maxAttempts)
  }

  ghost predicate OnlyEnqueuedTried(enqueued: seq<Item>, tries: seq<Try>) {
    forall t :: t in tries ==> exists k :: 0 <= k < |enqueued| && enqueued[k].id == t.id
  }

  /** What holds of the queue and its history, whatever the link does. */
  ghost predicate History(queue: seq<Item>, enqueued: seq<Item>, left: seq<Departure>, tries: seq<Try>,
                          maxAttempts: int) {
    && UniqueIds(enqueued)
    && Conserved(queue, enqueued, left)
    && LeftFit(left, enqueued, tries, maxAttempts)
    && QueueFits(queue, enqueued[|left|..], tries, maxAttempts)
    && OnlyEnqueuedTried(enqueued, tries)
  }

  ghost predicate Invariant(w: World, maxAttempts: int) {
    && History(w.box.queue, w.enqueued, w.left, w.tries, maxAttempts)
    && (w.box.awaiting.Some? ==> w.box.queue != [] && w.box.awaiting.value == w.box.queue[0])
  }

  lemma {:induction false} WithoutAbsent(queue: seq<Item>, id: ItemId)
    requires forall k :: 0 <= k < |queue| ==> queue[k].id != id
    ensures Without(queue, id) == queue
  {
    if queue != [] {
      WithoutAbsent(queue[1..], id);
    }
  }

  lemma {:induction false} BumpAbsent(queue: seq<Item>, id: ItemId, attempts: nat)
    requires forall k :: 0 <= k < |queue| ==> queue[k].id != id
    ensures WithAttempts(queue, id, attempts) == queue
  {
    if queue != [] {
      BumpAbsent(queue[1..], id, attempts);
    }
  }

  /** With unique ids, the filter removes the head and the map touches only the head. */
  lemma HeadOnly(queue: seq<Item>, attempts: nat)
    requires queue != [] && UniqueIds(queue)
    ensures Without(queue, queue[0].id) == queue[1..]
    ensures WithAttempts(queue, queue[0].id, attempts) == [queue[0].(attempts := attempts)] + queue[1..]
  {
    WithoutAbsent(queue[1..], queue[0].id);
    BumpAbsent(queue[1..], queue[0].id, attempts);
  }

  lemma {:induction false} UntriedCounts(tries: seq<Try>, id: ItemId)
    requires forall t :: t in tries ==> t.id != id
    ensures Fails(tries, id) == 0 && Successes(tries, id) == 0
  {
    if tries != [] {
      assert tries[|tries| - 1] in tries;
      UntriedCounts(tries[..|tries| - 1], id);
    }
  }

  lemma CountMore(tries: seq<Try>, last: Try, t: Try)
    ensures Count(tries + [last], t) == Count(tries, t) + if t == last then 1 else 0
  {
    assert (tries + [last])[..|tries|] == tries;
  }

  lemma OthersUntouched(tries: seq<Try>, last: Try, id: ItemId)
    requires id != last.id
    ensures Fails(tries + [last], id) == Fails(tries, id) && Successes(tries + [last], id) == Successes(tries, id)
  {
    CountMore(tries, last, Try(id, false));
    CountMore(tries, last, Try(id, true));
  }

  lemma QueueIdsUnique(w: World)
    requires UniqueIds(w.enqueued) && Conserved(w.box.queue, w.enqueued, w.left)
    ensures UniqueIds(w.box.queue)
    ensures w.box.queue != [] ==> forall k :: 0 <= k < |w.left| ==> w.left[k].item.id != w.box.queue[0].id
  {
    forall i, j | 0 <= i < j < |w.box.queue| ensures w.box.queue[i].id != w.box.queue[j].id {
      assert w.enqueued[|w.left| + i].id != w.enqueued[|w.left| + j].id;
    }
    if w.box.queue != [] {
      forall k | 0 <= k < |w.left| ensures w.left[k].item.id != w.box.queue[0].id {
        assert w.enqueued[k].id != w.enqueued[|w.left|].id;
      }
    }
  }

  lemma EnqueueConserves(w: World, id: ItemId, body: Str, maxAttempts: int)
    requires UniqueIds(w.enqueued) && Conserved(w.box.queue, w.enqueued, w.left)
    requires OnlyEnqueuedTried(w.enqueued, w.tries) && Enabled(w, Enqueue(id, body))
    ensures var w' := Next(w, Enqueue(id, body), maxAttempts);
      && UniqueIds(w'.enqueued) && Conserved(w'.box.queue, w'.enqueued, w'.left)
      && OnlyEnqueuedTried(w'.enqueued, w'.tries)
  {
    var w' := Next(w, Enqueue(id, body), maxAttempts);
    assert w'.box.queue == w.box.queue + [Item(id, body, 0)];
    forall t | t in w'.tries ensures exists k :: 0 <= k < |w'.enqueued| && w'.enqueued[k].id == t.id {
      var k :| 0 <= k < |w.enqueued| && w.enqueued[k].id == t.id;
      assert w'.enqueued[k].id == t.id;
    }
  }

  lemma OneMoreFits(queue: seq<Item>, originals: seq<Item>, item: Item, tries: seq<Try>, maxAttempts: int)
    requires QueueFits(queue, originals, tries, maxAttempts)
    requires Fails(tries, item.id) == 0 && Successes(tries, item.id) == 0
    ensures QueueFits(queue + [item], originals + [item], tries, maxAttempts)
  {
    var q, o := queue + [item], originals + [item];
    forall k | 0 <= k < |q| ensures WaitsProperly(q[k], o[k], k == 0, tries, maxAttempts) {
      if k < |queue| {
        assert WaitsProperly(queue[k], originals[k], k == 0, tries, maxAttempts);
      }
    }
  }

  lemma EnqueueKeepsInvariant(w: World, id: ItemId, body: Str, maxAttempts: int)
    requires Invariant(w, maxAttempts) && Enabled(w, Enqueue(id, body))
    ensures Invariant(Next(w, Enqueue(id, body), maxAttempts), maxAttempts)
  {
    var w', item, n := Next(w, Enqueue(id, body), maxAttempts), Item(id, body, 0), |w.left|;
    EnqueueConserves(w, id, body, maxAttempts);
    UntriedCounts(w.tries, id);
    OneMoreFits(w.box.queue, w.enqueued[n..], item, w.tries, maxAttempts);
    assert w'.enqueued[n..] == w.enqueued[n..] + [item];
    assert w'.box.queue == w.box.queue + [item];
  }

  /** Whether the link is up makes no difference to what is queued. */
  lemma LinkKeepsInvariant(w: World, e: Event, maxAttempts: int)
    requires Invariant(w, maxAttempts) && (e.Connect? || e.Joined? || e.Disconnect?)
    ensures Invariant(Next(w, e, maxAttempts), maxAttempts)
  {
    var w' := Next(w, e, maxAttempts);
    assert w' == w.(box := w'.box) && w'.box.queue == w.box.queue;
  }

  /** The queue after a settled flush. */
  lemma SettledQueue(w: World, ok: bool, maxAttempts: int)
    requires Invariant(w, maxAttempts) && w.box.awaiting.Some?
    ensures var b := Settled(w.box, ok, maxAttempts);
      var head := w.box.queue[0];
      && b.queue == (if ok || Drops(head, maxAttempts) then w.box.queue[1..]
                     else [head.(attempts := head.attempts + 1)] + w.box.queue[1..])
      && (b.awaiting.Some? ==> b.queue != [] && b.awaiting.value == b.queue[0])
  {
    QueueIdsUnique(w);
    HeadOnly(w.box.queue, w.box.queue[0].attempts + 1);
  }

  /** Either the head leaves, or it stays with another retry count. */
  lemma HeadMovesConserve(w: World, w': World, d: Departure)
    requires Conserved(w.box.queue, w.enqueued, w.left) && w.box.queue != [] && w'.enqueued == w.enqueued
    requires
      || (w'.left == w.left + [d] && d.item == w.box.queue[0] && w'.box.queue == w.box.queue[1..])
      || (w'.left == w.left && exists n: nat :: w'.box.queue == [w.box.queue[0].(attempts := n)] + w.box.queue[1..])
    ensures Conserved(w'.box.queue, w'.enqueued, w'.left)
  {
  }

  lemma SettleConserves(w: World, ok: bool, maxAttempts: int)
    requires Invariant(w, maxAttempts) && w.box.awaiting.Some?
    ensures var w' := Next(w, Settle(ok), maxAttempts); Conserved(w'.box.queue, w'.enqueued, w'.left)
  {
    SettledQueue(w, ok, maxAttempts);
    var head := w.box.queue[0];
    HeadMovesConserve(w, Next(w, Settle(ok), maxAttempts), if ok then Flushed(head) else Dropped(head));
  }

  lemma SettleTriesEnqueued(w: World, ok: bool, maxAttempts: int)
    requires OnlyEnqueuedTried(w.enqueued, w.tries) && w.box.awaiting.Some?
    requires exists k :: 0 <= k < |w.enqueued| && w.enqueued[k].id == w.box.awaiting.value.id
    ensures var w' := Next(w, Settle(ok), maxAttempts); OnlyEnqueuedTried(w'.enqueued, w'.tries)
  {
    var w' := Next(w, Settle(ok), maxAttempts);
    assert w'.tries == w.tries + [Try(w.box.awaiting.value.id, ok)] && w'.enqueued == w.enqueued;
  }

  /** What the settled call adds to the counts of its own item and of the others. */
  lemma SettledCounts(w: World, ok: bool, maxAttempts: int)
    requires Invariant(w, maxAttempts) && w.box.awaiting.Some?
    ensures var tries, head := Next(w, Settle(ok), maxAttempts).tries, w.box.queue[0];
      && Fails(tries, head.id) == Fails(w.tries, head.id) + (if ok then 0 else 1)
      && Successes(tries, head.id) == Successes(w.tries, head.id) + (if ok then 1 else 0)
      && forall id :: id != head.id ==>
           Fails(tries, id) == Fails(w.tries, id) && Successes(tries, id) == Successes(w.tries, id)
  {
    var head := w.box.queue[0];
    var last := Try(head.id, ok);
    CountMore(w.tries, last, Try(head.id, false));
    CountMore(w.tries, last, Try(head.id, true));
    forall id | id != head.id
      ensures Fails(w.tries + [last], id) == Fails(w.tries, id)
      ensures Successes(w.tries + [last], id) == Successes(w.tries, id)
    {
      OthersUntouched(w.tries, last, id);
    }
  }

  lemma SettledHeadFits(w: World, ok: bool, maxAttempts: int)
    requires Invariant(w, maxAttempts) && w.box.awaiting.Some?
    ensures var w', head, original := Next(w, Settle(ok), maxAttempts), w.box.queue[0], w.enqueued[|w.left|];
      if ok then LeftProperly(Flushed(head), original, w'.tries, maxAttempts)
      else if Drops(head, maxAttempts) then LeftProperly(Dropped(head), original, w'.tries, maxAttempts)
      else WaitsProperly(head.(attempts := head.attempts + 1), original, true, w'.tries, maxAttempts)
  {
    var head, original := w.box.queue[0], w.enqueued[|w.left|];
    SettledCounts(w, ok, maxAttempts);
    assert WaitsProperly(head, original, true, w.tries, maxAttempts);
  }

  lemma SettleKeepsLeft(w: World, ok: bool, maxAttempts: int)
    requires Invariant(w, maxAttempts) && w.box.awaiting.Some?
    ensures var w' := Next(w, Settle(ok), maxAttempts);
      Conserved(w'.box.queue, w'.enqueued, w'.left) && LeftFit(w'.left, w'.enqueued, w'.tries, maxAttempts)
  {
    var w' := Next(w, Settle(ok), maxAttempts);
    QueueIdsUnique(w);
    SettleConserves(w, ok, maxAttempts);
    SettledCounts(w, ok, maxAttempts);
    SettledHeadFits(w, ok, maxAttempts);
    forall k | 0 <= k < |w'.left| ensures LeftProperly(w'.left[k], w'.enqueued[k], w'.tries, maxAttempts) {
      if k < |w.left| {
        assert LeftProperly(w.left[k], w.enqueued[k], w.tries, maxAttempts);
      }
    }
  }

  /** The items behind the head only see their counts unchanged. */
  ghost predicate SameCountsBehind(queue: seq<Item>, tries: seq<Try>, tries': seq<Try>) {
    forall k :: 0 < k < |queue| ==>
      Fails(tries', queue[k].id) == Fails(tries, queue[k].id) &&
      Successes(tries', queue[k].id) == Successes(tries, queue[k].id)
  }

  lemma TailFits(queue: seq<Item>, originals: seq<Item>, tries: seq<Try>, tries': seq<Try>, maxAttempts: int)
    requires queue != [] && QueueFits(queue, originals, tries, maxAttempts) && SameCountsBehind(queue, tries, tries')
    ensures QueueFits(queue[1..], originals[1..], tries', maxAttempts)
  {
    forall k | 0 <= k < |queue[1..]|
      ensures WaitsProperly(queue[1..][k], originals[1..][k], k == 0, tries', maxAttempts)
    {
      assert WaitsProperly(queue[k + 1], originals[k + 1], false, tries, maxAttempts);
    }
  }

  lemma BumpedFits(queue: seq<Item>, head: Item, originals: seq<Item>, tries: seq<Try>, tries': seq<Try>,
                   maxAttempts: int)
    requires queue != [] && QueueFits(queue, originals, tries, maxAttempts) && SameCountsBehind(queue, tries, tries')
    requires WaitsProperly(head, originals[0], true, tries', maxAttempts)
    ensures QueueFits([head] + queue[1..], originals, tries', maxAttempts)
  {
    var bumped := [head] + queue[1..];
    forall k | 0 <= k < |bumped| ensures WaitsProperly(bumped[k], originals[k], k == 0, tries', maxAttempts) {
      if k > 0 {
        assert WaitsProperly(queue[k], originals[k], false, tries, maxAttempts);
      }
    }
  }

  lemma SettleKeepsQueue(w: World, ok: bool, maxAttempts: int)
    requires Invariant(w, maxAttempts) && w.box.awaiting.Some?
    ensures var w' := Next(w, Settle(ok), maxAttempts);
      |w'.left| <= |w'.enqueued| && QueueFits(w'.box.queue, w'.enqueued[|w'.left|..], w'.tries, maxAttempts)
  {
    var w', queue := Next(w, Settle(ok), maxAttempts), w.box.queue;
    var originals := w.enqueued[|w.left|..];
    QueueIdsUnique(w);
    SettledQueue(w, ok, maxAttempts);
    SettledCounts(w, ok, maxAttempts);
    SettledHeadFits(w, ok, maxAttempts);
    assert SameCountsBehind(queue, w.tries, w'.tries);
    if ok || Drops(queue[0], maxAttempts) {
      TailFits(queue, originals, w.tries, w'.tries, maxAttempts);
      assert originals[1..] == w'.enqueued[|w'.left|..];
    } else {
      BumpedFits(queue, queue[0].(attempts := queue[0].attempts + 1), originals, w.tries, w'.tries, maxAttempts);
    }
  }

  lemma SettleKeepsInvariant(w: World, ok: bool, maxAttempts: int)
    requires Invariant(w, maxAttempts) && w.box.awaiting.Some?
    ensures Invariant(Next(w, Settle(ok), maxAttempts), maxAttempts)
  {
    SettledQueue(w, ok, maxAttempts);
    assert w.enqueued[|w.left|].id == w.box.awaiting.value.id;
    SettleTriesEnqueued(w, ok, maxAttempts);
    SettleKeepsLeft(w, ok, maxAttempts);
    SettleKeepsQueue(w, ok, maxAttempts);
  }

  lemma StepKeepsInvariant(w: World, e: Event, maxAttempts: int)
    requires Invariant(w, maxAttempts) && Enabled(w, e)
    ensures Invariant(Next(w, e, maxAttempts), maxAttempts)
  {
    match e
    case Enqueue(id, body) => EnqueueKeepsInvariant(w, id, body, maxAttempts);
    case Settle(ok) => SettleKeepsInvariant(w, ok, maxAttempts);
    case _ => LinkKeepsInvariant(w, e, maxAttempts);
  }

  lemma UntriedQueueFits(stored: seq<Item>, maxAttempts: int)
    ensures QueueFits(stored, stored, [], maxAttempts)
  {
  }

  lemma StartConserves(stored: seq<Item>)
    ensures Conserved(stored, stored, []) && OnlyEnqueuedTried(stored, [])
  {
  }

  lemma StartFits(stored: seq<Item>, maxAttempts: int)
    requires UniqueIds(stored)
    ensures Invariant(Start(stored), maxAttempts)
  {
    StartConserves(stored);
    UntriedQueueFits(stored, maxAttempts);
    assert stored[0..] == stored;
  }

  /**
   * Over every run: what left is a prefix of what was enqueued, each flushed once or dropped on
   * exactly its last allowed failure, and the rest is still queued in order.
   */
  lemma {:induction false} OutboxConserves(stored: seq<Item>, run: seq<Event>, maxAttempts: int)
    requires UniqueIds(stored) && IsRun(stored, run, maxAttempts)
    ensures Invariant(After(stored, run, maxAttempts), maxAttempts)
    decreases |run|
  {
    if run == [] {
      StartFits(stored, maxAttempts);
    } else {
      OutboxConserves(stored, run[..|run| - 1], maxAttempts);
      StepKeepsInvariant(After(stored, run[..|run| - 1], maxAttempts), run[|run| - 1], maxAttempts);
    }
  }

  lemma InvariantCapsTries(w: World, maxAttempts: int, k: nat)
    requires Invariant(w, maxAttempts) && k < |w.enqueued|
    ensures Fails(w.tries, w.enqueued[k].id) + Successes(w.tries, w.enqueued[k].id)
              <= Allowance(w.enqueued[k], maxAttempts)
  {
    if k < |w.left| {
      assert LeftProperly(w.left[k], w.enqueued[k], w.tries, maxAttempts);
    } else {
      var i, originals := k - |w.left|, w.enqueued[|w.left|..];
      assert WaitsProperly(w.box.queue[i], originals[i], i == 0, w.tries, maxAttempts);
    }
  }

  /** No item is ever sent more often than it is allowed, and nothing but queued items is sent. */
  lemma TriesAreCapped(stored: seq<Item>, run: seq<Event>, maxAttempts: int)
    requires UniqueIds(stored) && IsRun(stored, run, maxAttempts)
    ensures var w := After(stored, run, maxAttempts);
      && OnlyEnqueuedTried(w.enqueued, w.tries)
      && forall k :: 0 <= k < |w.enqueued| ==>
           Fails(w.tries, w.enqueued[k].id) + Successes(w.tries, w.enqueued[k].id)
             <= Allowance(w.enqueued[k], maxAttempts)
  {
    OutboxConserves(stored, run, maxAttempts);
    var w := After(stored, run, maxAttempts);
    forall k | 0 <= k < |w.enqueued|
      ensures Fails(w.tries, w.enqueued[k].id) + Successes(w.tries, w.enqueued[k].id)
                <= Allowance(w.enqueued[k], maxAttempts)
    {
      InvariantCapsTries(w, maxAttempts, k);
    }
  }

  /** A drain left to itself: the outcomes of its flushes, with nothing else happening between them. */
  ghost predicate Drains(w: World, oks: seq<bool>, maxAttempts: int)
    decreases |oks|
  {
    oks == [] || (Enabled(w, Settle(oks[0])) && Drains(Next(w, Settle(oks[0]), maxAttempts), oks[1..], maxAttempts))
  }

  /** The loop terminates: from any reachable state it makes at most one call per queued item. */
  lemma DrainTerminates(stored: seq<Item>, run: seq<Event>, maxAttempts: int, oks: seq<bool>)
    requires UniqueIds(stored) && IsRun(stored, run, maxAttempts)
    requires Drains(After(stored, run, maxAttempts), oks, maxAttempts)
    ensures |oks| <= |After(stored, run, maxAttempts).box.queue|
  {
    OutboxConserves(stored, run, maxAttempts);
    DrainIsShort(After(stored, run, maxAttempts), maxAttempts, oks);
  }

  lemma {:induction false} DrainIsShort(w: World, maxAttempts: int, oks: seq<bool>)
    requires Invariant(w, maxAttempts) && Drains(w, oks, maxAttempts)
    ensures |oks| <= |w.box.queue|
    decreases |oks|
  {
    if oks != [] {
      SettledQueue(w, oks[0], maxAttempts);
      StepKeepsInvariant(w, Settle(oks[0]), maxAttempts);
      DrainIsShort(Next(w, Settle(oks[0]), maxAttempts), maxAttempts, oks[1..]);
    }
  }

  /** While a drain awaits nothing and the link is up, a join starts on the oldest item. */
  lemma JoinResumes(stored: seq<Item>, run: seq<Event>, maxAttempts: int)
    requires UniqueIds(stored) && IsRun(stored, run, maxAttempts)
    ensures var w := Next(Next(After(stored, run, maxAttempts), Connect, maxAttempts), Joined, maxAttempts);
      w.box.awaiting == if w.box.queue == [] then None else Some(w.box.queue[0])
  {
    OutboxConserves(stored, run, maxAttempts);
  }
}
