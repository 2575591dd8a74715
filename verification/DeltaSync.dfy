/**
 * The realtime protocol between the replay log and one board client, over a network that may lose,
 * delay, repeat and reorder everything. Emits overlap: each takes its number in one step and
 * appends to the log in a later one, or fails. A sync reads the log, then the head.
 */
module DeltaSync {
  import opened Text
  import opened ReplayLog
  import opened BoardSocket

  datatype Message =
    | JoinAck(headSeq: nat)
    | Frame(frame: Envelope)
    | LogRead(events: seq<Envelope>)  // in the gateway: the log is read, the head is not
    | SyncResult(events: seq<Envelope>, headSeq: nat)

  /**
   * `pending` numbers are taken but not logged; `logged` is the greatest logged so far; `heads[i]`
   * is the server's head when the client observed `client.seen[i]`.
   */
  datatype World = World(log: Log, emitted: seq<Str>, pending: set<nat>, logged: nat,
                         wire: set<Message>, client: Client, heads: seq<nat>)

  datatype Event =
    | Allocate(body: Str)
    | Append(seqId: nat)
    | Drop(seqId: nat)
    | Expire
    | AnswerJoin
    | ReadLog(lastSeq: nat)
    | ReadHead(events: seq<Envelope>)
    | Deliver(m: Message)

  ghost predicate Enabled(w: World, e: Event) {
    match e
    case Append(n) => n in w.pending && 1 <= n <= |w.emitted|
    case Drop(n) => n in w.pending
    case ReadLog(lastSeq) => lastSeq in w.client.asked
    case ReadHead(events) => LogRead(events) in w.wire
    case Deliver(m) => m in w.wire && !m.LogRead?
    case _ => true
  }

  function Handled(c: Client, m: Message): Client
    requires !m.LogRead?
  {
    match m
    case JoinAck(headSeq) => AfterJoined(c, headSeq)
    case Frame(frame) => AfterMutation(c, frame)
    case SyncResult(events, headSeq) => AfterSyncResult(c, events, headSeq)
  }

  /** Deliveries leave the message on the wire: it may come again, late, or never. */
  ghost function Next(w: World, e: Event): World
    requires Enabled(w, e)
  {
    match e
    case Allocate(body) =>
      w.(log := Allocated(w.log), emitted := w.emitted + [body], pending := w.pending + {w.log.counter + 1})
    case Append(n) =>
      var frame := Envelope(n, w.emitted[n - 1]);
      w.(log := Appended(w.log, frame), pending := w.pending - {n}, logged := if n > w.logged then n else w.logged,
         wire := w.wire + {Frame(frame)})
    case Drop(n) => w.(pending := w.pending - {n})
    case Expire => w.(log := w.log.(entries := []))
    case AnswerJoin => w.(wire := w.wire + {JoinAck(w.log.counter)})
    case ReadLog(lastSeq) => w.(wire := w.wire + {LogRead(Missed(w.log.entries, lastSeq))})
    case ReadHead(events) => w.(wire := w.wire + {SyncResult(events, w.log.counter)})
    case Deliver(m) =>
      var c := Handled(w.client, m);
      w.(client := c, heads := w.heads + Repeated(w.log.counter, |c.seen| - |w.client.seen|))
  }

  function Repeated(head: nat, n: int): (r: seq<nat>)
    ensures n >= 0 ==> |r| == n
    ensures forall i :: 0 <= i < |r| ==> r[i] == head
  {
    if n <= 0 then [] else seq(n, _ => head)
  }

  /** Where a session starts: the server's past, and the number the client had stored, whatever it is. */
  datatype Setup = Setup(emitted: seq<Str>, entries: seq<Envelope>, stored: nat) {
    ghost predicate Valid() {
      Ascending(entries) && forall e :: e in entries ==> Genuine(e, emitted)
    }

    function Start(): World {
      World(Log(|emitted|, entries), emitted, {}, |emitted|, {}, Client(stored, Connecting, [], []), [])
    }
  }

  ghost predicate IsTrace(s: Setup, run: seq<Event>)
    decreases |run|, 0
  {
    run == [] || (IsTrace(s, run[..|run| - 1]) && Enabled(After(s, run[..|run| - 1]), run[|run| - 1]))
  }

  ghost function After(s: Setup, run: seq<Event>): World
    requires IsTrace(s, run)
    decreases |run|, 1
  {
    if run == [] then s.Start() else Next(After(s, run[..|run| - 1]), run[|run| - 1])
  }

  lemma Extended(s: Setup, run: seq<Event>, e: Event)
    requires IsTrace(s, run) && Enabled(After(s, run), e)
    ensures IsTrace(s, run + [e]) && After(s, run + [e]) == Next(After(s, run), e)
  {
    var full := run + [e];
    assert full[..|full| - 1] == run && full[|full| - 1] == e;
  }

  lemma ExtendedTwice(s: Setup, run: seq<Event>, e: Event, f: Event)
    requires IsTrace(s, run) && Enabled(After(s, run), e) && Enabled(Next(After(s, run), e), f)
    ensures IsTrace(s, run + [e, f]) && After(s, run + [e, f]) == Next(Next(After(s, run), e), f)
  {
    Extended(s, run, e);
    Extended(s, run + [e], f);
    assert run + [e] + [f] == run + [e, f];
  }

  // --- what every run keeps ------------------------------------------------------------

  ghost predicate AllGenuine(events: seq<Envelope>, emitted: seq<Str>) {
    forall e :: e in events ==> Genuine(e, emitted)
  }

  ghost predicate MessageFits(m: Message, emitted: seq<Str>) {
    match m
    case JoinAck(headSeq) => headSeq <= |emitted|
    case Frame(frame) => Genuine(frame, emitted)
    case LogRead(events) => Ascending(events) && AllGenuine(events, emitted)
    case SyncResult(events, headSeq) =>
      && Ascending(events) && AllGenuine(events, emitted) && headSeq <= |emitted|
      && (events != [] ==> events[|events| - 1].seqId <= headSeq)
  }

  ghost predicate ObservationFits(o: Observation, head: nat, emitted: seq<Str>) {
    match o
    case Delivered(frame) => Genuine(frame, emitted)
    case Resync(realigned) => realigned <= head <= |emitted|
  }

  ghost predicate HistoryFits(seen: seq<Observation>, heads: seq<nat>, emitted: seq<Str>) {
    && |heads| == |seen|
    && forall i :: 0 <= i < |seen| ==> ObservationFits(seen[i], heads[i], emitted)
  }

  ghost predicate LogFits(w: World) {
    && w.log.counter == |w.emitted|
    && Ascending(w.log.entries) && AllGenuine(w.log.entries, w.emitted)
    && (forall n :: n in w.pending ==> 1 <= n <= w.log.counter)
    && (forall e :: e in w.log.entries ==> e.seqId !in w.pending)
  }

  ghost predicate Invariant(s: Setup, w: World) {
    && LogFits(w)
    && (forall m :: m in w.wire ==> MessageFits(m, w.emitted))
    && w.client.lastSeq == Level(s.stored, w.client.seen, |w.client.seen|)
    && HistoryFits(w.client.seen, w.heads, w.emitted)
  }

  lemma AppendFits(w: World, n: nat)
    requires LogFits(w) && Enabled(w, Append(n))
    ensures LogFits(Next(w, Append(n)))
  {
    var frame := Envelope(n, w.emitted[n - 1]);
    ZAddKeepsAscending(w.log.entries, frame);
    NewestKeepsAscending(ZAdd(w.log.entries, frame), REPLAY_LOG_MAX_EVENTS);
  }

  lemma AllocateFits(w: World, body: Str)
    requires LogFits(w)
    ensures LogFits(Next(w, Allocate(body)))
    ensures forall m :: MessageFits(m, w.emitted) ==> MessageFits(m, w.emitted + [body])
    ensures forall seen, heads :: HistoryFits(seen, heads, w.emitted) ==> HistoryFits(seen, heads, w.emitted + [body])
  {
    assert forall e :: Genuine(e, w.emitted) ==> Genuine(e, w.emitted + [body]);
    forall m | MessageFits(m, w.emitted) ensures MessageFits(m, w.emitted + [body]) {
    }
    forall seen, heads | HistoryFits(seen, heads, w.emitted) ensures HistoryFits(seen, heads, w.emitted + [body]) {
      assert forall i :: 0 <= i < |seen| ==> ObservationFits(seen[i], heads[i], w.emitted);
    }
  }

  lemma {:induction false} BatchIsGenuine(start: nat, c: Client, events: seq<Envelope>, emitted: seq<Str>)
    requires AllGenuine(events, emitted) && c.lastSeq == Level(start, c.seen, |c.seen|)
    ensures var d := AppliedAll(c, events);
      && c.seen <= d.seen
      && (forall i :: |c.seen| <= i < |d.seen| ==> d.seen[i].Delivered? && Genuine(d.seen[i].frame, emitted))
      && d.lastSeq == Level(start, d.seen, |d.seen|)
  {
    if events != [] {
      assert forall e :: e in events[..|events| - 1] ==> e in events;
      assert events[|events| - 1] in events;
      BatchIsGenuine(start, c, events[..|events| - 1], emitted);
    }
  }

  /** What one delivery adds to the client's observations. */
  lemma DeliveryFits(start: nat, c: Client, m: Message, emitted: seq<Str>)
    requires c.lastSeq == Level(start, c.seen, |c.seen|) && !m.LogRead? && MessageFits(m, emitted)
    ensures var d := Handled(c, m);
      && c.seen <= d.seen && d.lastSeq == Level(start, d.seen, |d.seen|)
      && forall i :: |c.seen| <= i < |d.seen| ==> ObservationFits(d.seen[i], |emitted|, emitted)
  {
    if m.SyncResult? {
      BatchIsGenuine(start, c, m.events, emitted);
    }
  }

  lemma DeliverKeepsInvariant(s: Setup, w: World, m: Message)
    requires Invariant(s, w) && Enabled(w, Deliver(m))
    ensures Invariant(s, Next(w, Deliver(m)))
  {
    DeliveryFits(s.stored, w.client, m, w.emitted);
    var w' := Next(w, Deliver(m));
    forall i | 0 <= i < |w'.client.seen| ensures ObservationFits(w'.client.seen[i], w'.heads[i], w'.emitted) {
      if i < |w.client.seen| {
        assert w'.client.seen[i] == w.client.seen[i] && w'.heads[i] == w.heads[i];
      }
    }
  }

  lemma ReadFits(s: Setup, w: World, e: Event)
    requires Invariant(s, w) && Enabled(w, e) && (e.ReadLog? || e.ReadHead?)
    ensures Invariant(s, Next(w, e))
  {
    if e.ReadLog? {
      FromScoreKeepsAscending(w.log.entries, e.lastSeq + 1);
    } else {
      assert MessageFits(LogRead(e.events), w.emitted);
      assert e.events != [] ==> e.events[|e.events| - 1] in e.events;
    }
  }

  lemma StepKeepsInvariant(s: Setup, w: World, e: Event)
    requires Invariant(s, w) && Enabled(w, e)
    ensures Invariant(s, Next(w, e))
  {
    match e
    case Allocate(body) => AllocateFits(w, body);
    case Append(n) => AppendFits(w, n);
    case Drop(_) =>
    case Expire =>
    case AnswerJoin =>
    case ReadLog(_) => ReadFits(s, w, e);
    case ReadHead(_) => ReadFits(s, w, e);
    case Deliver(m) => DeliverKeepsInvariant(s, w, m);
  }

  lemma {:induction false} RunKeepsInvariant(s: Setup, run: seq<Event>)
    requires s.Valid() && IsTrace(s, run)
    ensures Invariant(s, After(s, run))
    decreases |run|
  {
    if run != [] {
      RunKeepsInvariant(s, run[..|run| - 1]);
      StepKeepsInvariant(s, After(s, run[..|run| - 1]), run[|run| - 1]);
    }
  }

  // --- when the client is in sequence -----------------------------------------------------

  /** Not the delivery of a batch that passes the gap test with a hole above `lastSeq`. */
  ghost predicate SafeStep(w: World, e: Event) {
    e.Deliver? && e.m.SyncResult? && !HasGap(w.client.lastSeq, e.m.events, e.m.headSeq) ==>
      NoHole(w.client.lastSeq, e.m.events)
  }

  ghost predicate HoleFree(s: Setup, run: seq<Event>)
    requires IsTrace(s, run)
    decreases |run|
  {
    run == [] || (HoleFree(s, run[..|run| - 1]) && SafeStep(After(s, run[..|run| - 1]), run[|run| - 1]))
  }

  lemma MessageTracks(start: nat, c: Client, m: Message, emitted: seq<Str>)
    requires Tracks(start, c) && !m.LogRead? && MessageFits(m, emitted)
    ensures Tracks(start, Handled(c, m)) <==>
      (m.SyncResult? && !HasGap(c.lastSeq, m.events, m.headSeq) ==> NoHole(c.lastSeq, m.events))
  {
    match m
    case JoinAck(headSeq) =>
      if c.lastSeq > headSeq {
        ObservedOneMore(start, c, Resync(headSeq), Handled(c, m));
      }
    case Frame(frame) =>
      if frame.seqId == c.lastSeq + 1 {
        ObservedOneMore(start, c, Delivered(frame), Handled(c, m));
      }
    case SyncResult(events, headSeq) =>
      if HasGap(c.lastSeq, events, headSeq) {
        ObservedOneMore(start, c, Resync(headSeq), Handled(c, m));
      } else {
        DeliveredInSequenceIffNoHole(start, c, events);
      }
  }

  lemma StepTracks(s: Setup, w: World, e: Event)
    requires Invariant(s, w) && Enabled(w, e)
    ensures Tracks(s.stored, Next(w, e).client) <==> Tracks(s.stored, w.client) && SafeStep(w, e)
  {
    if e.Deliver? {
      DeliveryFits(s.stored, w.client, e.m, w.emitted);
      if Tracks(s.stored, w.client) {
        MessageTracks(s.stored, w.client, e.m, w.emitted);
      } else if InSequence(s.stored, Next(w, e).client.seen) {
        ShorterInSequence(s.stored, w.client, Next(w, e).client);
      }
    }
  }

  /** Exactly when the listeners are served in sequence: no applied batch had a hole. */
  lemma {:induction false} InSequenceIffHoleFree(s: Setup, run: seq<Event>)
    requires s.Valid() && IsTrace(s, run)
    ensures Tracks(s.stored, After(s, run).client) <==> HoleFree(s, run)
    decreases |run|
  {
    if run != [] {
      var rest := run[..|run| - 1];
      RunKeepsInvariant(s, rest);
      InSequenceIffHoleFree(s, rest);
      StepTracks(s, After(s, rest), run[|run| - 1]);
    }
  }

  // --- the guarantees ------------------------------------------------------------------

  /** Observation `i` accounts for mutation `n`: it delivered it, or reloaded a board that had it. */
  ghost predicate AccountsFor(w: World, i: nat, n: nat)
    requires i < |w.client.seen| && i < |w.heads|
  {
    match w.client.seen[i]
    case Delivered(frame) => frame.seqId == n
    case Resync(_) => n <= w.heads[i]
  }

  ghost predicate Accounted(w: World, n: nat) {
    exists i :: 0 <= i < |w.client.seen| && i < |w.heads| && AccountsFor(w, i, n)
  }

  lemma {:induction false} Covered(s: Setup, w: World, upTo: nat, n: nat)
    requires Invariant(s, w) && Tracks(s.stored, w.client) && upTo <= |w.client.seen|
    requires s.stored < n <= Level(s.stored, w.client.seen, upTo)
    ensures exists i :: 0 <= i < upTo && AccountsFor(w, i, n)
    decreases upTo
  {
    var last := upTo - 1;
    if !AccountsFor(w, last, n) {
      assert ObservationFits(w.client.seen[last], w.heads[last], w.emitted);
      Covered(s, w, last, n);
    }
  }

  /**
   * Without a hole, every number up to `lastSeq` was delivered, or lay at or below the head at some
   * reload, or was already at or below the stored number when the session began.
   */
  lemma NothingSkipped(s: Setup, run: seq<Event>, n: nat)
    requires s.Valid() && IsTrace(s, run) && HoleFree(s, run)
    requires s.stored < n <= After(s, run).client.lastSeq
    ensures Accounted(After(s, run), n)
  {
    RunKeepsInvariant(s, run);
    InSequenceIffHoleFree(s, run);
    Covered(s, After(s, run), |After(s, run).client.seen|, n);
  }

  lemma SeenInOrder(s: Setup, w: World, i: nat, j: nat)
    requires Invariant(s, w) && Tracks(s.stored, w.client) && i <= j < |w.client.seen|
    requires forall k :: i <= k <= j ==> w.client.seen[k].Delivered?
    ensures var first, frame := w.client.seen[i].frame, w.client.seen[j].frame;
      frame.seqId == first.seqId + (j - i) && Genuine(frame, w.emitted)
  {
    ConsecutiveBetweenResyncs(s.stored, w.client.seen, i, j);
    assert ObservationFits(w.client.seen[j], w.heads[j], w.emitted);
  }

  /** And between two reloads the listeners get the emitted mutations one after the other, each once. */
  lemma DeliveredInOrder(s: Setup, run: seq<Event>, i: nat, j: nat)
    requires s.Valid() && IsTrace(s, run) && HoleFree(s, run)
    requires i <= j < |After(s, run).client.seen|
    requires forall k :: i <= k <= j ==> After(s, run).client.seen[k].Delivered?
    ensures var w := After(s, run);
      var first, frame := w.client.seen[i].frame, w.client.seen[j].frame;
      frame.seqId == first.seqId + (j - i) && Genuine(frame, w.emitted)
  {
    RunKeepsInvariant(s, run);
    InSequenceIffHoleFree(s, run);
    SeenInOrder(s, After(s, run), i, j);
  }

  // --- emits that append in order ---------------------------------------------------------

  /** Each append is of the oldest number not logged yet, and no emit fails. */
  ghost predicate InOrder(w: World, e: Event) {
    match e
    case Append(n) => forall m :: m in w.pending ==> n <= m
    case Drop(_) => false
    case _ => true
  }

  ghost predicate OrderedRun(s: Setup, run: seq<Event>)
    requires IsTrace(s, run)
    decreases |run|
  {
    run == [] || (OrderedRun(s, run[..|run| - 1]) && InOrder(After(s, run[..|run| - 1]), run[|run| - 1]))
  }

  ghost predicate EndsAt(entries: seq<Envelope>, n: nat) {
    entries != [] ==> entries[|entries| - 1].seqId == n
  }

  ghost predicate Gapless(w: World) {
    && IsRun(w.log.entries, w.emitted) && EndsAt(w.log.entries, w.logged)
    && w.logged <= w.log.counter == |w.emitted|
    && (forall n :: n in w.pending <==> w.logged < n <= w.log.counter)
    && (forall m :: m in w.wire && m.LogRead? ==> IsRun(m.events, w.emitted))
    && (forall m :: m in w.wire && m.SyncResult? ==> IsRun(m.events, w.emitted))
  }

  lemma RunIsGapless(events: seq<Envelope>, emitted: seq<Str>, lastSeq: nat)
    requires IsRun(events, emitted)
    ensures Ascending(events) && NoHole(lastSeq, events)
  {
  }

  lemma AppendKeepsGapless(w: World, n: nat)
    requires Gapless(w) && Enabled(w, Append(n)) && InOrder(w, Append(n))
    ensures Gapless(Next(w, Append(n)))
  {
    assert w.logged + 1 in w.pending;
    var frame := Envelope(n, w.emitted[n - 1]);
    assert ZAdd(w.log.entries, frame) == w.log.entries + [frame];
  }

  lemma GaplessStep(w: World, e: Event)
    requires Gapless(w) && Enabled(w, e) && InOrder(w, e)
    ensures Gapless(Next(w, e)) && SafeStep(w, e)
  {
    match e
    case Append(n) => AppendKeepsGapless(w, n);
    case ReadLog(lastSeq) => MissedOfRun(w.log.entries, w.emitted, lastSeq);
    case Deliver(m) =>
      if m.SyncResult? {
        RunIsGapless(m.events, w.emitted, w.client.lastSeq);
      }
    case _ =>
  }

  /** As long as emits append in order, no batch has a hole and the guarantees hold. */
  lemma {:induction false} OrderedRunsAreHoleFree(s: Setup, run: seq<Event>)
    requires s.Valid() && IsRun(s.entries, s.emitted) && EndsAt(s.entries, |s.emitted|)
    requires IsTrace(s, run) && OrderedRun(s, run)
    ensures Gapless(After(s, run)) && HoleFree(s, run)
    decreases |run|
  {
    if run != [] {
      var rest := run[..|run| - 1];
      OrderedRunsAreHoleFree(s, rest);
      GaplessStep(After(s, rest), run[|run| - 1]);
    }
  }

  // --- emits that overlap -------------------------------------------------------------------

  const QUIET_BOARD := Setup([], [], 0)

  /** Three emits take their numbers; the first and the third append, then a client joins and syncs. */
  function OverlappingRun(a: Str, b: Str, c: Str): seq<Event> {
    var events := [Envelope(1, a), Envelope(3, c)];
    [Allocate(a), Allocate(b), Allocate(c)] + [Append(1), Append(3)] + [AnswerJoin, Deliver(JoinAck(3))]
    + [ReadLog(0), ReadHead(events), Deliver(SyncResult(events, 3))]
  }

  lemma EmitsAllocate(a: Str, b: Str, c: Str)
    ensures var run := [Allocate(a), Allocate(b), Allocate(c)];
      && IsTrace(QUIET_BOARD, run)
      && After(QUIET_BOARD, run) ==
           QUIET_BOARD.Start().(log := Log(3, []), emitted := [a, b, c], pending := {1, 2, 3})
  {
    Extended(QUIET_BOARD, [], Allocate(a));
    assert [] + [Allocate(a)] == [Allocate(a)];
    Extended(QUIET_BOARD, [Allocate(a)], Allocate(b));
    assert [Allocate(a)] + [Allocate(b)] == [Allocate(a), Allocate(b)];
    Extended(QUIET_BOARD, [Allocate(a), Allocate(b)], Allocate(c));
    assert [Allocate(a), Allocate(b)] + [Allocate(c)] == [Allocate(a), Allocate(b), Allocate(c)];
  }

  lemma FirstAndThirdAppend(run: seq<Event>, a: Str, b: Str, c: Str)
    requires IsTrace(QUIET_BOARD, run)
    requires After(QUIET_BOARD, run) ==
      QUIET_BOARD.Start().(log := Log(3, []), emitted := [a, b, c], pending := {1, 2, 3})
    ensures IsTrace(QUIET_BOARD, run + [Append(1), Append(3)])
    ensures var w := After(QUIET_BOARD, run + [Append(1), Append(3)]);
      && w.log == Log(3, [Envelope(1, a), Envelope(3, c)]) && w.client == QUIET_BOARD.Start().client && w.heads == []
  {
    assert Next(After(QUIET_BOARD, run), Append(1)).log.entries == [Envelope(1, a)];
    ExtendedTwice(QUIET_BOARD, run, Append(1), Append(3));
  }

  lemma JoinAsks(s: Setup, run: seq<Event>)
    requires IsTrace(s, run) && After(s, run).client.lastSeq < After(s, run).log.counter
    ensures var w := After(s, run);
      var full := run + [AnswerJoin, Deliver(JoinAck(w.log.counter))];
      && IsTrace(s, full) && After(s, full).log == w.log
      && After(s, full).client == AfterJoined(w.client, w.log.counter)
      && w.client.lastSeq in After(s, full).client.asked
  {
    var w := After(s, run);
    AckAsks(w);
    ExtendedTwice(s, run, AnswerJoin, Deliver(JoinAck(w.log.counter)));
  }

  lemma AckAsks(w: World)
    requires w.client.lastSeq < w.log.counter
    ensures Enabled(Next(w, AnswerJoin), Deliver(JoinAck(w.log.counter)))
    ensures var t := Next(Next(w, AnswerJoin), Deliver(JoinAck(w.log.counter)));
      t.log == w.log && t.client == AfterJoined(w.client, w.log.counter) && w.client.lastSeq in t.client.asked
  {
    var asked := AfterJoined(w.client, w.log.counter).asked;
    assert asked[|asked| - 1] == w.client.lastSeq;
  }

  lemma SyncAnswers(s: Setup, run: seq<Event>, asked: nat, events: seq<Envelope>)
    requires IsTrace(s, run) && asked in After(s, run).client.asked
    requires Missed(After(s, run).log.entries, asked) == events
    ensures var w := After(s, run);
      var full := run + [ReadLog(asked), ReadHead(events), Deliver(SyncResult(events, w.log.counter))];
      IsTrace(s, full) && After(s, full).client == AfterSyncResult(w.client, events, w.log.counter)
  {
    var head := After(s, run).log.counter;
    Extended(s, run, ReadLog(asked));
    var r := run + [ReadLog(asked)];
    Extended(s, r, ReadHead(events));
    Extended(s, r + [ReadHead(events)], Deliver(SyncResult(events, head)));
    assert r + [ReadHead(events)] + [Deliver(SyncResult(events, head))] ==
           run + [ReadLog(asked), ReadHead(events), Deliver(SyncResult(events, head))];
  }

  lemma OverlapReaches(a: Str, b: Str, c: Str)
    ensures IsTrace(QUIET_BOARD, OverlappingRun(a, b, c))
    ensures After(QUIET_BOARD, OverlappingRun(a, b, c)).client ==
      AfterSyncResult(AfterJoined(QUIET_BOARD.Start().client, 3), [Envelope(1, a), Envelope(3, c)], 3)
  {
    var taken := [Allocate(a), Allocate(b), Allocate(c)];
    var emits := taken + [Append(1), Append(3)];
    EmitsAllocate(a, b, c);
    FirstAndThirdAppend(taken, a, b, c);
    OneAndThreeMissed(Envelope(1, a), Envelope(3, c));
    JoinAsks(QUIET_BOARD, emits);
    SyncAnswers(QUIET_BOARD, emits + [AnswerJoin, Deliver(JoinAck(3))], 0, [Envelope(1, a), Envelope(3, c)]);
  }

  lemma OneAndThreeMissed(one: Envelope, three: Envelope)
    requires one.seqId == 1 && three.seqId == 3
    ensures Missed([one, three], 0) == [one, three]
  {
    var events := [one, three];
    assert events[..1] == [one] && events[..1][..0] == [];
    assert FromScore(events[..1], 1) == [one];
    assert FromScore(events, 1) == [one] + [three];
  }

  /**
   * Emits do overlap, since each awaits twice and callers do not wait for it. Then a sync can find
   * 1 and 3 logged and 2 not: the client applies both, reports itself synced at 3, and has no 2.
   */
  lemma OverlapSkipsAMutation(a: Str, b: Str, c: Str)
    ensures IsTrace(QUIET_BOARD, OverlappingRun(a, b, c))
    ensures var w := After(QUIET_BOARD, OverlappingRun(a, b, c));
      && w.client.lastSeq == 3 && w.client.status == Synced
      && w.client.seen == [Delivered(Envelope(1, a)), Delivered(Envelope(3, c))]
      && !Accounted(w, 2)
  {
    OverlapReaches(a, b, c);
    OneAndThreeApplied(AfterJoined(QUIET_BOARD.Start().client, 3), [Envelope(1, a), Envelope(3, c)]);
  }

  lemma OneAndThreeApplied(joined: Client, events: seq<Envelope>)
    requires |events| == 2 && events[0].seqId == 1 && events[1].seqId == 3 && joined.lastSeq == 0
    ensures AppliedAll(joined, events).lastSeq == 3
    ensures AppliedAll(joined, events).seen == joined.seen + [Delivered(events[0]), Delivered(events[1])]
  {
    assert events[..1][..0] == [];
    assert AppliedAll(joined, events[..1]) == Applied(joined, events[0]);
    assert AppliedAll(joined, events) == Applied(Applied(joined, events[0]), events[1]);
  }

  /** A skipped number stays skipped: its own frame is taken for a duplicate. Only a reload helps. */
  lemma SkippedStaysSkipped(s: Setup, w: World, e: Event, n: nat)
    requires Invariant(s, w) && Enabled(w, e) && n <= w.client.lastSeq && !Accounted(w, n)
    requires var seen := Next(w, e).client.seen;
      forall i :: |w.client.seen| <= i < |seen| ==> !seen[i].Resync?
    ensures n <= Next(w, e).client.lastSeq && !Accounted(Next(w, e), n)
  {
    var w' := Next(w, e);
    if e.Deliver? {
      var c, d := w.client, Handled(w.client, e.m);
      DeliveryFits(s.stored, c, e.m, w.emitted);
      DeliversAbove(c, e.m, w.emitted);
      forall i | 0 <= i < |w'.client.seen| && i < |w'.heads| ensures !AccountsFor(w', i, n) {
        if i < |c.seen| {
          assert w'.client.seen[i] == c.seen[i] && w'.heads[i] == w.heads[i];
          assert !AccountsFor(w, i, n);
        } else {
          assert d.seen[i].Delivered? && d.seen[i].frame.seqId > c.lastSeq;
        }
      }
    } else {
      assert w'.client == w.client && w'.heads == w.heads;
      forall i | 0 <= i < |w'.client.seen| && i < |w'.heads| ensures !AccountsFor(w', i, n) {
        assert !AccountsFor(w, i, n);
      }
    }
  }

  ghost predicate Continues(w: World, events: seq<Event>)
    decreases |events|
  {
    events == [] || (Enabled(w, events[0]) && Continues(Next(w, events[0]), events[1..]))
  }

  ghost function Later(w: World, events: seq<Event>): World
    requires Continues(w, events)
    decreases |events|
  {
    if events == [] then w else Later(Next(w, events[0]), events[1..])
  }

  /** Whatever happens, short of a reload. */
  ghost predicate WithoutReload(w: World, events: seq<Event>)
    requires Continues(w, events)
    decreases |events|
  {
    events == [] ||
      (var seen := Next(w, events[0]).client.seen;
       && (forall i :: |w.client.seen| <= i < |seen| ==> !seen[i].Resync?)
       && WithoutReload(Next(w, events[0]), events[1..]))
  }

  lemma {:induction false} SkippedForGood(s: Setup, w: World, events: seq<Event>, n: nat)
    requires Invariant(s, w) && n <= w.client.lastSeq && !Accounted(w, n)
    requires Continues(w, events) && WithoutReload(w, events)
    ensures !Accounted(Later(w, events), n)
    decreases |events|
  {
    if events != [] {
      SkippedStaysSkipped(s, w, events[0], n);
      StepKeepsInvariant(s, w, events[0]);
      SkippedForGood(s, Next(w, events[0]), events[1..], n);
    }
  }

  lemma DeliversAbove(c: Client, m: Message, emitted: seq<Str>)
    requires !m.LogRead? && MessageFits(m, emitted)
    requires var d := Handled(c, m); c.seen <= d.seen && forall i :: |c.seen| <= i < |d.seen| ==> !d.seen[i].Resync?
    ensures var d := Handled(c, m);
      && d.lastSeq >= c.lastSeq
      && forall i :: |c.seen| <= i < |d.seen| ==> d.seen[i].Delivered? && d.seen[i].frame.seqId > c.lastSeq
  {
    match m
    case JoinAck(headSeq) =>
      assert c.lastSeq > headSeq ==> Handled(c, m).seen[|c.seen|] == Resync(headSeq);
    case Frame(_) =>
    case SyncResult(events, headSeq) =>
      assert HasGap(c.lastSeq, events, headSeq) ==> Handled(c, m).seen[|c.seen|] == Resync(headSeq);
      BatchDeliversAbove(c, events);
  }

  lemma {:induction false} BatchDeliversAbove(c: Client, events: seq<Envelope>)
    ensures var d := AppliedAll(c, events);
      && c.seen <= d.seen && d.lastSeq >= c.lastSeq
      && forall i :: |c.seen| <= i < |d.seen| ==> d.seen[i].Delivered? && d.seen[i].frame.seqId > c.lastSeq
  {
    if events != [] {
      BatchDeliversAbove(c, events[..|events| - 1]);
    }
  }

  // --- catching up -----------------------------------------------------------------------

  /** Any sync answer, however late, brings the client to where the log ended when it was read. */
  lemma AnswerCatchesUp(entries: seq<Envelope>, asked: nat, c: Client, headSeq: nat)
    requires Ascending(entries)
    requires entries != [] ==> entries[|entries| - 1].seqId <= headSeq
    ensures AfterSyncResult(c, Missed(entries, asked), headSeq).lastSeq >=
      if entries == [] then headSeq else entries[|entries| - 1].seqId
  {
    var events := Missed(entries, asked);
    FromScoreKeepsAscending(entries, asked + 1);
    AppliedAllReaches(c, events);
  }

  /** The log has no number outstanding at its end. */
  ghost predicate ReachesHead(w: World) {
    w.log.entries != [] ==> w.log.entries[|w.log.entries| - 1].seqId == w.log.counter
  }

  /** The undisturbed answer to a sync request: log, head, delivery. */
  ghost predicate AnswerSyncs(w: World, asked: nat) {
    var events := Missed(w.log.entries, asked);
    && Enabled(w, ReadLog(asked))
    && var w2 := Next(w, ReadLog(asked));
    && Enabled(w2, ReadHead(events))
    && var w3 := Next(w2, ReadHead(events));
    && Enabled(w3, Deliver(SyncResult(events, w3.log.counter)))
    && var w4 := Next(w3, Deliver(SyncResult(events, w3.log.counter)));
    && w4.client.lastSeq == w.log.counter
    && w4.client.status == Synced
  }

  lemma AskedIsAnswered(s: Setup, w: World, asked: nat)
    requires Invariant(s, w) && ReachesHead(w) && asked in w.client.asked && w.client.lastSeq <= w.log.counter
    ensures AnswerSyncs(w, asked)
  {
    var events := Missed(w.log.entries, asked);
    FromScoreKeepsAscending(w.log.entries, asked + 1);
    AnswerCatchesUp(w.log.entries, asked, w.client, w.log.counter);
    AppliedAllReaches(w.client, events);
  }

  /** A lost frame is noticed at a later one, and the sync it triggers recovers everything. */
  lemma LostFramesAreRecovered(s: Setup, run: seq<Event>, frame: Envelope)
    requires s.Valid() && IsTrace(s, run) && ReachesHead(After(s, run))
    requires Enabled(After(s, run), Deliver(Frame(frame))) && frame.seqId > After(s, run).client.lastSeq
    ensures var w := Next(After(s, run), Deliver(Frame(frame)));
      w.client.lastSeq == frame.seqId || AnswerSyncs(w, w.client.lastSeq)
  {
    RunKeepsInvariant(s, run);
    var w := Next(After(s, run), Deliver(Frame(frame)));
    StepKeepsInvariant(s, After(s, run), Deliver(Frame(frame)));
    assert MessageFits(Frame(frame), After(s, run).emitted);
    if w.client.lastSeq != frame.seqId {
      assert w.client.asked[|w.client.asked| - 1] == w.client.lastSeq;
      AskedIsAnswered(s, w, w.client.lastSeq);
    }
  }

  lemma AckCatchesUp(s: Setup, w: World)
    requires Invariant(s, w) && ReachesHead(w) && JoinAck(w.log.counter) in w.wire
    ensures var t := Next(w, Deliver(JoinAck(w.log.counter)));
      (t.client.lastSeq == t.log.counter && t.client.status == Synced) || AnswerSyncs(t, t.client.lastSeq)
  {
    var t := Next(w, Deliver(JoinAck(w.log.counter)));
    StepKeepsInvariant(s, w, Deliver(JoinAck(w.log.counter)));
    if t.client.lastSeq != t.log.counter {
      assert t.client.asked[|t.client.asked| - 1] == t.client.lastSeq;
      AskedIsAnswered(s, t, t.client.lastSeq);
    }
  }

  /** A join acknowledged with the current head leaves the client at the head, or one answer away. */
  lemma JoinCatchesUp(s: Setup, run: seq<Event>)
    requires s.Valid() && IsTrace(s, run) && ReachesHead(After(s, run))
    ensures var w := Next(Next(After(s, run), AnswerJoin), Deliver(JoinAck(After(s, run).log.counter)));
      (w.client.lastSeq == w.log.counter && w.client.status == Synced) || AnswerSyncs(w, w.client.lastSeq)
  {
    RunKeepsInvariant(s, run);
    StepKeepsInvariant(s, After(s, run), AnswerJoin);
    AckCatchesUp(s, Next(After(s, run), AnswerJoin));
  }
}
