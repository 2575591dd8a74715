/** Local moves, their confirmations and failures, and peer frames, in any interleaving. */
module BoardRuns {
  import opened Wrappers
  import opened Text
  import opened RemoteMutations
  import opened BoardStore

  /** A persist call in progress; `since` counts the touches up to and including its own. */
  datatype Flight = Flight(move: Move, since: nat)

  /** `touches` lists the cards in the order they were moved locally, or overridden by a peer. */
  datatype World = World(store: Store, flights: map<nat, Flight>, touches: seq<Id>)

  datatype Event =
    | Begin(call: nat, cardId: Id, fromListId: Id, toListId: Id, toIndex: int)
    | Confirm(call: nat, key: Option<Str>)
    | Fail(call: nat, message: Str)
    | Peer(frame: Frame)

  ghost predicate Enabled(w: World, e: Event) {
    match e
    case Begin(call, _, _, _, _) => call !in w.flights
    case Confirm(call, _) => call in w.flights
    case Fail(call, _) => call in w.flights
    case Peer(_) => true
  }

  ghost function Next(w: World, e: Event): World
    requires Enabled(w, e)
  {
    match e
    case Begin(call, cardId, fromListId, toListId, toIndex) =>
      if !CanBegin(w.store, cardId, fromListId) then w
      else World(Begun(w.store, cardId, fromListId, toListId, toIndex),
                 w.flights[call := Flight(MoveFor(w.store, cardId, fromListId, toListId), |w.touches| + 1)],
                 w.touches + [cardId])
    case Confirm(call, key) =>
      w.(store := Confirmed(w.store, w.flights[call].move, key), flights := w.flights - {call})
    case Fail(call, message) =>
      w.(store := FailedWith(w.store, w.flights[call].move, message), flights := w.flights - {call})
    case Peer(frame) =>
      w.(store := Applied(w.store, frame),
         touches := if Overridden(frame).Some? then w.touches + [Overridden(frame).value] else w.touches)
  }

  ghost predicate IsRun(start: Board, run: seq<Event>)
    decreases |run|, 0
  {
    run == [] || (IsRun(start, run[..|run| - 1]) && Enabled(After(start, run[..|run| - 1]), run[|run| - 1]))
  }

  ghost function After(start: Board, run: seq<Event>): World
    requires IsRun(start, run)
    decreases |run|, 1
  {
    if run == [] then World(Store(start, map[], false, None), map[], [])
    else Next(After(start, run[..|run| - 1]), run[|run| - 1])
  }

  function Touches(touches: seq<Id>, id: Id): nat {
    multiset(touches)[id]
  }

  ghost predicate VersionsCount(w: World) {
    forall id :: VersionOf(w.store.versions, id) == Touches(w.touches, id)
  }

  ghost predicate FlightFits(f: Flight, touches: seq<Id>) {
    f.since <= |touches| && f.move.version == Touches(touches[..f.since], f.move.cardId)
  }

  ghost predicate Invariant(w: World) {
    && Placed(w.store.board)
    && VersionsCount(w)
    && forall call :: call in w.flights ==> FlightFits(w.flights[call], w.touches)
  }

  lemma TouchMore(touches: seq<Id>, last: Id)
    ensures forall id :: Touches(touches + [last], id) == Touches(touches, id) + if id == last then 1 else 0
  {
  }

  lemma FlightsKept(flights: map<nat, Flight>, touches: seq<Id>, last: Id)
    requires forall call :: call in flights ==> FlightFits(flights[call], touches)
    ensures forall call :: call in flights ==> FlightFits(flights[call], touches + [last])
  {
    forall call | call in flights ensures FlightFits(flights[call], touches + [last]) {
      var since := flights[call].since;
      assert (touches + [last])[..since] == touches[..since];
    }
  }

  lemma BeginKeepsInvariant(w: World, e: Event)
    requires Invariant(w) && Enabled(w, e) && e.Begin? && CanBegin(w.store, e.cardId, e.fromListId)
    ensures Invariant(Next(w, e))
  {
    var w' := Next(w, e);
    BeginKeepsPlaced(w.store, e.cardId, e.fromListId, e.toListId, e.toIndex);
    TouchMore(w.touches, e.cardId);
    FlightsKept(w.flights, w.touches, e.cardId);
    assert w'.touches[..|w.touches| + 1] == w'.touches;
  }

  lemma PeerKeepsVersions(w: World, frame: Frame)
    requires VersionsCount(w) && forall call :: call in w.flights ==> FlightFits(w.flights[call], w.touches)
    ensures var w' := Next(w, Peer(frame));
      VersionsCount(w') && forall call :: call in w'.flights ==> FlightFits(w'.flights[call], w'.touches)
  {
    if Overridden(frame).Some? {
      TouchMore(w.touches, Overridden(frame).value);
      FlightsKept(w.flights, w.touches, Overridden(frame).value);
    }
  }

  lemma PeerKeepsInvariant(w: World, frame: Frame)
    requires Invariant(w)
    ensures Invariant(Next(w, Peer(frame)))
  {
    FrameKeepsPlaced(w.store.board, frame);
    PeerKeepsVersions(w, frame);
  }

  lemma StepKeepsInvariant(w: World, e: Event)
    requires Invariant(w) && Enabled(w, e)
    ensures Invariant(Next(w, e))
  {
    match e
    case Begin(call, cardId, fromListId, toListId, toIndex) =>
      if CanBegin(w.store, cardId, fromListId) {
        BeginKeepsInvariant(w, e);
      }
    case Confirm(call, key) => ConfirmKeepsPlaced(w.store, w.flights[call].move, key);
    case Fail(call, message) => FailKeepsPlaced(w.store, w.flights[call].move, message);
    case Peer(frame) => PeerKeepsInvariant(w, frame);
  }

  /** Over every interleaving, each known card stands exactly once, in exactly one list. */
  lemma {:induction false} EveryCardInOnePlace(start: Board, run: seq<Event>)
    requires Placed(start) && IsRun(start, run)
    ensures Invariant(After(start, run)) && Placed(After(start, run).store.board)
    decreases |run|
  {
    if run != [] {
      EveryCardInOnePlace(start, run[..|run| - 1]);
      StepKeepsInvariant(After(start, run[..|run| - 1]), run[|run| - 1]);
    }
  }

  /**
   * The version guard is exact: a failing move may roll back if and only if its card still exists
   * and was neither moved again nor overridden by a peer since.
   */
  lemma LatestIffUntouched(start: Board, run: seq<Event>, call: nat)
    requires Placed(start) && IsRun(start, run) && call in After(start, run).flights
    ensures var w := After(start, run);
      var f := w.flights[call];
      && f.since <= |w.touches|
      && (IsLatest(w.store, f.move) <==> f.move.cardId in w.store.board.cards && f.move.cardId !in w.touches[f.since..])
  {
    EveryCardInOnePlace(start, run);
    var w := After(start, run);
    var f := w.flights[call];
    assert FlightFits(f, w.touches);
    TouchesSince(w.touches, f.since, f.move.cardId);
    assert VersionOf(w.store.versions, f.move.cardId) == Touches(w.touches, f.move.cardId);
  }

  lemma TouchesSince(touches: seq<Id>, k: nat, id: Id)
    requires k <= |touches|
    ensures Touches(touches, id) == Touches(touches[..k], id) <==> id !in touches[k..]
  {
    assert touches == touches[..k] + touches[k..];
    assert id in touches[k..] <==> id in multiset(touches[k..]);
  }

  /** So a stale failure changes nothing on the board, and any failure moves only its own card. */
  lemma FailureIsTargeted(start: Board, run: seq<Event>, call: nat, message: Str)
    requires Placed(start) && IsRun(start, run) && call in After(start, run).flights
    ensures var w := After(start, run);
      var f, w' := w.flights[call], Next(w, Fail(call, message));
      && f.since <= |w.touches|
      && (f.move.cardId in w.touches[f.since..] ==> w'.store.board == w.store.board)
      && OthersUntouched(w.store.board, w'.store.board, f.move.cardId)
  {
    EveryCardInOnePlace(start, run);
    LatestIffUntouched(start, run, call);
    FailKeepsPlaced(After(start, run).store, After(start, run).flights[call].move, message);
  }

  /** A move that fails before anything else happens leaves the board as it was. */
  lemma UndisturbedFailureRestores(start: Board, run: seq<Event>, e: Event, message: Str)
    requires Placed(start) && IsRun(start, run) && e.Begin? && Enabled(After(start, run), e)
    requires CanBegin(After(start, run).store, e.cardId, e.fromListId)
    ensures var w := After(start, run);
      var begun := Next(w, e);
      && e.call in begun.flights
      && Next(begun, Fail(e.call, message)).store.board == w.store.board
  {
    EveryCardInOnePlace(start, run);
    var w := After(start, run);
    RollbackRestores(w.store, e.cardId, e.fromListId, e.toListId, e.toIndex, Next(w, e).store, message);
  }

  /** The counterpart for confirmations: a stale one changes nothing, any other only its card's key. */
  lemma ConfirmationIsTargeted(start: Board, run: seq<Event>, call: nat, key: Option<Str>)
    requires Placed(start) && IsRun(start, run) && call in After(start, run).flights
    ensures var w := After(start, run);
      var f, store := w.flights[call], Next(w, Confirm(call, key)).store;
      && f.since <= |w.touches|
      && (if f.move.cardId in w.touches[f.since..] || f.move.cardId !in w.store.board.cards || key.None?
          then store == w.store
          else store == w.store.(board := w.store.board.(cards := store.board.cards)) &&
               store.board.cards.Keys == w.store.board.cards.Keys &&
               store.board.cards - {f.move.cardId} == w.store.board.cards - {f.move.cardId} &&
               store.board.cards[f.move.cardId] == w.store.board.cards[f.move.cardId].(positionIdx := key))
  {
    EveryCardInOnePlace(start, run);
    LatestIffUntouched(start, run, call);
  }

  // --- what frames leave behind over a run ----------------------------------------------------

  /** No event makes a card known that was not. */
  lemma StepAddsNoCards(w: World, e: Event)
    requires Invariant(w) && Enabled(w, e)
    ensures Next(w, e).store.board.cards.Keys <= w.store.board.cards.Keys
  {
    match e
    case Begin(call, cardId, fromListId, toListId, toIndex) =>
    case Confirm(call, key) =>
    case Fail(call, message) => FailKeepsPlaced(w.store, w.flights[call].move, message);
    case Peer(frame) => FramesAddNoCards(w.store.board, frame);
  }

  /** A card that a peer deleted, alone or with its list, does not come back. */
  lemma {:induction false} DeletedCardStaysGone(start: Board, run: seq<Event>, k: nat, id: Id)
    requires Placed(start) && IsRun(start, run) && k <= |run| && IsRun(start, run[..k])
    requires id !in After(start, run[..k]).store.board.cards
    ensures var board := After(start, run).store.board;
      id !in board.cards && Occurrences(board.lists, id) == 0
    decreases |run|
  {
    EveryCardInOnePlace(start, run);
    if k < |run| {
      var rest := run[..|run| - 1];
      assert rest[..k] == run[..k];
      DeletedCardStaysGone(start, rest, k, id);
      EveryCardInOnePlace(start, rest);
      StepAddsNoCards(After(start, rest), run[|run| - 1]);
    } else {
      assert run[..k] == run;
    }
  }

  lemma {:induction false} PrefixIsRun(start: Board, run: seq<Event>, k: nat)
    requires IsRun(start, run) && k <= |run|
    ensures IsRun(start, run[..k])
    decreases |run|
  {
    if k < |run| {
      var rest := run[..|run| - 1];
      assert rest[..k] == run[..k];
      PrefixIsRun(start, rest, k);
    } else {
      assert run[..k] == run;
    }
  }

  /** Event `k` of the run is a frame that could not be placed when it came. */
  ghost predicate CouldNotBePlaced(start: Board, run: seq<Event>, k: nat)
    requires IsRun(start, run) && k < |run|
  {
    PrefixIsRun(start, run, k);
    run[k].Peer? && Unplaceable(After(start, run[..k]).store.board, run[k].frame)
  }

  lemma ResyncStep(w: World, e: Event)
    requires Enabled(w, e)
    ensures Next(w, e).store.needsResync <==>
      w.store.needsResync || (e.Peer? && Unplaceable(w.store.board, e.frame))
  {
    if e.Peer? {
      ResyncIffUnplaceable(w.store.board, e.frame);
    }
  }

  ghost predicate SomeFrameMissed(start: Board, run: seq<Event>)
    requires IsRun(start, run)
  {
    exists k :: 0 <= k < |run| && CouldNotBePlaced(start, run, k)
  }

  lemma MissedOneMore(start: Board, run: seq<Event>)
    requires IsRun(start, run) && run != []
    ensures var rest, e := run[..|run| - 1], run[|run| - 1];
      SomeFrameMissed(start, run) <==>
        SomeFrameMissed(start, rest) || (e.Peer? && Unplaceable(After(start, rest).store.board, e.frame))
  {
    var n := |run| - 1;
    var rest := run[..n];
    forall k | 0 <= k < n ensures CouldNotBePlaced(start, rest, k) <==> CouldNotBePlaced(start, run, k) {
      assert rest[..k] == run[..k] && rest[k] == run[k];
    }
    if SomeFrameMissed(start, rest) {
      var k :| 0 <= k < n && CouldNotBePlaced(start, rest, k);
      assert CouldNotBePlaced(start, run, k);
    }
    assert CouldNotBePlaced(start, run, n) <==>
      run[n].Peer? && Unplaceable(After(start, rest).store.board, run[n].frame);
  }

  /** The board asks for a reload exactly if some frame so far could not be placed. */
  lemma {:induction false} ResyncIffSomeFrameMissed(start: Board, run: seq<Event>)
    requires IsRun(start, run)
    ensures After(start, run).store.needsResync <==> SomeFrameMissed(start, run)
    decreases |run|
  {
    if run != [] {
      ResyncIffSomeFrameMissed(start, run[..|run| - 1]);
      ResyncStep(After(start, run[..|run| - 1]), run[|run| - 1]);
      MissedOneMore(start, run);
    }
  }

  /** The card stands in the first list of the one id, and there is a list of the other. */
  ghost predicate CanBeShown(lists: seq<List>, cardId: Id, fromListId: Id, toListId: Id) {
    && (exists i :: 0 <= i < |lists| && lists[i].id == fromListId && cardId in lists[i].cardIds &&
                    forall k :: 0 <= k < i ==> lists[k].id != fromListId)
    && (exists j :: 0 <= j < |lists| && lists[j].id == toListId)
  }

  lemma CanBeShownIff(lists: seq<List>, cardId: Id, fromListId: Id, toListId: Id)
    ensures CanBeShown(lists, cardId, fromListId, toListId) <==>
      && FindList(lists, fromListId) < |lists| && cardId in lists[FindList(lists, fromListId)].cardIds
      && FindList(lists, toListId) < |lists|
  {
    var f, t := FindList(lists, fromListId), FindList(lists, toListId);
    assert t < |lists| ==> lists[t].id == toListId;
    if i :| 0 <= i < |lists| && lists[i].id == fromListId && forall k :: 0 <= k < i ==> lists[k].id != fromListId {
      assert f == i;
    }
  }

  /** What one event does to the message. */
  lemma MessageStep(w: World, e: Event)
    requires Enabled(w, e)
    ensures Next(w, e).store.moveError ==
      match e
      case Fail(_, message) => Some(message)
      case Begin(_, cardId, fromListId, toListId, _) =>
        if CanBeShown(w.store.board.lists, cardId, fromListId, toListId) then None else w.store.moveError
      case _ => w.store.moveError
  {
    if e.Begin? {
      CanBeShownIff(w.store.board.lists, e.cardId, e.fromListId, e.toListId);
    }
  }

  /** The message on display: that of the last failure, unless a move was shown since. */
  ghost function MessageShown(start: Board, run: seq<Event>): Option<Str>
    requires IsRun(start, run)
    decreases |run|
  {
    if run == [] then None
    else
      var rest, e := run[..|run| - 1], run[|run| - 1];
      match e
      case Fail(_, message) => Some(message)
      case Begin(_, cardId, fromListId, toListId, _) =>
        if CanBeShown(After(start, rest).store.board.lists, cardId, fromListId, toListId) then None
        else MessageShown(start, rest)
      case _ => MessageShown(start, rest)
  }

  lemma {:induction false} LastFailureIsShown(start: Board, run: seq<Event>)
    requires IsRun(start, run)
    ensures After(start, run).store.moveError == MessageShown(start, run)
    decreases |run|
  {
    if run != [] {
      LastFailureIsShown(start, run[..|run| - 1]);
      MessageStep(After(start, run[..|run| - 1]), run[|run| - 1]);
    }
  }
}
