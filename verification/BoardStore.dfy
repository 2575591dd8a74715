/** The optimistic board store: local moves, their confirmation or rollback, and peer frames. */
module BoardStore {
  import opened Wrappers
  import opened Text
  import opened RemoteMutations

  /** A move in flight: where the card came from, the key it had, and the version it was tagged with. */
  datatype Move = Move(cardId: Id, fromListId: Id, toListId: Id,
                       originalIndex: nat, originalKey: Option<Str>, version: nat)

  datatype Store = Store(board: Board, versions: map<Id, nat>, needsResync: bool, moveError: Option<Str>)

  function VersionOf(versions: map<Id, nat>, id: Id): nat {
    if id in versions then versions[id] else 0
  }

  /** `indexOf`, or the length when absent. */
  function IndexOf(ids: seq<Id>, id: Id): (k: nat)
    ensures k <= |ids|
    ensures k < |ids| ==> ids[k] == id
    ensures k == |ids| <==> id !in ids
    ensures id !in ids[..k]
  {
    if ids == [] || ids[0] == id then 0
    else
      assert ids == [ids[0]] + ids[1..];
      1 + IndexOf(ids[1..], id)
  }

  function RemoveAt(ids: seq<Id>, k: nat): seq<Id>
    requires k < |ids|
  {
    ids[..k] + ids[k + 1..]
  }

  /** Where JavaScript's `splice` starts for any integer. */
  function SpliceStart(index: int, length: nat): (k: nat)
    ensures k <= length
  {
    if index >= length then length
    else if index >= 0 then index
    else if length + index > 0 then length + index
    else 0
  }

  /** Take the card at `lists[a].cardIds[i]` out, then splice it into list `b`. */
  function Relocated(lists: seq<List>, a: nat, i: nat, b: nat, index: int): seq<List>
    requires a < |lists| && b < |lists| && i < |lists[a].cardIds|
  {
    var id := lists[a].cardIds[i];
    var taken := lists[a := lists[a].(cardIds := RemoveAt(lists[a].cardIds, i))];
    taken[b := taken[b].(cardIds := InsertAt(taken[b].cardIds, SpliceStart(index, |taken[b].cardIds|), id))]
  }

  function WithKey(cards: map<Id, Card>, id: Id, key: Option<Str>): map<Id, Card> {
    if id in cards then cards[id := cards[id].(positionIdx := key)] else cards
  }

  predicate CanBegin(s: Store, cardId: Id, fromListId: Id) {
    var f := FindList(s.board.lists, fromListId);
    f < |s.board.lists| && cardId in s.board.lists[f].cardIds
  }

  function MoveFor(s: Store, cardId: Id, fromListId: Id, toListId: Id): Move
    requires CanBegin(s, cardId, fromListId)
  {
    Move(cardId, fromListId, toListId,
         IndexOf(s.board.lists[FindList(s.board.lists, fromListId)].cardIds, cardId),
         if cardId in s.board.cards then s.board.cards[cardId].positionIdx else None,
         VersionOf(s.versions, cardId) + 1)
  }

  /** The synchronous part of `moveCard`, up to the persist call. */
  function Begun(s: Store, cardId: Id, fromListId: Id, toListId: Id, toIndex: int): Store
    requires CanBegin(s, cardId, fromListId)
  {
    var lists := s.board.lists;
    var f, t := FindList(lists, fromListId), FindList(lists, toListId);
    var tagged := s.(versions := s.versions[cardId := VersionOf(s.versions, cardId) + 1]);
    if t == |lists| then tagged
    else tagged.(
      board := Board(Relocated(lists, f, IndexOf(lists[f].cardIds, cardId), t, toIndex),
                     WithKey(s.board.cards, cardId, None)),
      moveError := None)
  }

  predicate IsLatest(s: Store, m: Move) {
    m.cardId in s.board.cards && VersionOf(s.versions, m.cardId) == m.version
  }

  function Confirmed(s: Store, m: Move, key: Option<Str>): Store {
    if key.None? || !IsLatest(s, m) then s
    else s.(board := s.board.(cards := WithKey(s.board.cards, m.cardId, key)))
  }

  /** The targeted rollback. */
  function RolledBack(board: Board, m: Move): Board {
    var f, t := FindList(board.lists, m.fromListId), FindList(board.lists, m.toListId);
    if f == |board.lists| || t == |board.lists| then board
    else
      var i := IndexOf(board.lists[t].cardIds, m.cardId);
      Board(
        if i < |board.lists[t].cardIds| then Relocated(board.lists, t, i, f, m.originalIndex) else board.lists,
        if m.originalKey.Some? then WithKey(board.cards, m.cardId, m.originalKey) else board.cards)
  }

  function FailedWith(s: Store, m: Move, message: Str): Store {
    s.(board := if IsLatest(s, m) then RolledBack(s.board, m) else s.board, moveError := Some(message))
  }

  /** The card that a frame from a peer overrides local moves of. */
  function Overridden(f: Frame): Option<Id> {
    match f
    case CardMoved(cardId, _, _) => if Given(cardId) then cardId else None
    case CardDeleted(cardId) => if Given(cardId) then cardId else None
    case _ => None
  }

  function Applied(s: Store, f: Frame): Store {
    var patch, c := Reconciled(s.board, f), Overridden(f);
    Store(
      Patched(s.board, patch),
      if c.Some? then s.versions[c.value := VersionOf(s.versions, c.value) + 1] else s.versions,
      s.needsResync || patch.needsResync,
      s.moveError)
  }

  class UseBoardStore {
    var lists: seq<List>
    var cards: map<Id, Card>
    var versions: map<Id, nat>
    var needsResync: bool
    var moveError: Option<Str>

    ghost function State(): Store
      reads this
    {
      Store(Board(lists, cards), versions, needsResync, moveError)
    }

    constructor (board: Board)
      ensures State() == Store(board, map[], false, None)
    {
      lists, cards, versions, needsResync, moveError := board.lists, board.cards, map[], false, None;
    }

    method ApplyRemoteMutation(f: Frame)
      modifies this
      ensures State() == Applied(old(State()), f)
    {
      var patch := ReconcileRemoteMutation(Board(lists, cards), f);
      lists, cards := patch.lists.GetOr(lists), patch.cards.GetOr(cards);
      if patch.needsResync {
        needsResync := true;
      }
      if (f.CardMoved? || f.CardDeleted?) && Given(f.cardId) {
        versions := versions[f.cardId.value := VersionOf(versions, f.cardId.value) + 1];
      }
    }

    /** Cut the card out of one list and splice it into another, or the same. */
    method Relocate(a: nat, i: nat, b: nat, index: int)
      requires a < |lists| && b < |lists| && i < |lists[a].cardIds|
      modifies this`lists
      ensures lists == Relocated(old(lists), a, i, b, index)
    {
      var id := lists[a].cardIds[i];
      lists := lists[a := lists[a].(cardIds := RemoveAt(lists[a].cardIds, i))];
      lists := lists[b := lists[b].(cardIds := InsertAt(lists[b].cardIds, SpliceStart(index, |lists[b].cardIds|), id))];
    }

    /** The start of `moveCard`: the move to persist, if any, and the neighbours to persist it with. */
    method BeginMove(cardId: Id, fromListId: Id, toListId: Id, toIndex: int)
      returns (move: Option<Move>, before: Option<Id>, after: Option<Id>)
      modifies this
      ensures move.Some? <==> CanBegin(old(State()), cardId, fromListId)
      ensures move.Some? ==> move.value == MoveFor(old(State()), cardId, fromListId, toListId)
      ensures State() == if move.Some? then Begun(old(State()), cardId, fromListId, toListId, toIndex) else old(State())
      ensures move.Some? ==>
        before == CardBefore(lists, toListId, cardId) && after == CardAfter(lists, toListId, cardId)
    {
      before, after := None, None;
      var f := FindList(lists, fromListId);
      if f == |lists| || cardId !in lists[f].cardIds {
        return None, None, None;
      }
      var originalIndex := IndexOf(lists[f].cardIds, cardId);
      var originalKey := if cardId in cards then cards[cardId].positionIdx else None;
      var version := VersionOf(versions, cardId) + 1;
      versions := versions[cardId := version];
      var t := FindList(lists, toListId);
      if t < |lists| {
        ShowMoved(cardId, f, originalIndex, t, toIndex);
      }
      move := Some(Move(cardId, fromListId, toListId, originalIndex, originalKey, version));
      before, after := Neighbours(toListId, cardId);
    }

    /** The cards around the moved one, as it now stands. */
    method Neighbours(listId: Id, cardId: Id) returns (before: Option<Id>, after: Option<Id>)
      ensures before == CardBefore(lists, listId, cardId) && after == CardAfter(lists, listId, cardId)
    {
      before, after := None, None;
      var target := FindList(lists, listId);
      if target < |lists| {
        var ids := lists[target].cardIds;
        var k := IndexOf(ids, cardId);
        if k < |ids| {
          before := if k > 0 then Some(ids[k - 1]) else None;
          after := if k < |ids| - 1 then Some(ids[k + 1]) else None;
        }
      }
    }

    /** The optimistic update: into the target position, without its key. */
    method ShowMoved(cardId: Id, f: nat, originalIndex: nat, t: nat, toIndex: int)
      requires f < |lists| && t < |lists| && originalIndex < |lists[f].cardIds|
      modifies this`lists, this`cards, this`moveError
      ensures lists == Relocated(old(lists), f, originalIndex, t, toIndex)
      ensures cards == WithKey(old(cards), cardId, None) && moveError == None
    {
      Relocate(f, originalIndex, t, toIndex);
      if cardId in cards && cards[cardId].positionIdx.Some? {
        cards := cards[cardId := cards[cardId].(positionIdx := None)];
      }
      moveError := None;
    }

    method ConfirmMove(m: Move, key: Option<Str>)
      modifies this`cards
      ensures State() == Confirmed(old(State()), m, key)
    {
      if key.Some? && m.cardId in cards && VersionOf(versions, m.cardId) == m.version {
        cards := cards[m.cardId := cards[m.cardId].(positionIdx := key)];
      }
    }

    method FailMove(m: Move, message: Str)
      modifies this
      ensures State() == FailedWith(old(State()), m, message)
    {
      moveError := Some(message);
      if m.cardId !in cards || VersionOf(versions, m.cardId) != m.version {
        return;
      }
      var f, t := FindList(lists, m.fromListId), FindList(lists, m.toListId);
      if f == |lists| || t == |lists| {
        return;
      }
      var i := IndexOf(lists[t].cardIds, m.cardId);
      if i < |lists[t].cardIds| {
        Relocate(t, i, f, m.originalIndex);
      }
      if m.originalKey.Some? {
        cards := cards[m.cardId := cards[m.cardId].(positionIdx := m.originalKey)];
      }
    }
  }

  /** The neighbours that the persist call names. */
  function CardBefore(lists: seq<List>, listId: Id, cardId: Id): Option<Id> {
    var t := FindList(lists, listId);
    if t == |lists| then None
    else
      var k := IndexOf(lists[t].cardIds, cardId);
      if 0 < k < |lists[t].cardIds| then Some(lists[t].cardIds[k - 1]) else None
  }

  function CardAfter(lists: seq<List>, listId: Id, cardId: Id): Option<Id> {
    var t := FindList(lists, listId);
    if t == |lists| then None
    else
      var k := IndexOf(lists[t].cardIds, cardId);
      if k + 1 < |lists[t].cardIds| then Some(lists[t].cardIds[k + 1]) else None
  }

  // --- relocating ------------------------------------------------------------------------

  lemma RemoveAtCount(ids: seq<Id>, k: nat)
    requires k < |ids|
    ensures multiset(RemoveAt(ids, k)) + multiset{ids[k]} == multiset(ids)
  {
    assert ids == ids[..k] + [ids[k]] + ids[k + 1..];
  }

  lemma {:induction false} RemoveAtWithout(ids: seq<Id>, k: nat)
    requires k < |ids|
    ensures WithoutId(RemoveAt(ids, k), ids[k]) == WithoutId(ids, ids[k])
  {
    var rest := RemoveAt(ids, k);
    if k == 0 {
      assert rest == ids[1..];
    } else {
      RemoveAtWithout(ids[1..], k - 1);
      assert rest[0] == ids[0] && rest[1..] == RemoveAt(ids[1..], k - 1);
    }
  }

  /** However a card is relocated, every card still appears as often as before. */
  lemma RelocatedCount(lists: seq<List>, a: nat, i: nat, b: nat, index: int, x: Id)
    requires a < |lists| && b < |lists| && i < |lists[a].cardIds|
    ensures Occurrences(Relocated(lists, a, i, b, index), x) == Occurrences(lists, x)
  {
    var id := lists[a].cardIds[i];
    var l := lists[a].(cardIds := RemoveAt(lists[a].cardIds, i));
    var taken := lists[a := l];
    RemoveAtCount(lists[a].cardIds, i);
    OccurrencesReplaced(lists, a, l, x);
    var start := SpliceStart(index, |taken[b].cardIds|);
    InsertAtFacts(taken[b].cardIds, start, id);
    OccurrencesReplaced(taken, b, taken[b].(cardIds := InsertAt(taken[b].cardIds, start, id)), x);
  }

  lemma WithoutReplaced(lists: seq<List>, k: nat, l: List, id: Id)
    requires k < |lists| && l.id == lists[k].id && l.title == lists[k].title
    requires WithoutId(l.cardIds, id) == WithoutId(lists[k].cardIds, id)
    ensures Without(lists[k := l], id) == Without(lists, id)
  {
    WithoutAt(lists, id);
    WithoutAt(lists[k := l], id);
    assert Without(lists[k := l], id) == Without(lists, id);
  }

  /** And all other cards stay in their lists, in the same order. */
  lemma RelocatedKeepsOthers(lists: seq<List>, a: nat, i: nat, b: nat, index: int)
    requires a < |lists| && b < |lists| && i < |lists[a].cardIds|
    ensures Without(Relocated(lists, a, i, b, index), lists[a].cardIds[i]) == Without(lists, lists[a].cardIds[i])
  {
    var id := lists[a].cardIds[i];
    var l := lists[a].(cardIds := RemoveAt(lists[a].cardIds, i));
    var taken := lists[a := l];
    RemoveAtWithout(lists[a].cardIds, i);
    WithoutReplaced(lists, a, l, id);
    var start := SpliceStart(index, |taken[b].cardIds|);
    InsertThenWithout(taken[b].cardIds, start, id);
    WithoutReplaced(taken, b, taken[b].(cardIds := InsertAt(taken[b].cardIds, start, id)), id);
  }

  lemma RelocatedPlaces(board: Board, a: nat, i: nat, b: nat, index: int, cards: map<Id, Card>)
    requires Placed(board) && cards.Keys == board.cards.Keys
    requires a < |board.lists| && b < |board.lists| && i < |board.lists[a].cardIds|
    ensures Placed(Board(Relocated(board.lists, a, i, b, index), cards))
  {
    var lists := Relocated(board.lists, a, i, b, index);
    forall x ensures Occurrences(lists, x) == if x in cards then 1 else 0 {
      RelocatedCount(board.lists, a, i, b, index, x);
    }
  }

  lemma {:induction false} IndexIs(ids: seq<Id>, k: nat, id: Id)
    requires k < |ids| && ids[k] == id && id !in ids[..k]
    ensures IndexOf(ids, id) == k
  {
    if k > 0 {
      assert ids[0] == ids[..k][0] && ids[1..][..k - 1] == ids[..k][1..];
      IndexIs(ids[1..], k - 1, id);
    }
  }

  lemma InsertedIndex(ids: seq<Id>, k: nat, id: Id)
    requires id !in ids && k <= |ids|
    ensures IndexOf(InsertAt(ids, k, id), id) == k
    ensures RemoveAt(InsertAt(ids, k, id), k) == ids
  {
    var after := InsertAt(ids, k, id);
    assert after[..k] == ids[..k];
    IndexIs(after, k, id);
  }

  lemma InsertBack(ids: seq<Id>, i: nat)
    requires i < |ids|
    ensures var rest := RemoveAt(ids, i); InsertAt(rest, SpliceStart(i, |rest|), ids[i]) == ids
  {
  }

  /** A card that stands once is found where it was put, and taking it out restores the lists. */
  lemma RelocatedBack(lists: seq<List>, a: nat, i: nat, b: nat, index: int, id: Id)
    requires a < |lists| && b < |lists| && i < |lists[a].cardIds| && lists[a].cardIds[i] == id
    requires Occurrences(lists, id) == 1
    ensures var there := Relocated(lists, a, i, b, index);
      var j := IndexOf(there[b].cardIds, id);
      && j < |there[b].cardIds|
      && Relocated(there, b, j, a, i) == lists
  {
    var l := lists[a].(cardIds := RemoveAt(lists[a].cardIds, i));
    var taken := lists[a := l];
    TakenIsGone(lists, a, i, b, id);
    var start := SpliceStart(index, |taken[b].cardIds|);
    InsertedIndex(taken[b].cardIds, start, id);
    TakeBack(taken, b, start, id, a, i);
    InsertBack(lists[a].cardIds, i);
    assert taken[a := taken[a].(cardIds := lists[a].cardIds)] == lists;
  }

  /** Relocating from where a card was just inserted starts again from the lists without it. */
  lemma TakeBack(taken: seq<List>, b: nat, start: nat, id: Id, a: nat, i: nat)
    requires b < |taken| && a < |taken| && start <= |taken[b].cardIds|
    requires RemoveAt(InsertAt(taken[b].cardIds, start, id), start) == taken[b].cardIds
    ensures var there := taken[b := taken[b].(cardIds := InsertAt(taken[b].cardIds, start, id))];
      Relocated(there, b, start, a, i) ==
        taken[a := taken[a].(cardIds := InsertAt(taken[a].cardIds, SpliceStart(i, |taken[a].cardIds|), id))]
  {
    var there := taken[b := taken[b].(cardIds := InsertAt(taken[b].cardIds, start, id))];
    assert there[b := there[b].(cardIds := taken[b].cardIds)] == taken;
  }

  lemma TakenIsGone(lists: seq<List>, a: nat, i: nat, b: nat, id: Id)
    requires a < |lists| && b < |lists| && i < |lists[a].cardIds| && lists[a].cardIds[i] == id
    requires Occurrences(lists, id) == 1
    ensures id !in lists[a := lists[a].(cardIds := RemoveAt(lists[a].cardIds, i))][b].cardIds
  {
    var l := lists[a].(cardIds := RemoveAt(lists[a].cardIds, i));
    RemoveAtCount(lists[a].cardIds, i);
    OccurrencesReplaced(lists, a, l, id);
    OccursAtLeast(lists[a := l], b, id);
  }

  // --- what each action keeps -----------------------------------------------------------------

  /** Same lists, same cards, and the same order of everything but `id`. */
  ghost predicate OthersUntouched(before: Board, after: Board, id: Id) {
    && Without(after.lists, id) == Without(before.lists, id)
    && after.cards.Keys == before.cards.Keys
    && after.cards - {id} == before.cards - {id}
  }

  lemma BeginKeepsPlaced(s: Store, cardId: Id, fromListId: Id, toListId: Id, toIndex: int)
    requires Placed(s.board) && CanBegin(s, cardId, fromListId)
    ensures var s' := Begun(s, cardId, fromListId, toListId, toIndex);
      Placed(s'.board) && OthersUntouched(s.board, s'.board, cardId)
  {
    var lists := s.board.lists;
    var f, t := FindList(lists, fromListId), FindList(lists, toListId);
    if t < |lists| {
      var i := IndexOf(lists[f].cardIds, cardId);
      RelocatedPlaces(s.board, f, i, t, toIndex, WithKey(s.board.cards, cardId, None));
      RelocatedKeepsOthers(lists, f, i, t, toIndex);
    }
  }

  lemma RollbackKeepsPlaced(board: Board, m: Move)
    requires Placed(board) && m.cardId in board.cards
    ensures Placed(RolledBack(board, m)) && OthersUntouched(board, RolledBack(board, m), m.cardId)
  {
    var lists, after := board.lists, RolledBack(board, m);
    var f, t := FindList(lists, m.fromListId), FindList(lists, m.toListId);
    if f < |lists| && t < |lists| {
      assert after.cards.Keys == board.cards.Keys && after.cards - {m.cardId} == board.cards - {m.cardId};
      var i := IndexOf(lists[t].cardIds, m.cardId);
      if i < |lists[t].cardIds| {
        RelocatedPlaces(board, t, i, f, m.originalIndex, after.cards);
        RelocatedKeepsOthers(lists, t, i, f, m.originalIndex);
      } else {
        assert Placed(after) && after.lists == lists;
      }
    }
  }

  /** Whatever happened in between, a rollback moves only its own card. */
  lemma FailKeepsPlaced(s: Store, m: Move, message: Str)
    requires Placed(s.board)
    ensures var s' := FailedWith(s, m, message);
      Placed(s'.board) && OthersUntouched(s.board, s'.board, m.cardId)
  {
    if IsLatest(s, m) {
      RollbackKeepsPlaced(s.board, m);
    }
  }

  lemma ConfirmKeepsPlaced(s: Store, m: Move, key: Option<Str>)
    requires Placed(s.board)
    ensures var s' := Confirmed(s, m, key);
      Placed(s'.board) && s'.board.lists == s.board.lists && OthersUntouched(s.board, s'.board, m.cardId)
  {
  }

  /** If nothing touched the board since, a failed move leaves lists and cards exactly as they were. */
  lemma RollbackRestores(s: Store, cardId: Id, fromListId: Id, toListId: Id, toIndex: int, later: Store, message: Str)
    requires Placed(s.board) && CanBegin(s, cardId, fromListId)
    requires later.board == Begun(s, cardId, fromListId, toListId, toIndex).board
    requires later.versions == Begun(s, cardId, fromListId, toListId, toIndex).versions
    ensures FailedWith(later, MoveFor(s, cardId, fromListId, toListId), message).board == s.board
  {
    var m := MoveFor(s, cardId, fromListId, toListId);
    ListedIsKnown(s.board, FindList(s.board.lists, fromListId), cardId);
    if FindList(s.board.lists, toListId) < |s.board.lists| {
      RelocationIsUndone(s, cardId, fromListId, toListId, toIndex);
    } else {
      NowhereToReturn(s, cardId, fromListId, toListId);
    }
    assert RolledBack(later.board, m) == s.board;
    assert VersionOf(later.versions, cardId) == m.version;
  }

  lemma ListedIsKnown(board: Board, k: nat, cardId: Id)
    requires Placed(board) && k < |board.lists| && cardId in board.lists[k].cardIds
    ensures Occurrences(board.lists, cardId) == 1 && cardId in board.cards
  {
    OccursAtLeast(board.lists, k, cardId);
    assert cardId in multiset(board.lists[k].cardIds);
  }

  lemma RelocationIsUndone(s: Store, cardId: Id, fromListId: Id, toListId: Id, toIndex: int)
    requires Occurrences(s.board.lists, cardId) == 1 && cardId in s.board.cards
    requires CanBegin(s, cardId, fromListId) && FindList(s.board.lists, toListId) < |s.board.lists|
    ensures var m := MoveFor(s, cardId, fromListId, toListId);
      RolledBack(Begun(s, cardId, fromListId, toListId, toIndex).board, m) == s.board
  {
    var lists, m := s.board.lists, MoveFor(s, cardId, fromListId, toListId);
    var f, t := FindList(lists, fromListId), FindList(lists, toListId);
    var i := m.originalIndex;
    var begun := Board(Relocated(lists, f, i, t, toIndex), WithKey(s.board.cards, cardId, None));
    assert Begun(s, cardId, fromListId, toListId, toIndex).board == begun;
    ListsAreUndone(lists, f, i, t, toIndex, m);
    KeyIsRestored(s.board.cards, cardId);
    assert RolledBack(begun, m).cards == s.board.cards;
    assert RolledBack(begun, m).lists == s.board.lists;
  }

  lemma ListsAreUndone(lists: seq<List>, f: nat, i: nat, t: nat, toIndex: int, m: Move)
    requires f == FindList(lists, m.fromListId) < |lists| && t == FindList(lists, m.toListId) < |lists|
    requires i < |lists[f].cardIds| && lists[f].cardIds[i] == m.cardId && i == m.originalIndex
    requires Occurrences(lists, m.cardId) == 1
    ensures forall cards: map<Id, Card> ::
      RolledBack(Board(Relocated(lists, f, i, t, toIndex), cards), m).lists == lists
  {
    RelocatedBack(lists, f, i, t, toIndex, m.cardId);
    SameIdsRelocated(lists, f, i, t, toIndex, m.fromListId);
    SameIdsRelocated(lists, f, i, t, toIndex, m.toListId);
  }

  lemma KeyIsRestored(cards: map<Id, Card>, id: Id)
    requires id in cards
    ensures var key := cards[id].positionIdx;
      (if key.Some? then WithKey(WithKey(cards, id, None), id, key) else WithKey(cards, id, None)) == cards
  {
  }

  lemma SameIdsRelocated(lists: seq<List>, a: nat, i: nat, b: nat, index: int, listId: Id)
    requires a < |lists| && b < |lists| && i < |lists[a].cardIds|
    ensures FindList(Relocated(lists, a, i, b, index), listId) == FindList(lists, listId)
  {
    var there := Relocated(lists, a, i, b, index);
    assert |there| == |lists| && forall k :: 0 <= k < |lists| ==> there[k].id == lists[k].id;
    var p, q := FindList(lists, listId), FindList(there, listId);
    assert p < |lists| ==> there[p].id == listId;
    assert q < |lists| ==> lists[q].id == listId;
  }

  lemma NowhereToReturn(s: Store, cardId: Id, fromListId: Id, toListId: Id)
    requires CanBegin(s, cardId, fromListId) && FindList(s.board.lists, toListId) == |s.board.lists|
    ensures RolledBack(s.board, MoveFor(s, cardId, fromListId, toListId)) == s.board
  {
  }

  /** The optimistic move clears the card's key, so keyed cards stay in order for the next frame. */
  lemma BeginKeepsKeysOrdered(s: Store, cardId: Id, fromListId: Id, toListId: Id, toIndex: int)
    requires AllKeysOrdered(s.board) && Placed(s.board) && CanBegin(s, cardId, fromListId)
    ensures AllKeysOrdered(Begun(s, cardId, fromListId, toListId, toIndex).board)
  {
    var after := Begun(s, cardId, fromListId, toListId, toIndex).board;
    if FindList(s.board.lists, toListId) < |s.board.lists| {
      BeginKeepsPlaced(s, cardId, fromListId, toListId, toIndex);
      WithoutAt(s.board.lists, cardId);
      WithoutAt(after.lists, cardId);
      forall k | 0 <= k < |after.lists| ensures KeysOrdered(after.lists[k].cardIds, after.cards) {
        WithoutKeepsOrder(s.board.lists[k].cardIds, s.board.cards, cardId);
        assert WithoutId(after.lists[k].cardIds, cardId) == WithoutId(s.board.lists[k].cardIds, cardId);
        UnkeyedIsIrrelevant(after.lists[k].cardIds, s.board.cards, cardId);
      }
    }
  }

  /** A card without a key may stand anywhere. */
  lemma UnkeyedIsIrrelevant(ids: seq<Id>, cards: map<Id, Card>, id: Id)
    requires KeysOrdered(WithoutId(ids, id), cards)
    ensures KeysOrdered(ids, WithKey(cards, id, None))
  {
    var unkeyed := WithKey(cards, id, None);
    forall i, j | 0 <= i < j < |ids| && ids[j] in unkeyed && unkeyed[ids[j]].positionIdx.Some?
      ensures !SortsBefore(unkeyed, unkeyed[ids[j]].positionIdx.value, ids[i])
    {
      if ids[i] != id && ids[j] != id {
        var p, q := KeptInOrder(ids, id, i, j);
      }
    }
  }

  /** Two cards that survive a filter keep their order. */
  lemma {:induction false} KeptInOrder(ids: seq<Id>, id: Id, i: nat, j: nat) returns (p: nat, q: nat)
    requires i < j < |ids| && ids[i] != id && ids[j] != id
    ensures p < q < |WithoutId(ids, id)| && WithoutId(ids, id)[p] == ids[i] && WithoutId(ids, id)[q] == ids[j]
  {
    p, q := |WithoutId(ids[..i], id)|, |WithoutId(ids[..j], id)|;
    KeptAt(ids, id, i);
    KeptAt(ids, id, j);
    assert ids[..j] == ids[..i] + [ids[i]] + ids[i + 1..j];
    WithoutIdConcat(ids[..i] + [ids[i]], ids[i + 1..j], id);
    WithoutIdConcat(ids[..i], [ids[i]], id);
  }

  lemma KeptAt(ids: seq<Id>, id: Id, i: nat)
    requires i < |ids| && ids[i] != id
    ensures |WithoutId(ids[..i], id)| < |WithoutId(ids, id)| && WithoutId(ids, id)[|WithoutId(ids[..i], id)|] == ids[i]
  {
    assert ids == ids[..i] + ([ids[i]] + ids[i + 1..]);
    WithoutIdConcat(ids[..i], [ids[i]] + ids[i + 1..], id);
  }
}
