/** Reconciling a peer's realtime frame with the local board. */
module RemoteMutations {
  import opened Wrappers
  import opened Text

  type Id = Str

  /** A card's ordering key and the rest of it. */
  datatype Card = Card(positionIdx: Option<Str>, body: Str)

  datatype List = List(id: Id, title: Str, cardIds: seq<Id>)

  datatype Board = Board(lists: seq<List>, cards: map<Id, Card>)

  /** Payload fields may be missing. */
  datatype Frame =
    | CardMoved(cardId: Option<Id>, listId: Option<Id>, positionIdx: Option<Str>)
    | CardDeleted(cardId: Option<Id>)
    | ListDeleted(listId: Option<Id>)
    | Content  // created and updated frames, and unknown types

  datatype Patch = Patch(lists: Option<seq<List>>, cards: Option<map<Id, Card>>, needsResync: bool)

  const NO_PATCH := Patch(None, None, false)
  const RESYNC := Patch(None, None, true)

  /** A missing id and an empty one are both falsy. */
  predicate Given(id: Option<Id>) {
    id.Some? && id.value != []
  }

  function WithoutId(ids: seq<Id>, id: Id): seq<Id> {
    if ids == [] then []
    else if ids[0] == id then WithoutId(ids[1..], id)
    else [ids[0]] + WithoutId(ids[1..], id)
  }

  /** Every list without the card. */
  function Without(lists: seq<List>, id: Id): seq<List> {
    if lists == [] then []
    else [lists[0].(cardIds := WithoutId(lists[0].cardIds, id))] + Without(lists[1..], id)
  }

  /** The index of the first list with this id, or the number of lists. */
  function FindList(lists: seq<List>, id: Id): (k: nat)
    ensures k <= |lists|
    ensures k < |lists| ==> lists[k].id == id
    ensures forall i :: 0 <= i < k ==> lists[i].id != id
  {
    if lists == [] || lists[0].id == id then 0
    else
      var k := FindList(lists[1..], id);
      assert forall i :: 0 <= i < k ==> lists[1..][i] == lists[i + 1];
      k + 1
  }

  /** `splice(index, 0, id)`, the index clamped to the end. */
  function InsertAt(ids: seq<Id>, index: nat, id: Id): seq<Id> {
    var k := if index < |ids| then index else |ids|;
    ids[..k] + [id] + ids[k..]
  }

  /** Every list of this id with the card at `index`. */
  function InsertInto(lists: seq<List>, listId: Id, index: nat, id: Id): seq<List> {
    if lists == [] then []
    else [if lists[0].id == listId then lists[0].(cardIds := InsertAt(lists[0].cardIds, index, id)) else lists[0]]
         + InsertInto(lists[1..], listId, index, id)
  }

  function RemoveList(lists: seq<List>, listId: Id): seq<List> {
    if lists == [] then []
    else (if lists[0].id == listId then [] else [lists[0]]) + RemoveList(lists[1..], listId)
  }

  predicate SortsBefore(cards: map<Id, Card>, key: Str, sibling: Id) {
    sibling in cards && cards[sibling].positionIdx.Some? && Precedes(key, cards[sibling].positionIdx.value)
  }

  /** The first keyed sibling that sorts after `key`. */
  function InsertionIndex(ids: seq<Id>, cards: map<Id, Card>, key: Str): (k: nat)
    ensures k <= |ids|
  {
    if ids == [] || SortsBefore(cards, key, ids[0]) then 0 else 1 + InsertionIndex(ids[1..], cards, key)
  }

  lemma {:induction false} InsertionIndexIsFirst(ids: seq<Id>, cards: map<Id, Card>, key: Str)
    ensures var k := InsertionIndex(ids, cards, key);
      && (k < |ids| ==> SortsBefore(cards, key, ids[k]))
      && forall i :: 0 <= i < k ==> !SortsBefore(cards, key, ids[i])
  {
    if ids != [] && !SortsBefore(cards, key, ids[0]) {
      InsertionIndexIsFirst(ids[1..], cards, key);
      var k := InsertionIndex(ids[1..], cards, key);
      assert forall i :: 0 < i < 1 + k ==> ids[i] == ids[1..][i - 1];
    }
  }

  method InsertionIndexForKey(orderedCardIds: seq<Id>, cards: map<Id, Card>, key: Str) returns (k: nat)
    ensures k == InsertionIndex(orderedCardIds, cards, key)
    ensures k <= |orderedCardIds|
    ensures k < |orderedCardIds| ==> SortsBefore(cards, key, orderedCardIds[k])
    ensures forall i :: 0 <= i < k ==> !SortsBefore(cards, key, orderedCardIds[i])
  {
    InsertionIndexIsFirst(orderedCardIds, cards, key);
    k := 0;
    while k < |orderedCardIds|
      invariant k <= |orderedCardIds|
      invariant forall i :: 0 <= i < k ==> !SortsBefore(cards, key, orderedCardIds[i])
      invariant k <= InsertionIndex(orderedCardIds, cards, key)
    {
      var sibling := orderedCardIds[k];
      if sibling in cards && cards[sibling].positionIdx.Some? && Precedes(key, cards[sibling].positionIdx.value) {
        return;
      }
      k := k + 1;
    }
  }

  function MovedTo(board: Board, cardId: Id, listId: Id, key: Str): Board {
    var without := Without(board.lists, cardId);
    var t := FindList(without, listId);
    var index := if t < |without| then InsertionIndex(without[t].cardIds, board.cards, key) else 0;
    Board(InsertInto(without, listId, index, cardId),
          if cardId in board.cards then board.cards[cardId := board.cards[cardId].(positionIdx := Some(key))]
          else board.cards)
  }

  predicate CanMove(board: Board, f: Frame) {
    && f.CardMoved? && Given(f.cardId) && Given(f.listId) && f.positionIdx.Some?
    && f.cardId.value in board.cards && FindList(board.lists, f.listId.value) < |board.lists|
  }

  function Reconciled(board: Board, f: Frame): Patch {
    match f
    case CardMoved(cardId, listId, key) =>
      if !CanMove(board, f) then RESYNC
      else
        var moved := MovedTo(board, cardId.value, listId.value, key.value);
        Patch(Some(moved.lists), Some(moved.cards), false)
    case CardDeleted(cardId) =>
      if !Given(cardId) || cardId.value !in board.cards then NO_PATCH
      else Patch(Some(Without(board.lists, cardId.value)), Some(board.cards - {cardId.value}), false)
    case ListDeleted(listId) =>
      if !Given(listId) || FindList(board.lists, listId.value) == |board.lists| then NO_PATCH
      else
        var removed := board.lists[FindList(board.lists, listId.value)];
        Patch(Some(RemoveList(board.lists, listId.value)), Some(board.cards - (set id | id in removed.cardIds)), false)
    case Content => RESYNC
  }

  /** The `for … delete cards[id]` loop. */
  method DeleteCards(cards: map<Id, Card>, ids: seq<Id>) returns (rest: map<Id, Card>)
    ensures rest == cards - (set id | id in ids)
  {
    rest := cards;
    for k := 0 to |ids|
      invariant rest == cards - (set id | id in ids[..k])
    {
      assert ids[..k + 1] == ids[..k] + [ids[k]];
      rest := rest - {ids[k]};
    }
    assert ids[..|ids|] == ids;
  }

  method ReconcileRemoteMutation(board: Board, f: Frame) returns (patch: Patch)
    ensures patch == Reconciled(board, f)
  {
    match f
    case CardMoved(cardId, listId, positionIdx) =>
      if !Given(cardId) || !Given(listId) || positionIdx.None? {
        return RESYNC;
      }
      if cardId.value !in board.cards || FindList(board.lists, listId.value) == |board.lists| {
        return RESYNC;
      }
      var without := Without(board.lists, cardId.value);
      SameListIds(board.lists, cardId.value, listId.value);
      var target := FindList(without, listId.value);
      var index := InsertionIndexForKey(without[target].cardIds, board.cards, positionIdx.value);
      var lists := InsertInto(without, listId.value, index, cardId.value);
      var card := board.cards[cardId.value];
      return Patch(Some(lists), Some(board.cards[cardId.value := card.(positionIdx := positionIdx)]), false);
    case CardDeleted(cardId) =>
      if !Given(cardId) || cardId.value !in board.cards {
        return NO_PATCH;
      }
      return Patch(Some(Without(board.lists, cardId.value)), Some(board.cards - {cardId.value}), false);
    case ListDeleted(listId) =>
      if !Given(listId) {
        return NO_PATCH;
      }
      var k := FindList(board.lists, listId.value);
      if k == |board.lists| {
        return NO_PATCH;
      }
      var cards := DeleteCards(board.cards, board.lists[k].cardIds);
      return Patch(Some(RemoveList(board.lists, listId.value)), Some(cards), false);
    case Content => return RESYNC;
  }

  // --- filtering and inserting ------------------------------------------------------------

  /** Dropping a card leaves each list in its place. */
  lemma {:induction false} WithoutAt(lists: seq<List>, id: Id)
    ensures |Without(lists, id)| == |lists|
    ensures forall i :: 0 <= i < |lists| ==>
      Without(lists, id)[i] == lists[i].(cardIds := WithoutId(lists[i].cardIds, id))
  {
    if lists != [] {
      WithoutAt(lists[1..], id);
    }
  }

  lemma SameListIds(lists: seq<List>, id: Id, listId: Id)
    ensures |Without(lists, id)| == |lists| && FindList(Without(lists, id), listId) == FindList(lists, listId)
  {
    WithoutAt(lists, id);
    var a, b := FindList(lists, listId), FindList(Without(lists, id), listId);
    assert a < |lists| ==> Without(lists, id)[a].id == listId;
    assert b < |lists| ==> lists[b].id == listId;
  }

  lemma {:induction false} InsertIntoAt(lists: seq<List>, listId: Id, index: nat, id: Id)
    ensures |InsertInto(lists, listId, index, id)| == |lists|
    ensures forall i :: 0 <= i < |lists| ==>
      InsertInto(lists, listId, index, id)[i] ==
        if lists[i].id == listId then lists[i].(cardIds := InsertAt(lists[i].cardIds, index, id)) else lists[i]
  {
    if lists != [] {
      InsertIntoAt(lists[1..], listId, index, id);
    }
  }

  lemma {:induction false} WithoutIdConcat(a: seq<Id>, b: seq<Id>, id: Id)
    ensures WithoutId(a + b, id) == WithoutId(a, id) + WithoutId(b, id)
  {
    if a == [] {
      assert a + b == b;
    } else {
      var all := a + b;
      assert all[0] == a[0] && all[1..] == a[1..] + b;
      WithoutIdConcat(a[1..], b, id);
    }
  }

  /** A card inserted anywhere and filtered out again leaves no trace. */
  lemma InsertThenWithout(ids: seq<Id>, index: nat, id: Id)
    ensures WithoutId(InsertAt(ids, index, id), id) == WithoutId(ids, id)
  {
    var k := if index < |ids| then index else |ids|;
    WithoutIdConcat(ids[..k] + [id], ids[k..], id);
    WithoutIdConcat(ids[..k], [id], id);
    WithoutIdConcat(ids[..k], ids[k..], id);
    assert ids == ids[..k] + ids[k..];
  }

  lemma {:induction false} WithoutIdFacts(ids: seq<Id>, id: Id)
    ensures id !in WithoutId(ids, id)
    ensures forall x :: x in WithoutId(ids, id) <==> x in ids && x != id
    ensures multiset(WithoutId(ids, id)) == multiset(ids)[id := 0]
    ensures id !in ids ==> WithoutId(ids, id) == ids
    ensures WithoutId(WithoutId(ids, id), id) == WithoutId(ids, id)
  {
    if ids != [] {
      WithoutIdFacts(ids[1..], id);
      assert ids == [ids[0]] + ids[1..];
    }
  }

  lemma InsertAtFacts(ids: seq<Id>, index: nat, id: Id)
    ensures multiset(InsertAt(ids, index, id)) == multiset(ids) + multiset{id}
  {
    var k := if index < |ids| then index else |ids|;
    assert ids == ids[..k] + ids[k..];
  }

  // --- each card in one place -----------------------------------------------------------------

  /** How often a card appears over all lists. */
  function Occurrences(lists: seq<List>, id: Id): nat {
    if lists == [] then 0 else multiset(lists[0].cardIds)[id] + Occurrences(lists[1..], id)
  }

  ghost predicate DistinctLists(lists: seq<List>) {
    forall i, j :: 0 <= i < j < |lists| ==> lists[i].id != lists[j].id
  }

  /** Each known card appears exactly once over all lists, and no unknown one does. */
  ghost predicate Placed(board: Board) {
    && DistinctLists(board.lists)
    && forall id :: Occurrences(board.lists, id) == if id in board.cards then 1 else 0
  }

  lemma {:induction false} OccurrencesWithout(lists: seq<List>, gone: Id, id: Id)
    ensures Occurrences(Without(lists, gone), id) == if id == gone then 0 else Occurrences(lists, id)
  {
    if lists != [] {
      WithoutIdFacts(lists[0].cardIds, gone);
      OccurrencesWithout(lists[1..], gone, id);
    }
  }

  /** Changing one list changes the count by that list's share. */
  lemma {:induction false} OccurrencesReplaced(lists: seq<List>, k: nat, l: List, id: Id)
    requires k < |lists|
    ensures Occurrences(lists[k := l], id) + multiset(lists[k].cardIds)[id] ==
            Occurrences(lists, id) + multiset(l.cardIds)[id]
  {
    if k > 0 {
      OccurrencesReplaced(lists[1..], k - 1, l, id);
      assert lists[k := l][1..] == lists[1..][k - 1 := l];
    } else {
      assert lists[k := l][1..] == lists[1..];
    }
  }

  lemma {:induction false} OccursAtLeast(lists: seq<List>, k: nat, id: Id)
    requires k < |lists|
    ensures Occurrences(lists, id) >= multiset(lists[k].cardIds)[id]
  {
    if k > 0 {
      OccursAtLeast(lists[1..], k - 1, id);
    }
  }

  /** With distinct list ids, inserting into a list by its id changes that list only. */
  lemma InsertIntoOne(lists: seq<List>, listId: Id, index: nat, id: Id)
    requires DistinctLists(lists) && FindList(lists, listId) < |lists|
    ensures var t := FindList(lists, listId);
      InsertInto(lists, listId, index, id) == lists[t := lists[t].(cardIds := InsertAt(lists[t].cardIds, index, id))]
  {
    InsertIntoAt(lists, listId, index, id);
    var t := FindList(lists, listId);
    forall i | 0 <= i < |lists| && i != t ensures lists[i].id != listId {
      assert i < t || t < i;
    }
  }

  lemma {:induction false} RemoveListAt(lists: seq<List>, listId: Id)
    requires DistinctLists(lists) && FindList(lists, listId) < |lists|
    ensures var t := FindList(lists, listId); RemoveList(lists, listId) == lists[..t] + lists[t + 1..]
  {
    if lists[0].id == listId {
      RemoveAbsentList(lists[1..], listId);
    } else {
      TailIsDistinct(lists);
      RemoveListAt(lists[1..], listId);
      CutBehindHead(lists, FindList(lists[1..], listId));
    }
  }

  lemma TailIsDistinct(lists: seq<List>)
    requires DistinctLists(lists) && lists != []
    ensures DistinctLists(lists[1..])
  {
    assert forall i :: 0 <= i < |lists| - 1 ==> lists[1..][i] == lists[i + 1];
  }

  lemma CutBehindHead(lists: seq<List>, t: nat)
    requires t + 1 < |lists|
    ensures [lists[0]] + (lists[1..][..t] + lists[1..][t + 1..]) == lists[..t + 1] + lists[t + 2..]
  {
  }

  lemma {:induction false} RemoveAbsentList(lists: seq<List>, listId: Id)
    requires forall i :: 0 <= i < |lists| ==> lists[i].id != listId
    ensures RemoveList(lists, listId) == lists
  {
    if lists != [] {
      RemoveAbsentList(lists[1..], listId);
    }
  }

  lemma {:induction false} OccurrencesRemoved(lists: seq<List>, t: nat, id: Id)
    requires t < |lists|
    ensures Occurrences(lists[..t] + lists[t + 1..], id) + multiset(lists[t].cardIds)[id] == Occurrences(lists, id)
  {
    var rest := lists[..t] + lists[t + 1..];
    if t == 0 {
      assert rest == lists[1..];
    } else {
      OccurrencesRemoved(lists[1..], t - 1, id);
      assert rest[1..] == lists[1..][..t - 1] + lists[1..][t..];
    }
  }

  function Patched(board: Board, patch: Patch): Board {
    Board(patch.lists.GetOr(board.lists), patch.cards.GetOr(board.cards))
  }

  /** A list gaining a card that was nowhere. */
  lemma InsertPlaces(lists: seq<List>, t: nat, index: nat, id: Id, x: Id)
    requires t < |lists| && Occurrences(lists, id) == 0
    ensures var after := lists[t := lists[t].(cardIds := InsertAt(lists[t].cardIds, index, id))];
      Occurrences(after, x) == Occurrences(lists, x) + if x == id then 1 else 0
  {
    var l := lists[t].(cardIds := InsertAt(lists[t].cardIds, index, id));
    InsertAtFacts(lists[t].cardIds, index, id);
    OccurrencesReplaced(lists, t, l, x);
  }

  lemma MovedCount(board: Board, cardId: Id, listId: Id, key: Str, id: Id)
    requires DistinctLists(board.lists) && FindList(board.lists, listId) < |board.lists|
    ensures var after := MovedTo(board, cardId, listId, key);
      Occurrences(after.lists, id) == if id == cardId then 1 else Occurrences(board.lists, id)
  {
    var without := Without(board.lists, cardId);
    WithoutAt(board.lists, cardId);
    SameListIds(board.lists, cardId, listId);
    var t := FindList(without, listId);
    var index := InsertionIndex(without[t].cardIds, board.cards, key);
    InsertIntoOne(without, listId, index, cardId);
    OccurrencesWithout(board.lists, cardId, cardId);
    OccurrencesWithout(board.lists, cardId, id);
    InsertPlaces(without, t, index, cardId, id);
  }

  lemma MovedListIds(board: Board, cardId: Id, listId: Id, key: Str)
    requires DistinctLists(board.lists) && FindList(board.lists, listId) < |board.lists|
    ensures DistinctLists(MovedTo(board, cardId, listId, key).lists)
  {
    WithoutAt(board.lists, cardId);
    var without := Without(board.lists, cardId);
    SameListIds(board.lists, cardId, listId);
    InsertIntoAt(without, listId, InsertionIndex(without[FindList(without, listId)].cardIds, board.cards, key), cardId);
    var after := MovedTo(board, cardId, listId, key).lists;
    assert forall i :: 0 <= i < |board.lists| ==> after[i].id == board.lists[i].id;
  }

  lemma MoveKeepsPlaced(board: Board, cardId: Id, listId: Id, key: Str)
    requires Placed(board) && cardId in board.cards && FindList(board.lists, listId) < |board.lists|
    ensures Placed(MovedTo(board, cardId, listId, key))
  {
    var after := MovedTo(board, cardId, listId, key);
    forall id ensures Occurrences(after.lists, id) == if id in after.cards then 1 else 0 {
      MovedCount(board, cardId, listId, key, id);
    }
    MovedListIds(board, cardId, listId, key);
  }

  lemma DeleteCardKeepsPlaced(board: Board, cardId: Id)
    requires Placed(board)
    ensures Placed(Board(Without(board.lists, cardId), board.cards - {cardId}))
  {
    WithoutAt(board.lists, cardId);
    forall id ensures Occurrences(Without(board.lists, cardId), id) == if id in board.cards - {cardId} then 1 else 0 {
      OccurrencesWithout(board.lists, cardId, id);
    }
  }

  lemma RemovedCount(lists: seq<List>, listId: Id, id: Id)
    requires DistinctLists(lists) && FindList(lists, listId) < |lists| && Occurrences(lists, id) <= 1
    ensures Occurrences(RemoveList(lists, listId), id) ==
      if id in lists[FindList(lists, listId)].cardIds then 0 else Occurrences(lists, id)
  {
    var t := FindList(lists, listId);
    RemoveListAt(lists, listId);
    OccurrencesRemoved(lists, t, id);
    OccursAtLeast(lists, t, id);
    assert id in lists[t].cardIds <==> multiset(lists[t].cardIds)[id] > 0;
  }

  lemma DistinctAfterRemoval(lists: seq<List>, t: nat)
    requires DistinctLists(lists) && t < |lists|
    ensures DistinctLists(lists[..t] + lists[t + 1..])
  {
  }

  lemma DeleteListKeepsPlaced(board: Board, listId: Id)
    requires Placed(board) && FindList(board.lists, listId) < |board.lists|
    ensures var removed := board.lists[FindList(board.lists, listId)];
      Placed(Board(RemoveList(board.lists, listId), board.cards - (set id | id in removed.cardIds)))
  {
    var t := FindList(board.lists, listId);
    var lists, cards := RemoveList(board.lists, listId), board.cards - (set id | id in board.lists[t].cardIds);
    forall id ensures Occurrences(lists, id) == if id in cards then 1 else 0 {
      RemovedCount(board.lists, listId, id);
    }
    RemoveListAt(board.lists, listId);
    DistinctAfterRemoval(board.lists, t);
  }

  /** No frame duplicates, orphans or invents a card. */
  lemma FrameKeepsPlaced(board: Board, f: Frame)
    requires Placed(board)
    ensures Placed(Patched(board, Reconciled(board, f)))
  {
    match f
    case CardMoved(cardId, listId, key) =>
      if CanMove(board, f) {
        MoveKeepsPlaced(board, cardId.value, listId.value, key.value);
      }
    case CardDeleted(cardId) =>
      if Given(cardId) {
        DeleteCardKeepsPlaced(board, cardId.value);
      }
    case ListDeleted(listId) =>
      if Given(listId) && FindList(board.lists, listId.value) < |board.lists| {
        DeleteListKeepsPlaced(board, listId.value);
      }
    case Content =>
  }

  // --- order ----------------------------------------------------------------------------------

  /** Keyed cards in non-decreasing key order; unkeyed ones may stand anywhere. */
  ghost predicate KeysOrdered(ids: seq<Id>, cards: map<Id, Card>) {
    forall i, j :: 0 <= i < j < |ids| && ids[j] in cards && cards[ids[j]].positionIdx.Some? ==>
      !SortsBefore(cards, cards[ids[j]].positionIdx.value, ids[i])
  }

  ghost predicate AllKeysOrdered(board: Board) {
    forall k :: 0 <= k < |board.lists| ==> KeysOrdered(board.lists[k].cardIds, board.cards)
  }

  /** Where the remaining cards come from, in order. */
  lemma {:induction false} WithoutIdIsSubsequence(ids: seq<Id>, id: Id) returns (from: seq<nat>)
    ensures |from| == |WithoutId(ids, id)|
    ensures forall i :: 0 <= i < |from| ==> from[i] < |ids| && ids[from[i]] == WithoutId(ids, id)[i]
    ensures forall i, j :: 0 <= i < j < |from| ==> from[i] < from[j]
  {
    if ids == [] {
      from := [];
    } else {
      var rest := WithoutIdIsSubsequence(ids[1..], id);
      var shifted := seq(|rest|, i requires 0 <= i < |rest| => rest[i] + 1);
      from := (if ids[0] == id then [] else [0]) + shifted;
    }
  }

  lemma WithoutKeepsOrder(ids: seq<Id>, cards: map<Id, Card>, id: Id)
    requires KeysOrdered(ids, cards)
    ensures KeysOrdered(WithoutId(ids, id), cards)
  {
    var from := WithoutIdIsSubsequence(ids, id);
    var rest := WithoutId(ids, id);
    forall i, j | 0 <= i < j < |rest| && rest[j] in cards && cards[rest[j]].positionIdx.Some?
      ensures !SortsBefore(cards, cards[rest[j]].positionIdx.value, rest[i])
    {
      assert from[i] < from[j];
    }
  }

  /** Re-keying a card that is not in the list changes nothing there. */
  lemma AbsentCardIsIrrelevant(ids: seq<Id>, cards: map<Id, Card>, id: Id, card: Card)
    requires KeysOrdered(ids, cards) && id !in ids
    ensures KeysOrdered(ids, cards[id := card])
  {
    forall i, j | 0 <= i < j < |ids| && ids[j] in cards[id := card] && cards[id := card][ids[j]].positionIdx.Some?
      ensures !SortsBefore(cards[id := card], cards[id := card][ids[j]].positionIdx.value, ids[i])
    {
      assert ids[i] != id && ids[j] != id;
    }
  }

  lemma InsertedIsOrdered(ids: seq<Id>, cards: map<Id, Card>, id: Id, key: Str)
    requires KeysOrdered(ids, cards) && id !in ids && id in cards
    requires cards[id].positionIdx == Some(key)
    ensures KeysOrdered(InsertAt(ids, InsertionIndex(ids, cards, key), id), cards)
  {
    InsertionIndexIsFirst(ids, cards, key);
    var k := InsertionIndex(ids, cards, key);
    var after := InsertAt(ids, k, id);
    forall i, j | 0 <= i < j < |after| && after[j] in cards && cards[after[j]].positionIdx.Some?
      ensures !SortsBefore(cards, cards[after[j]].positionIdx.value, after[i])
    {
      if i == k {
        var later := cards[after[j]].positionIdx.value;
        assert after[j] == ids[j - 1];
        if k < j - 1 {
          assert !SortsBefore(cards, later, ids[k]);
          PrecedesOrder(later, key, cards[ids[k]].positionIdx.value);
        }
        PrecedesOrder(key, later, key);
      } else if j == k {
        assert after[i] == ids[i];
      } else {
        var i', j' := if i < k then i else i - 1, if j < k then j else j - 1;
        assert after[i] == ids[i'] && after[j] == ids[j'];
      }
    }
  }

  lemma InsertionIgnoresCard(ids: seq<Id>, cards: map<Id, Card>, id: Id, card: Card, key: Str)
    requires id !in ids
    ensures InsertionIndex(ids, cards[id := card], key) == InsertionIndex(ids, cards, key)
  {
    if ids != [] {
      InsertionIgnoresCard(ids[1..], cards, id, card, key);
    }
  }

  /** After a peer's move, the keyed cards of every list still stand in key order. */
  lemma MoveKeepsKeysOrdered(board: Board, f: Frame)
    requires CanMove(board, f) && DistinctLists(board.lists) && AllKeysOrdered(board)
    ensures AllKeysOrdered(Patched(board, Reconciled(board, f)))
  {
    var cardId, listId, key := f.cardId.value, f.listId.value, f.positionIdx.value;
    var without, after := Without(board.lists, cardId), MovedTo(board, cardId, listId, key);
    WithoutAt(board.lists, cardId);
    SameListIds(board.lists, cardId, listId);
    var t := FindList(without, listId);
    InsertIntoOne(without, listId, InsertionIndex(without[t].cardIds, board.cards, key), cardId);
    forall k | 0 <= k < |after.lists| ensures KeysOrdered(after.lists[k].cardIds, after.cards) {
      var card := after.cards[cardId];
      WithoutKeepsOrder(board.lists[k].cardIds, board.cards, cardId);
      WithoutIdFacts(board.lists[k].cardIds, cardId);
      AbsentCardIsIrrelevant(without[k].cardIds, board.cards, cardId, card);
      if k == t {
        InsertionIgnoresCard(without[t].cardIds, board.cards, cardId, card, key);
        InsertedIsOrdered(without[t].cardIds, after.cards, cardId, key);
      }
    }
  }

  /** The other cards keep their lists and their relative order. */
  lemma MoveKeepsOthers(board: Board, f: Frame)
    requires CanMove(board, f)
    ensures var after := Patched(board, Reconciled(board, f));
      && Without(after.lists, f.cardId.value) == Without(board.lists, f.cardId.value)
      && after.cards - {f.cardId.value} == board.cards - {f.cardId.value}
  {
    var cardId, listId, key := f.cardId.value, f.listId.value, f.positionIdx.value;
    var without := Without(board.lists, cardId);
    SameListIds(board.lists, cardId, listId);
    var index := InsertionIndex(without[FindList(without, listId)].cardIds, board.cards, key);
    InsertIntoWithout(without, listId, index, cardId);
    WithoutTwice(board.lists, cardId);
  }

  lemma {:induction false} InsertIntoWithout(lists: seq<List>, listId: Id, index: nat, id: Id)
    ensures Without(InsertInto(lists, listId, index, id), id) == Without(lists, id)
  {
    if lists != [] {
      InsertThenWithout(lists[0].cardIds, index, id);
      InsertIntoWithout(lists[1..], listId, index, id);
    }
  }

  lemma {:induction false} WithoutTwice(lists: seq<List>, id: Id)
    ensures Without(Without(lists, id), id) == Without(lists, id)
  {
    if lists != [] {
      WithoutIdFacts(lists[0].cardIds, id);
      WithoutTwice(lists[1..], id);
    }
  }

  /** And the moved card is in the list that the frame names, once, with the frame's key. */
  lemma MoveLandsOnce(board: Board, f: Frame)
    requires CanMove(board, f) && Placed(board)
    ensures var after := Patched(board, Reconciled(board, f));
      var t := FindList(board.lists, f.listId.value);
      && |after.lists| == |board.lists| && after.lists[t].id == f.listId.value
      && multiset(after.lists[t].cardIds)[f.cardId.value] == 1
      && Occurrences(after.lists, f.cardId.value) == 1
      && after.cards[f.cardId.value].positionIdx == f.positionIdx
  {
    var cardId, listId, key := f.cardId.value, f.listId.value, f.positionIdx.value;
    MovedCount(board, cardId, listId, key, cardId);
    var without := Without(board.lists, cardId);
    SameListIds(board.lists, cardId, listId);
    WithoutAt(board.lists, cardId);
    var t := FindList(without, listId);
    var index := InsertionIndex(without[t].cardIds, board.cards, key);
    InsertIntoAt(without, listId, index, cardId);
    InsertAtFacts(without[t].cardIds, index, cardId);
    WithoutIdFacts(board.lists[t].cardIds, cardId);
  }

  /** Precisely: directly before the first sibling whose key sorts after the frame's, or at the end. */
  lemma MoveLandsAt(board: Board, f: Frame) returns (k: nat)
    requires CanMove(board, f) && DistinctLists(board.lists)
    ensures var t := FindList(board.lists, f.listId.value);
      var rest := WithoutId(board.lists[t].cardIds, f.cardId.value);
      var after := Patched(board, Reconciled(board, f));
      && |after.lists| == |board.lists| && k <= |rest|
      && after.lists[t].cardIds == rest[..k] + [f.cardId.value] + rest[k..]
      && (forall i :: 0 <= i < k ==> !SortsBefore(board.cards, f.positionIdx.value, rest[i]))
      && (k < |rest| ==> SortsBefore(board.cards, f.positionIdx.value, rest[k]))
      && !Reconciled(board, f).needsResync
  {
    var cardId, listId, key := f.cardId.value, f.listId.value, f.positionIdx.value;
    var without := Without(board.lists, cardId);
    SameListIds(board.lists, cardId, listId);
    WithoutAt(board.lists, cardId);
    var t := FindList(without, listId);
    k := InsertionIndex(without[t].cardIds, board.cards, key);
    InsertionIndexIsFirst(without[t].cardIds, board.cards, key);
    InsertIntoOne(without, listId, k, cardId);
  }

  // --- deletions and resyncs --------------------------------------------------------------

  /** A deleted card is in no list and unknown; all other cards keep list, order and data. */
  lemma DeletedCardIsGone(board: Board, id: Id)
    requires id != [] && id in board.cards
    ensures var f := CardDeleted(Some(id));
      var after := Patched(board, Reconciled(board, f));
      && !Reconciled(board, f).needsResync
      && after.cards == board.cards - {id}
      && |after.lists| == |board.lists|
      && forall k :: 0 <= k < |board.lists| ==>
           && id !in after.lists[k].cardIds
           && after.lists[k] == board.lists[k].(cardIds := WithoutId(board.lists[k].cardIds, id))
  {
    WithoutAt(board.lists, id);
    forall k | 0 <= k < |board.lists| ensures id !in WithoutId(board.lists[k].cardIds, id) {
      WithoutIdFacts(board.lists[k].cardIds, id);
    }
  }

  /** A deleted list is gone with exactly its cards; the other lists and cards are as they were. */
  lemma DeletedListIsGone(board: Board, t: nat)
    requires DistinctLists(board.lists) && t < |board.lists| && board.lists[t].id != []
    ensures var f := ListDeleted(Some(board.lists[t].id));
      var after := Patched(board, Reconciled(board, f));
      && !Reconciled(board, f).needsResync
      && after.lists == board.lists[..t] + board.lists[t + 1..]
      && (forall id :: id in after.cards <==> id in board.cards && id !in board.lists[t].cardIds)
      && (forall id :: id in after.cards ==> after.cards[id] == board.cards[id])
  {
    var listId := board.lists[t].id;
    assert FindList(board.lists, listId) == t;
    RemoveListAt(board.lists, listId);
  }

  /** Frames that carry too little to be applied, or name a card or list that the board does not have. */
  ghost predicate Unplaceable(board: Board, f: Frame) {
    match f
    case CardMoved(cardId, listId, key) =>
      || !Given(cardId) || !Given(listId) || key.None?
      || cardId.value !in board.cards
      || forall k :: 0 <= k < |board.lists| ==> board.lists[k].id != listId.value
    case Content => true
    case _ => false
  }

  /** Deletions of what the board does not have. */
  ghost predicate NothingToDelete(board: Board, f: Frame) {
    match f
    case CardDeleted(cardId) => !Given(cardId) || cardId.value !in board.cards
    case ListDeleted(listId) =>
      !Given(listId) || forall k :: 0 <= k < |board.lists| ==> board.lists[k].id != listId.value
    case _ => false
  }

  /** A reload is asked for exactly by the unplaceable frames; they and idle deletions change nothing. */
  lemma ResyncIffUnplaceable(board: Board, f: Frame)
    ensures Reconciled(board, f).needsResync <==> Unplaceable(board, f)
    ensures Unplaceable(board, f) || NothingToDelete(board, f) ==> Patched(board, Reconciled(board, f)) == board
  {
    if f.CardMoved? && Given(f.listId) {
      var k := FindList(board.lists, f.listId.value);
      assert k < |board.lists| ==> board.lists[k].id == f.listId.value;
    }
    if f.ListDeleted? && Given(f.listId) {
      var k := FindList(board.lists, f.listId.value);
      assert k < |board.lists| ==> board.lists[k].id == f.listId.value;
    }
  }

  /** No frame makes a card known that was not. */
  lemma FramesAddNoCards(board: Board, f: Frame)
    ensures Patched(board, Reconciled(board, f)).cards.Keys <= board.cards.Keys
  {
  }
}
