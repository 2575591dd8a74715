/** When confirming or rolling back a move leaves the keyed cards of every list in key order. */
module BoardKeys {
  import opened Wrappers
  import opened Text
  import opened RemoteMutations
  import opened BoardStore

  /** A card with this key could stand at `index`: smaller keys before it, greater ones after. */
  ghost predicate FitsAt(ids: seq<Id>, index: nat, cards: map<Id, Card>, key: Str) {
    && index <= |ids|
    && (forall i :: 0 <= i < index ==> !SortsBefore(cards, key, ids[i]))
    && (forall i :: index <= i < |ids| && ids[i] in cards && cards[ids[i]].positionIdx.Some? ==>
          !Precedes(cards[ids[i]].positionIdx.value, key))
  }

  lemma InsertedIsOrderedIff(ids: seq<Id>, cards: map<Id, Card>, index: nat, id: Id)
    requires KeysOrdered(ids, cards) && id !in ids && index <= |ids|
    requires id in cards && cards[id].positionIdx.Some?
    ensures KeysOrdered(InsertAt(ids, index, id), cards) <==> FitsAt(ids, index, cards, cards[id].positionIdx.value)
  {
    if KeysOrdered(InsertAt(ids, index, id), cards) {
      OrderedFits(ids, cards, index, id);
    }
    if FitsAt(ids, index, cards, cards[id].positionIdx.value) {
      FittingIsOrdered(ids, cards, index, id);
    }
  }

  lemma OrderedFits(ids: seq<Id>, cards: map<Id, Card>, index: nat, id: Id)
    requires index <= |ids| && id in cards && cards[id].positionIdx.Some?
    requires KeysOrdered(InsertAt(ids, index, id), cards)
    ensures FitsAt(ids, index, cards, cards[id].positionIdx.value)
  {
    var after := InsertAt(ids, index, id);
    assert after[index] == id;
    forall i | 0 <= i < index ensures !SortsBefore(cards, cards[id].positionIdx.value, ids[i]) {
      assert after[i] == ids[i];
    }
    forall i | index <= i < |ids| && ids[i] in cards && cards[ids[i]].positionIdx.Some?
      ensures !Precedes(cards[ids[i]].positionIdx.value, cards[id].positionIdx.value)
    {
      assert after[i + 1] == ids[i];
      assert !SortsBefore(cards, cards[after[i + 1]].positionIdx.value, after[index]);
    }
  }

  lemma FittingIsOrdered(ids: seq<Id>, cards: map<Id, Card>, index: nat, id: Id)
    requires KeysOrdered(ids, cards) && index <= |ids| && id in cards && cards[id].positionIdx.Some?
    requires FitsAt(ids, index, cards, cards[id].positionIdx.value)
    ensures KeysOrdered(InsertAt(ids, index, id), cards)
  {
    var after := InsertAt(ids, index, id);
    forall i, j | 0 <= i < j < |after| && after[j] in cards && cards[after[j]].positionIdx.Some?
      ensures !SortsBefore(cards, cards[after[j]].positionIdx.value, after[i])
    {
      if j == index {
        assert after[i] == ids[i];
      } else if i == index {
        assert after[j] == ids[j - 1];
      } else {
        var i', j' := if i < index then i else i - 1, if j < index then j else j - 1;
        assert after[i] == ids[i'] && after[j] == ids[j'];
      }
    }
  }

  /** The board as if the card had no key. */
  function Unkeyed(board: Board, id: Id): Board {
    board.(cards := WithKey(board.cards, id, None))
  }

  /** The card's key, if it has one, fits where the card stands. */
  ghost predicate StandsWell(board: Board, id: Id) {
    id in board.cards && board.cards[id].positionIdx.Some? ==>
    forall k, i :: 0 <= k < |board.lists| && 0 <= i < |board.lists[k].cardIds| && board.lists[k].cardIds[i] == id ==>
      FitsAt(RemoveAt(board.lists[k].cardIds, i), i, board.cards, board.cards[id].positionIdx.value)
  }

  lemma TakenIsAbsent(ids: seq<Id>, i: nat)
    requires i < |ids| && multiset(ids)[ids[i]] <= 1
    ensures ids[i] !in RemoveAt(ids, i)
  {
    RemoveAtCount(ids, i);
    assert ids[i] !in multiset(RemoveAt(ids, i));
  }

  lemma PutBack(ids: seq<Id>, i: nat)
    requires i < |ids|
    ensures InsertAt(RemoveAt(ids, i), i, ids[i]) == ids
  {
    InsertBack(ids, i);
  }

  lemma OnceInList(lists: seq<List>, k: nat, i: nat, id: Id)
    requires k < |lists| && i < |lists[k].cardIds| && lists[k].cardIds[i] == id && Occurrences(lists, id) == 1
    ensures id !in RemoveAt(lists[k].cardIds, i)
    ensures InsertAt(RemoveAt(lists[k].cardIds, i), i, id) == lists[k].cardIds
    ensures WithoutId(lists[k].cardIds, id) == RemoveAt(lists[k].cardIds, i)
  {
    var ids := lists[k].cardIds;
    OccursAtLeast(lists, k, id);
    TakenIsAbsent(ids, i);
    PutBack(ids, i);
    RemoveAtWithout(ids, i);
    WithoutAbsent(RemoveAt(ids, i), id);
  }

  lemma WithoutAbsent(ids: seq<Id>, id: Id)
    requires id !in ids
    ensures WithoutId(ids, id) == ids
  {
    WithoutIdFacts(ids, id);
  }

  /** Keys matter only through the keyed cards of a list. */
  lemma OrderIgnoresAbsent(ids: seq<Id>, cards: map<Id, Card>, id: Id, key: Option<Str>)
    requires id !in ids
    ensures KeysOrdered(ids, WithKey(cards, id, key)) <==> KeysOrdered(ids, cards)
  {
    if id in cards {
      var card := cards[id];
      if KeysOrdered(ids, cards) {
        AbsentCardIsIrrelevant(ids, cards, id, card.(positionIdx := key));
      }
      if KeysOrdered(ids, WithKey(cards, id, key)) {
        AbsentCardIsIrrelevant(ids, WithKey(cards, id, key), id, card);
        assert WithKey(cards, id, key)[id := card] == cards;
      }
    }
  }

  lemma ListOrderedIff(board: Board, id: Id, k: nat, i: nat)
    requires Placed(board) && id in board.cards && board.cards[id].positionIdx.Some?
    requires AllKeysOrdered(Unkeyed(board, id))
    requires k < |board.lists| && i < |board.lists[k].cardIds| && board.lists[k].cardIds[i] == id
    ensures KeysOrdered(board.lists[k].cardIds, board.cards) <==>
      FitsAt(RemoveAt(board.lists[k].cardIds, i), i, board.cards, board.cards[id].positionIdx.value)
  {
    var ids := board.lists[k].cardIds;
    OnceInList(board.lists, k, i, id);
    WithoutKeepsOrder(ids, Unkeyed(board, id).cards, id);
    OrderIgnoresAbsent(RemoveAt(ids, i), board.cards, id, None);
    InsertedIsOrderedIff(RemoveAt(ids, i), board.cards, i, id);
  }

  /** A board whose other cards are in order is in order exactly if the one card stands well. */
  lemma OrderedIffStandsWell(board: Board, id: Id)
    requires Placed(board) && id in board.cards && AllKeysOrdered(Unkeyed(board, id))
    ensures AllKeysOrdered(board) <==> StandsWell(board, id)
  {
    var keyed := board.cards[id].positionIdx.Some?;
    if !keyed {
      assert Unkeyed(board, id).cards == board.cards;
    }
    forall k | 0 <= k < |board.lists| && id !in board.lists[k].cardIds
      ensures KeysOrdered(board.lists[k].cardIds, board.cards)
    {
      assert KeysOrdered(board.lists[k].cardIds, Unkeyed(board, id).cards);
      OrderIgnoresAbsent(board.lists[k].cardIds, board.cards, id, None);
    }
    forall k, i |
      keyed && 0 <= k < |board.lists| && 0 <= i < |board.lists[k].cardIds| && board.lists[k].cardIds[i] == id
      ensures KeysOrdered(board.lists[k].cardIds, board.cards) <==>
        FitsAt(RemoveAt(board.lists[k].cardIds, i), i, board.cards, board.cards[id].positionIdx.value)
    {
      ListOrderedIff(board, id, k, i);
    }
    if keyed && StandsWell(board, id) {
      forall k | 0 <= k < |board.lists| ensures KeysOrdered(board.lists[k].cardIds, board.cards) {
        if id in board.lists[k].cardIds {
          var i :| 0 <= i < |board.lists[k].cardIds| && board.lists[k].cardIds[i] == id;
        }
      }
    }
  }

  /** Moving or re-keying one card leaves the others as ordered as they were. */
  lemma OthersStayOrdered(before: Board, after: Board, id: Id)
    requires AllKeysOrdered(before) && OthersUntouched(before, after, id)
    ensures AllKeysOrdered(Unkeyed(after, id))
  {
    WithoutAt(before.lists, id);
    WithoutAt(after.lists, id);
    forall k | 0 <= k < |after.lists| ensures KeysOrdered(after.lists[k].cardIds, Unkeyed(after, id).cards) {
      var ids := before.lists[k].cardIds;
      WithoutKeepsOrder(ids, before.cards, id);
      assert WithoutId(after.lists[k].cardIds, id) == WithoutId(ids, id);
      WithoutIdFacts(ids, id);
      SameOthersSameOrder(WithoutId(ids, id), before.cards, after.cards, id);
      UnkeyedIsIrrelevant(after.lists[k].cardIds, after.cards, id);
    }
  }

  lemma SameOthersSameOrder(ids: seq<Id>, before: map<Id, Card>, after: map<Id, Card>, id: Id)
    requires KeysOrdered(ids, before) && id !in ids
    requires after.Keys == before.Keys && after - {id} == before - {id}
    ensures KeysOrdered(ids, after)
  {
    forall x | x in ids ensures x in after <==> x in before
                        ensures x in after ==> after[x] == before[x] {
      assert x in after - {id} <==> x in after;
      assert x in before - {id} <==> x in before;
      if x in after {
        assert (after - {id})[x] == (before - {id})[x];
      }
    }
  }

  /** Exactly when a confirmed key keeps the board in order: it fits where the card stands by then. */
  lemma ConfirmKeepsKeysOrderedIff(s: Store, m: Move, key: Str)
    requires Placed(s.board) && AllKeysOrdered(s.board) && IsLatest(s, m)
    ensures AllKeysOrdered(Confirmed(s, m, Some(key)).board) <==>
      StandsWell(s.board.(cards := WithKey(s.board.cards, m.cardId, Some(key))), m.cardId)
  {
    ConfirmKeepsPlaced(s, m, Some(key));
    var after := Confirmed(s, m, Some(key)).board;
    OthersStayOrdered(s.board, after, m.cardId);
    OrderedIffStandsWell(after, m.cardId);
  }

  /** The key that a rollback leaves on the card. */
  function KeyAfterRollback(board: Board, m: Move): Option<Str>
    requires m.cardId in board.cards
  {
    if m.originalKey.Some? then m.originalKey else board.cards[m.cardId].positionIdx
  }

  /** The restored key fits at the original index of the original list, as it now is. */
  ghost predicate RollbackFits(board: Board, m: Move)
    requires m.cardId in board.cards
  {
    var f, t := FindList(board.lists, m.fromListId), FindList(board.lists, m.toListId);
    var key := KeyAfterRollback(board, m);
    if f == |board.lists| || t == |board.lists| || key.None? then true
    else if m.cardId in board.lists[t].cardIds then
      var rest := WithoutId(board.lists[f].cardIds, m.cardId);
      FitsAt(rest, SpliceStart(m.originalIndex, |rest|), board.cards, key.value)
    else StandsWell(board.(cards := WithKey(board.cards, m.cardId, key)), m.cardId)
  }

  /** Exactly when a rollback keeps the board in order. */
  lemma RollbackKeepsKeysOrderedIff(board: Board, m: Move)
    requires Placed(board) && AllKeysOrdered(board) && m.cardId in board.cards
    ensures AllKeysOrdered(RolledBack(board, m)) <==> RollbackFits(board, m)
  {
    var after, id := RolledBack(board, m), m.cardId;
    var f, t := FindList(board.lists, m.fromListId), FindList(board.lists, m.toListId);
    RollbackKeepsPlaced(board, m);
    OthersStayOrdered(board, after, id);
    OrderedIffStandsWell(after, id);
    if f < |board.lists| && t < |board.lists| {
      if id in board.lists[t].cardIds {
        RolledBackStandsIff(board, m);
      } else {
        assert after == board.(cards := WithKey(board.cards, id, KeyAfterRollback(board, m)));
      }
    }
  }

  /** For a card that stands once, standing well is fitting there. */
  lemma StandsAt(board: Board, id: Id, k: nat, i: nat)
    requires Occurrences(board.lists, id) == 1 && id in board.cards && board.cards[id].positionIdx.Some?
    requires k < |board.lists| && i < |board.lists[k].cardIds| && board.lists[k].cardIds[i] == id
    ensures StandsWell(board, id) <==>
      FitsAt(RemoveAt(board.lists[k].cardIds, i), i, board.cards, board.cards[id].positionIdx.value)
  {
    forall l, j | 0 <= l < |board.lists| && 0 <= j < |board.lists[l].cardIds| && board.lists[l].cardIds[j] == id
      ensures l == k && j == i
    {
      OnlyPlace(board.lists, l, j, k, i, id);
    }
  }

  lemma RolledBackStandsIff(board: Board, m: Move)
    requires Placed(board) && m.cardId in board.cards
    requires FindList(board.lists, m.fromListId) < |board.lists| && FindList(board.lists, m.toListId) < |board.lists|
    requires m.cardId in board.lists[FindList(board.lists, m.toListId)].cardIds
    ensures StandsWell(RolledBack(board, m), m.cardId) <==> RollbackFits(board, m)
  {
    var after, id := RolledBack(board, m), m.cardId;
    var f := FindList(board.lists, m.fromListId);
    var rest := WithoutId(board.lists[f].cardIds, id);
    var p := SpliceStart(m.originalIndex, |rest|);
    RolledBackLands(board, m);
    RollbackKeepsPlaced(board, m);
    WithoutIdFacts(board.lists[f].cardIds, id);
    if after.cards[id].positionIdx.Some? {
      StandsAt(after, id, f, p);
      SameOthersSameFit(rest, p, board.cards, after.cards, id, after.cards[id].positionIdx.value);
    }
  }

  lemma RolledBackLands(board: Board, m: Move)
    requires Placed(board) && m.cardId in board.cards
    requires FindList(board.lists, m.fromListId) < |board.lists| && FindList(board.lists, m.toListId) < |board.lists|
    requires m.cardId in board.lists[FindList(board.lists, m.toListId)].cardIds
    ensures var f, after := FindList(board.lists, m.fromListId), RolledBack(board, m);
      var rest := WithoutId(board.lists[f].cardIds, m.cardId);
      var p := SpliceStart(m.originalIndex, |rest|);
      && f < |after.lists| && p < |after.lists[f].cardIds| && after.lists[f].cardIds[p] == m.cardId
      && RemoveAt(after.lists[f].cardIds, p) == rest
      && m.cardId in after.cards && after.cards[m.cardId].positionIdx == KeyAfterRollback(board, m)
  {
    var t := FindList(board.lists, m.toListId);
    ListedIsKnown(board, t, m.cardId);
    var i := IndexOf(board.lists[t].cardIds, m.cardId);
    ListAfterLanding(board.lists, t, i, FindList(board.lists, m.fromListId), m.originalIndex, m.cardId);
  }

  lemma ListAfterLanding(lists: seq<List>, t: nat, i: nat, f: nat, index: nat, id: Id)
    requires t < |lists| && f < |lists| && i < |lists[t].cardIds| && lists[t].cardIds[i] == id
    requires Occurrences(lists, id) == 1
    ensures var after := Relocated(lists, t, i, f, index);
      var rest := WithoutId(lists[f].cardIds, id);
      var p := SpliceStart(index, |rest|);
      && |after| == |lists| && p < |after[f].cardIds| && after[f].cardIds[p] == id
      && RemoveAt(after[f].cardIds, p) == rest
  {
    var rest := WithoutId(lists[f].cardIds, id);
    LandsAt(lists, t, i, f, index, id);
    GoneFromWithout(lists[f].cardIds, id);
    InsertedIndex(rest, SpliceStart(index, |rest|), id);
  }

  lemma GoneFromWithout(ids: seq<Id>, id: Id)
    ensures id !in WithoutId(ids, id)
  {
    WithoutIdFacts(ids, id);
  }

  lemma SameOthersSameFit(ids: seq<Id>, p: nat, before: map<Id, Card>, after: map<Id, Card>, id: Id, key: Str)
    requires id !in ids && after.Keys == before.Keys && after - {id} == before - {id}
    ensures FitsAt(ids, p, after, key) <==> FitsAt(ids, p, before, key)
  {
    forall x | x in ids ensures x in after <==> x in before
                        ensures x in after ==> after[x] == before[x] {
      assert x in after - {id} <==> x in after;
      assert x in before - {id} <==> x in before;
      if x in after {
        assert (after - {id})[x] == (before - {id})[x];
      }
    }
  }

  /** After relocating a card that stands once, the target list is its other cards with the card in. */
  lemma LandsAt(lists: seq<List>, t: nat, i: nat, f: nat, index: int, id: Id)
    requires t < |lists| && f < |lists| && i < |lists[t].cardIds| && lists[t].cardIds[i] == id
    requires Occurrences(lists, id) == 1
    ensures var rest := WithoutId(lists[f].cardIds, id);
      Relocated(lists, t, i, f, index)[f].cardIds == InsertAt(rest, SpliceStart(index, |rest|), id)
  {
    OnceInList(lists, t, i, id);
    if f != t {
      TakenIsGone(lists, t, i, f, id);
      WithoutIdFacts(lists[f].cardIds, id);
    }
  }

  lemma TwoIndices(ids: seq<Id>, j: nat, p: nat, id: Id)
    requires j < p < |ids| && ids[j] == id && ids[p] == id
    ensures multiset(ids)[id] >= 2
  {
    RemoveAtCount(ids, j);
    assert RemoveAt(ids, j)[p - 1] == id;
    assert id in multiset(RemoveAt(ids, j));
  }

  lemma InTwoLists(lists: seq<List>, k: nat, f: nat, id: Id)
    requires k < |lists| && f < |lists| && k != f
    ensures Occurrences(lists, id) >= multiset(lists[k].cardIds)[id] + multiset(lists[f].cardIds)[id]
  {
    var emptied := lists[k].(cardIds := []);
    OccurrencesReplaced(lists, k, emptied, id);
    OccursAtLeast(lists[k := emptied], f, id);
  }

  lemma OnlyPlace(lists: seq<List>, k: nat, j: nat, f: nat, p: nat, id: Id)
    requires k < |lists| && j < |lists[k].cardIds| && lists[k].cardIds[j] == id
    requires f < |lists| && p < |lists[f].cardIds| && lists[f].cardIds[p] == id
    requires Occurrences(lists, id) == 1
    ensures k == f && j == p
  {
    assert id in multiset(lists[k].cardIds) && id in multiset(lists[f].cardIds);
    OccursAtLeast(lists, f, id);
    if k != f {
      InTwoLists(lists, k, f, id);
    } else if j < p {
      TwoIndices(lists[f].cardIds, j, p, id);
    } else if p < j {
      TwoIndices(lists[f].cardIds, p, j, id);
    }
  }

  // --- runs that break the order ------------------------------------------------------------

  const CARD_A: Id := [65]
  const CARD_B: Id := [66]
  const CARD_C: Id := [67]
  const LIST_1: Id := [76, 49]
  const LIST_2: Id := [76, 50]

  /** Card A with key "1" alone in the first list, card C with key "5" in the second. */
  function TwoLists(): Board {
    Board([List(LIST_1, [], [CARD_A]), List(LIST_2, [], [CARD_C])],
          map[CARD_A := Card(Some([49]), []), CARD_C := Card(Some([53]), [])])
  }

  /** A is moved away, a peer moves C before A's old place with key "0", and A's move fails. */
  lemma RollbackCanBreakOrder(message: Str)
    ensures var m := Move(CARD_A, LIST_1, LIST_2, 0, Some([49]), 1);
      var begun := Begun(Store(TwoLists(), map[], false, None), CARD_A, LIST_1, LIST_2, 0);
      var later := Applied(begun, CardMoved(Some(CARD_C), Some(LIST_1), Some([48])));
      && AllKeysOrdered(TwoLists()) && AllKeysOrdered(later.board)
      && later.board.lists[0].cardIds == [CARD_C]
      && FailedWith(later, m, message).board.lists[0].cardIds == [CARD_A, CARD_C]
      && !AllKeysOrdered(FailedWith(later, m, message).board)
  {
    var s := Store(TwoLists(), map[], false, None);
    var begun := Begun(s, CARD_A, LIST_1, LIST_2, 0);
    assert IndexOf([CARD_A], CARD_A) == 0;
    assert RemoveAt([CARD_A], 0) == [];
    assert InsertAt([CARD_C], 0, CARD_A) == [CARD_A, CARD_C];
    assert FindList(s.board.lists, LIST_1) == 0 && FindList(s.board.lists, LIST_2) == 1;
    assert begun.board.lists == [List(LIST_1, [], []), List(LIST_2, [], [CARD_A, CARD_C])];
    var later := Applied(begun, CardMoved(Some(CARD_C), Some(LIST_1), Some([48])));
    PeerStep(begun.board);
    var m := Move(CARD_A, LIST_1, LIST_2, 0, Some([49]), 1);
    assert FindList(later.board.lists, LIST_1) == 0 && FindList(later.board.lists, LIST_2) == 1;
    assert InsertAt([CARD_C], 0, CARD_A) == [CARD_A, CARD_C];
    var failed := FailedWith(later, m, message).board;
    assert failed.lists[0].cardIds == [CARD_A, CARD_C];
    assert SplitsAt([48], [49], 0);
    assert failed.cards[CARD_C].positionIdx == Some([48]) && failed.cards[CARD_A].positionIdx == Some([49]);
    assert SortsBefore(failed.cards, failed.cards[[CARD_A, CARD_C][1]].positionIdx.value, [CARD_A, CARD_C][0]);
    assert !KeysOrdered(failed.lists[0].cardIds, failed.cards);
  }

  lemma PeerStep(board: Board)
    requires board.lists == [List(LIST_1, [], []), List(LIST_2, [], [CARD_A, CARD_C])]
    requires CARD_C in board.cards
    ensures CanMove(board, CardMoved(Some(CARD_C), Some(LIST_1), Some([48])))
    ensures MovedTo(board, CARD_C, LIST_1, [48]) ==
      Board([List(LIST_1, [], [CARD_C]), List(LIST_2, [], [CARD_A])],
            board.cards[CARD_C := board.cards[CARD_C].(positionIdx := Some([48]))])
  {
    assert FindList(board.lists, LIST_1) == 0;
    assert WithoutId([CARD_C], CARD_C) == [];
    assert WithoutId([CARD_A, CARD_C], CARD_C) == [CARD_A] by {
      assert [CARD_A, CARD_C][1..] == [CARD_C];
    }
    var without := Without(board.lists, CARD_C);
    assert board.lists[1..] == [List(LIST_2, [], [CARD_A, CARD_C])];
    assert board.lists[1..][1..] == [];
    assert Without(board.lists[1..], CARD_C) == [List(LIST_2, [], [CARD_A])];
    assert without == [List(LIST_1, [], []), List(LIST_2, [], [CARD_A])];
    assert without[1..] == [List(LIST_2, [], [CARD_A])];
    assert InsertAt([], 0, CARD_C) == [CARD_C];
    assert InsertInto(without[1..], LIST_1, 0, CARD_C) == without[1..];
  }

  /** Cards B with key "5" and A with key "7" in the first list, card C with key "9" in the second. */
  function ThreeCards(): Board {
    Board([List(LIST_1, [], [CARD_B, CARD_A]), List(LIST_2, [], [CARD_C])],
          map[CARD_A := Card(Some([55]), []), CARD_B := Card(Some([53]), []), CARD_C := Card(Some([57]), [])])
  }

  /**
   * A is moved to the front, losing its key. A peer moves C into the list with key "1"; it lands
   * before B, so behind A. Then the server confirms A with "3".
   */
  lemma ConfirmCanBreakOrder()
    ensures var m := Move(CARD_A, LIST_1, LIST_1, 1, Some([55]), 1);
      var begun := Begun(Store(ThreeCards(), map[], false, None), CARD_A, LIST_1, LIST_1, 0);
      var later := Applied(begun, CardMoved(Some(CARD_C), Some(LIST_1), Some([49])));
      && AllKeysOrdered(ThreeCards()) && AllKeysOrdered(later.board)
      && later.board.lists[0].cardIds == [CARD_A, CARD_C, CARD_B] && IsLatest(later, m)
      && !AllKeysOrdered(Confirmed(later, m, Some([51])).board)
  {
    var begun := Begun(Store(ThreeCards(), map[], false, None), CARD_A, LIST_1, LIST_1, 0);
    MoveToFront();
    PeerLandsBehind(begun.board);
    ThreeCardsAreOrdered();
    var later := Applied(begun, CardMoved(Some(CARD_C), Some(LIST_1), Some([49])));
    ConfirmedBehind(later.board);
  }

  lemma ThreeCardsAreOrdered()
    ensures AllKeysOrdered(ThreeCards())
  {
    assert SplitsAt([53], [55], 0);
    PrecedesOrder([53], [55], []);
  }

  lemma ConfirmedBehind(board: Board)
    requires board.lists == [List(LIST_1, [], [CARD_A, CARD_C, CARD_B]), List(LIST_2, [], [])]
    requires board.cards ==
      map[CARD_A := Card(None, []), CARD_B := Card(Some([53]), []), CARD_C := Card(Some([49]), [])]
    ensures AllKeysOrdered(board) && !AllKeysOrdered(board.(cards := WithKey(board.cards, CARD_A, Some([51]))))
  {
    assert SplitsAt([49], [53], 0) && SplitsAt([49], [51], 0);
    PrecedesOrder([49], [53], []);
    var confirmed := board.(cards := WithKey(board.cards, CARD_A, Some([51])));
    assert confirmed.lists[0].cardIds[0] == CARD_A && confirmed.lists[0].cardIds[1] == CARD_C;
    assert SortsBefore(confirmed.cards, [49], CARD_A);
    assert !KeysOrdered(confirmed.lists[0].cardIds, confirmed.cards);
  }

  lemma MoveToFront()
    ensures Begun(Store(ThreeCards(), map[], false, None), CARD_A, LIST_1, LIST_1, 0) ==
      Store(Board([List(LIST_1, [], [CARD_A, CARD_B]), List(LIST_2, [], [CARD_C])],
                  ThreeCards().cards[CARD_A := Card(None, [])]),
            map[CARD_A := 1], false, None)
  {
    var lists := ThreeCards().lists;
    assert IndexOf([CARD_B, CARD_A], CARD_A) == 1 by {
      assert [CARD_B, CARD_A][1..] == [CARD_A];
    }
    assert FindList(lists, LIST_1) == 0;
    assert RemoveAt([CARD_B, CARD_A], 1) == [CARD_B];
    assert InsertAt([CARD_B], 0, CARD_A) == [CARD_A, CARD_B];
  }

  lemma PeerLandsBehind(board: Board)
    requires board.lists == [List(LIST_1, [], [CARD_A, CARD_B]), List(LIST_2, [], [CARD_C])]
    requires board.cards == ThreeCards().cards[CARD_A := Card(None, [])]
    ensures CanMove(board, CardMoved(Some(CARD_C), Some(LIST_1), Some([49])))
    ensures MovedTo(board, CARD_C, LIST_1, [49]) ==
      Board([List(LIST_1, [], [CARD_A, CARD_C, CARD_B]), List(LIST_2, [], [])],
            board.cards[CARD_C := board.cards[CARD_C].(positionIdx := Some([49]))])
  {
    assert FindList(board.lists, LIST_1) == 0;
    assert [CARD_A, CARD_B][1..] == [CARD_B] && [CARD_C][1..] == [];
    assert WithoutId([CARD_B], CARD_C) == [CARD_B] by {
      assert [CARD_B][1..] == [];
    }
    assert WithoutId([CARD_A, CARD_B], CARD_C) == [CARD_A, CARD_B];
    assert WithoutId([CARD_C], CARD_C) == [];
    var without := Without(board.lists, CARD_C);
    assert board.lists[1..] == [List(LIST_2, [], [CARD_C])];
    assert board.lists[1..][1..] == [];
    assert Without(board.lists[1..], CARD_C) == [List(LIST_2, [], [])];
    assert without == [List(LIST_1, [], [CARD_A, CARD_B]), List(LIST_2, [], [])];
    assert SplitsAt([49], [53], 0);
    assert InsertionIndex([CARD_A, CARD_B], board.cards, [49]) == 1;
    assert without[1..] == [List(LIST_2, [], [])];
    assert InsertAt([CARD_A, CARD_B], 1, CARD_C) == [CARD_A, CARD_C, CARD_B];
    assert InsertInto(without[1..], LIST_1, 1, CARD_C) == without[1..];
  }
}
