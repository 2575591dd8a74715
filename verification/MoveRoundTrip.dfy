/**
 * A drag from the board to the server and back: the place the card takes, the neighbours the
 * persist call names, the key the server mints for them, and the board that the key confirms.
 */
module MoveRoundTrip {
  import opened Wrappers
  import opened Text
  import opened FractionalIndexing
  import opened RemoteMutations
  import opened BoardStore
  import opened BoardKeys
  import Server = CardPlacement
  import Rows = RebalanceJob
  import Keys = KeyRebalancing

  // --- the place ------------------------------------------------------------------------

  /** Where `splice(index, 0, …)` inserts: from the end for a negative index, clamped at both ends. */
  predicate IsSplicePoint(p: int, index: int, length: nat) {
    && 0 <= p <= length
    && (0 <= index <= length ==> p == index)
    && (index > length ==> p == length)
    && (index < 0 ==> p == if length + index > 0 then length + index else 0)
  }

  /** The card at place `p` among the other cards of its list, and the cards directly around it. */
  ghost predicate StandsBetween(lists: seq<List>, listId: Id, cardId: Id, rest: seq<Id>, p: nat) {
    && p <= |rest| && cardId !in rest
    && var t := FindList(lists, listId);
    && t < |lists| && lists[t].cardIds == rest[..p] + [cardId] + rest[p..]
    && CardBefore(lists, listId, cardId) == (if p > 0 then Some(rest[p - 1]) else None)
    && CardAfter(lists, listId, cardId) == (if p < |rest| then Some(rest[p]) else None)
  }

  lemma NeighboursAt(lists: seq<List>, listId: Id, cardId: Id, rest: seq<Id>, p: nat)
    requires p <= |rest| && cardId !in rest && FindList(lists, listId) < |lists|
    requires lists[FindList(lists, listId)].cardIds == InsertAt(rest, p, cardId)
    ensures StandsBetween(lists, listId, cardId, rest, p)
  {
    InsertedIndex(rest, p, cardId);
  }

  /**
   * The optimistic move puts the card where the drop named, among the other cards of the target
   * list, and the neighbours sent along are the cards directly around that place.
   */
  lemma BegunCardStands(s: Store, cardId: Id, fromListId: Id, toListId: Id, toIndex: int) returns (p: nat)
    requires Placed(s.board) && CanBegin(s, cardId, fromListId) && FindList(s.board.lists, toListId) < |s.board.lists|
    ensures var rest := WithoutId(s.board.lists[FindList(s.board.lists, toListId)].cardIds, cardId);
      && IsSplicePoint(p, toIndex, |rest|)
      && StandsBetween(Begun(s, cardId, fromListId, toListId, toIndex).board.lists, toListId, cardId, rest, p)
  {
    var lists := s.board.lists;
    var f, t := FindList(lists, fromListId), FindList(lists, toListId);
    var i := IndexOf(lists[f].cardIds, cardId);
    var rest := WithoutId(lists[t].cardIds, cardId);
    ListedIsKnown(s.board, f, cardId);
    LandsAt(lists, f, i, t, toIndex, cardId);
    SameIdsRelocated(lists, f, i, t, toIndex, toListId);
    GoneFromWithout(lists[t].cardIds, cardId);
    p := SpliceStart(toIndex, |rest|);
    NeighboursAt(Relocated(lists, f, i, t, toIndex), toListId, cardId, rest, p);
  }

  /**
   * A failure that no later change of the card has overtaken puts it back: at its old index, clamped
   * to the cards that its old list has by then, and with its old key.
   */
  lemma FailedCardReturns(s: Store, m: Move, message: Str) returns (p: nat)
    requires Placed(s.board) && m.cardId in s.board.cards && VersionOf(s.versions, m.cardId) == m.version
    requires FindList(s.board.lists, m.fromListId) < |s.board.lists|
    requires var t := FindList(s.board.lists, m.toListId);
      t < |s.board.lists| && m.cardId in s.board.lists[t].cardIds
    ensures var f, after := FindList(s.board.lists, m.fromListId), FailedWith(s, m, message);
      var rest := WithoutId(s.board.lists[f].cardIds, m.cardId);
      && IsSplicePoint(p, m.originalIndex, |rest|) && |after.board.lists| == |s.board.lists|
      && after.board.lists[f].cardIds == rest[..p] + [m.cardId] + rest[p..]
      && m.cardId in after.board.cards && after.moveError == Some(message)
      && (m.originalKey.Some? ==> after.board.cards[m.cardId].positionIdx == m.originalKey)
      && (m.originalKey.None? ==> after.board.cards == s.board.cards)
  {
    var lists := s.board.lists;
    var f, t := FindList(lists, m.fromListId), FindList(lists, m.toListId);
    ListedIsKnown(s.board, t, m.cardId);
    LandsAt(lists, t, IndexOf(lists[t].cardIds, m.cardId), f, m.originalIndex, m.cardId);
    p := SpliceStart(m.originalIndex, |WithoutId(lists[f].cardIds, m.cardId)|);
  }

  // --- the key --------------------------------------------------------------------------

  /** The server's rows of the list, the moved card aside: these cards in this order. */
  ghost predicate ServerHas(ix: Indexer, rows: Rows.Table, org: Id, listId: Id, cardId: Id, rest: seq<Id>) {
    Server.ColumnInOrder(ix, rows - {cardId}, org, listId, rest)
  }

  /** The board holds the same keys for them. */
  ghost predicate SameKeys(board: Board, rows: Rows.Table, rest: seq<Id>) {
    forall id :: id in rest ==>
      id in rows && id in board.cards && board.cards[id].positionIdx == Some(rows[id].positionIdx)
  }

  /** A key strictly between the neighbours' keys fits the slot of a column in order. */
  lemma KeyFitsSlot(ix: Indexer, board: Board, rows: Rows.Table, rest: seq<Id>, p: nat, key: Str)
    requires p <= |rest| && SameKeys(board, rows, rest)
    requires Keys.StrictlySorted(Server.InsertAt(Server.KeysOf(rows, rest), p, key))
    ensures FitsAt(rest, p, board.cards, key)
  {
    var keys := Server.InsertAt(Server.KeysOf(rows, rest), p, key);
    forall i | 0 <= i < p ensures !SortsBefore(board.cards, key, rest[i]) {
      assert rest[i] in rest && Less(keys[i], keys[p]);
      NotPrecedes(keys[i], key);
    }
    forall i | p <= i < |rest| && rest[i] in board.cards && board.cards[rest[i]].positionIdx.Some?
      ensures !Precedes(board.cards[rest[i]].positionIdx.value, key)
    {
      assert rest[i] in rest && Less(keys[p], keys[i + 1]);
      NotPrecedes(key, keys[i + 1]);
    }
  }

  lemma NotPrecedes(a: Str, b: Str)
    requires Less(a, b)
    ensures !Precedes(b, a)
  {
    PrecedesIsLess(b, a);
    LessAsymmetric(a, b);
  }

  lemma {:induction false} LongestKey(keys: seq<Str>) returns (bound: nat)
    ensures Server.Within(keys, bound)
  {
    bound := 0;
    if keys != [] {
      bound := LongestKey(keys[1..]);
      bound := if |keys[0]| > bound then |keys[0]| else bound;
      assert forall key :: key in keys ==> key == keys[0] || key in keys[1..];
    }
  }

  /** Naming the neighbours of the place mints a key for it, and the row lands there. */
  lemma ServerPlaces(ix: Indexer, rows: Rows.Table, org: Id, listId: Id, cardId: Id, rest: seq<Id>, p: nat,
                     createdAt: int)
    returns (key: Str)
    requires ix.Valid() && ix.PairFree() && p <= |rest| && cardId !in rest
    requires ServerHas(ix, rows, org, listId, cardId, rest)
    ensures Server.KeyFromNeighbors(ix, rows, org, cardId, listId, Server.IdBefore(rest, p), Server.IdAfter(rest, p))
      == Success(key)
    ensures Server.ColumnInOrder(ix, rows[cardId := Rows.Row(org, listId, key, createdAt)], org, listId,
                                 Server.InsertAt(rest, p, cardId))
    ensures Keys.StrictlySorted(Server.InsertAt(Server.KeysOf(rows - {cardId}, rest), p, key))
  {
    var keys := Server.KeysOf(rows - {cardId}, rest);
    var bound := LongestKey(keys);
    key := Server.InsertMintsForSlot(ix, org, listId, rows, rest, cardId, p, bound);
    Server.InsertLands(ix, rows, org, listId, rest, cardId, p, Rows.Row(org, listId, key, createdAt), bound);
    Server.MintedAtSlot(ix, keys, p, bound);
  }

  /** A card stands well with a key that fits its place among the others. */
  lemma FittingStandsWell(board: Board, k: nat, cardId: Id, rest: seq<Id>, p: nat, key: Str)
    requires Occurrences(board.lists, cardId) == 1 && cardId in board.cards
    requires k < |board.lists| && p <= |rest| && cardId !in rest
    requires board.lists[k].cardIds == InsertAt(rest, p, cardId) && FitsAt(rest, p, board.cards, key)
    ensures StandsWell(board.(cards := WithKey(board.cards, cardId, Some(key))), cardId)
  {
    var keyed := board.(cards := WithKey(board.cards, cardId, Some(key)));
    var ids := board.lists[k].cardIds;
    InsertedIndex(rest, p, cardId);
    assert ids[p] == cardId && RemoveAt(ids, p) == rest;
    SameOthersSameFit(rest, p, board.cards, keyed.cards, cardId, key);
    assert FitsAt(RemoveAt(ids, p), p, keyed.cards, key);
    StandsAt(keyed, cardId, k, p);
  }

  /** Clearing the moved card's key does not matter to the others. */
  lemma OthersFit(cards: map<Id, Card>, cardId: Id, rest: seq<Id>, p: nat, key: Str)
    requires cardId !in rest && FitsAt(rest, p, cards, key)
    ensures FitsAt(rest, p, WithKey(cards, cardId, None), key)
  {
    SameOthersSameFit(rest, p, cards, WithKey(cards, cardId, None), cardId, key);
  }

  lemma ConfirmedIsOrdered(s: Store, cardId: Id, fromListId: Id, toListId: Id, toIndex: int, p: nat, key: Str)
    requires Placed(s.board) && AllKeysOrdered(s.board) && CanBegin(s, cardId, fromListId)
    requires FindList(s.board.lists, toListId) < |s.board.lists|
    requires var rest := WithoutId(s.board.lists[FindList(s.board.lists, toListId)].cardIds, cardId);
      && StandsBetween(Begun(s, cardId, fromListId, toListId, toIndex).board.lists, toListId, cardId, rest, p)
      && FitsAt(rest, p, s.board.cards, key)
    ensures AllKeysOrdered(Confirmed(Begun(s, cardId, fromListId, toListId, toIndex),
                                     MoveFor(s, cardId, fromListId, toListId), Some(key)).board)
  {
    var begun, m := Begun(s, cardId, fromListId, toListId, toIndex), MoveFor(s, cardId, fromListId, toListId);
    var rest := WithoutId(s.board.lists[FindList(s.board.lists, toListId)].cardIds, cardId);
    var t := FindList(begun.board.lists, toListId);
    ListedIsKnown(s.board, FindList(s.board.lists, fromListId), cardId);
    BeginKeepsPlaced(s, cardId, fromListId, toListId, toIndex);
    BeginKeepsKeysOrdered(s, cardId, fromListId, toListId, toIndex);
    OthersFit(s.board.cards, cardId, rest, p, key);
    FittingStandsWell(begun.board, t, cardId, rest, p, key);
    ConfirmKeepsKeysOrderedIff(begun, m, key);
  }

  /**
   * The whole way round. When board and server agree on the other cards of the target list, the
   * server mints a key for the neighbours that the board names; confirming it leaves every list of
   * the board in key order, and the server's column is the board's list.
   */
  lemma MoveAgrees(ix: Indexer, s: Store, cardId: Id, fromListId: Id, toListId: Id, toIndex: int,
                   rows: Rows.Table, org: Id, createdAt: int)
    returns (key: Str)
    requires ix.Valid() && ix.PairFree()
    requires Placed(s.board) && AllKeysOrdered(s.board) && CanBegin(s, cardId, fromListId)
    requires FindList(s.board.lists, toListId) < |s.board.lists|
    requires var rest := WithoutId(s.board.lists[FindList(s.board.lists, toListId)].cardIds, cardId);
      ServerHas(ix, rows, org, toListId, cardId, rest) && SameKeys(s.board, rows, rest)
    ensures var begun := Begun(s, cardId, fromListId, toListId, toIndex);
      var lists := begun.board.lists;
      && Server.KeyFromNeighbors(ix, rows, org, cardId, toListId, CardBefore(lists, toListId, cardId),
                                 CardAfter(lists, toListId, cardId)) == Success(key)
      && AllKeysOrdered(Confirmed(begun, MoveFor(s, cardId, fromListId, toListId), Some(key)).board)
      && FindList(lists, toListId) < |lists|
      && Server.ColumnInOrder(ix, rows[cardId := Rows.Row(org, toListId, key, createdAt)], org, toListId,
                              lists[FindList(lists, toListId)].cardIds)
  {
    var rest := WithoutId(s.board.lists[FindList(s.board.lists, toListId)].cardIds, cardId);
    var p := BegunCardStands(s, cardId, fromListId, toListId, toIndex);
    key := ServerPlaces(ix, rows, org, toListId, cardId, rest, p, createdAt);
    Server.UnrelatedKeys(rows, rest, cardId);
    KeyFitsSlot(ix, s.board, rows, rest, p, key);
    ConfirmedIsOrdered(s, cardId, fromListId, toListId, toIndex, p, key);
  }
}
