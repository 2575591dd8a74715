/** What `update` means for the lists of a board: where a moved card stands, and where it cannot go. */
module CardMoves {
  import opened Wrappers
  import opened Text
  import opened FractionalIndexing
  import opened KeyMinting
  import opened RebalanceJob
  import opened CardPlacement

  // --- neighbours ---------------------------------------------------------------------------

  /** A neighbour that may be named: another card of this list and tenant, with a valid key. */
  ghost predicate IsNeighbor(ix: Indexer, cards: Table, org: Id, listId: Id, cardId: Id, neighbor: Option<Id>)
    requires ix.Valid()
  {
    neighbor.Some? ==>
      && neighbor.value != cardId && neighbor.value in cards
      && cards[neighbor.value].org == org && cards[neighbor.value].parent == listId
      && ix.IsValidKey(cards[neighbor.value].positionIdx)
  }

  /** The two, if both are named, stand in ascending order. */
  ghost predicate Ascend(cards: Table, before: Option<Id>, after: Option<Id>) {
    before.Some? && after.Some? && before.value in cards && after.value in cards ==>
      Less(cards[before.value].positionIdx, cards[after.value].positionIdx)
  }

  ghost function KeyOf(cards: Table, neighbor: Option<Id>): Option<Str> {
    if neighbor.Some? && neighbor.value in cards then Some(cards[neighbor.value].positionIdx) else None
  }

  /** The service looks for the neighbours in the list, and mints between what it finds. */
  lemma NeighborsAreLookedUp(ix: Indexer, cards: Table, org: Id, cardId: Id, listId: Id,
                             before: Option<Id>, after: Option<Id>)
    requires ix.Valid()
    ensures var r := KeyFromNeighbors(ix, cards, org, cardId, listId, before, after);
      var found :=
        && (before.Some? ==> before.value != cardId && InList(cards, org, listId, before.value))
        && (after.Some? ==> after.value != cardId && InList(cards, org, listId, after.value))
        && !(before.Some? && before == after);
      && (found ==> r == Minted(ix.IntermediateKey(KeyOf(cards, before), KeyOf(cards, after))))
      && (!found ==> r.Failure?)
  {
  }

  lemma BoundsFromNeighbors(ix: Indexer, prev: Option<Str>, next: Option<Str>)
    requires ix.Valid()
    ensures var r := Minted(ix.IntermediateKey(prev, next));
      && (r.Success? <==>
            && (prev.Some? ==> ix.IsValidKey(prev.value)) && (next.Some? ==> ix.IsValidKey(next.value))
            && (prev.Some? && next.Some? ==> Less(prev.value, next.value)))
      && (r.Success? ==>
            && ix.WellFormed(r.value)
            && (prev.Some? ==> Less(prev.value, r.value)) && (next.Some? ==> Less(r.value, next.value)))
  {
    IntermediateKeyIsBetween(ix, prev, next);
  }

  /**
   * Neighbours yield a key exactly if each is another card of the same list and tenant, with a
   * valid key, and they ascend; the key is well-formed and strictly between theirs.
   */
  lemma NeighborsYieldKeyIff(ix: Indexer, cards: Table, org: Id, cardId: Id, listId: Id,
                             before: Option<Id>, after: Option<Id>)
    requires ix.Valid()
    ensures var r := KeyFromNeighbors(ix, cards, org, cardId, listId, before, after);
      && (r.Success? <==>
            && IsNeighbor(ix, cards, org, listId, cardId, before)
            && IsNeighbor(ix, cards, org, listId, cardId, after)
            && Ascend(cards, before, after))
      && (r.Success? ==>
            && ix.WellFormed(r.value)
            && (before.Some? ==> Less(cards[before.value].positionIdx, r.value))
            && (after.Some? ==> Less(r.value, cards[after.value].positionIdx)))
  {
    NeighborsAreLookedUp(ix, cards, org, cardId, listId, before, after);
    BoundsFromNeighbors(ix, KeyOf(cards, before), KeyOf(cards, after));
    if before.Some? && before == after && before.value in cards {
      LessIrreflexive(cards[before.value].positionIdx);
    }
  }

  // --- one request --------------------------------------------------------------------------

  /** The request of a board that moved the card to slot `i` among the other cards of a list. */
  function MoveRequest(listId: Id, rest: seq<Id>, i: nat): UpdateDto
    requires i <= |rest|
  {
    UpdateDto(Some(listId), None, IdBefore(rest, i), IdAfter(rest, i))
  }

  ghost predicate MayMoveTo(lists: map<Id, ListRow>, cards: Table, org: Id, id: Id, listId: Id) {
    && id in cards && cards[id].org == org && cards[id].parent in lists
    && listId in lists && lists[listId].org == org
    && lists[listId].boardId == lists[cards[id].parent].boardId
  }

  /** Alone in its list, the card has no neighbours to name: it stays, or is appended to the empty list. */
  lemma LoneCardLands(ix: Indexer, lists: map<Id, ListRow>, cards: Table, org: Id, id: Id, listId: Id,
                      order: seq<Id>, bound: nat, r: Result<Row, PlacementError>, after: Table)
    requires ix.Valid() && ix.PairFree() && RowsFit(lists, cards) && MayMoveTo(lists, cards, org, id, listId)
    requires ColumnInOrder(ix, cards, org, listId, order) && Within(KeysOf(cards, order), bound)
    requires Without(order, id) == []
    requires Updates(ix, lists, cards, org, id, UpdateDto(Some(listId), None, None, None), r, after)
    ensures r.Success?
    ensures ColumnInOrder(ix, after, org, listId, [id]) && Within(KeysOf(after, [id]), bound + 1)
  {
    if cards[id].parent == listId {
      assert InList(cards, org, listId, id) && id in order;
      KeysAreDistinct(cards, order);
      var k :| 0 <= k < |order| && order[k] == id;
      WithoutIsCut(order, id, k);
      assert |Cut(order, k)| == |order| - 1;
      assert order == [id];
      assert after == cards;
    } else {
      assert id !in order;
      WithoutNothing(order, id);
      var last :| IsLastKey(cards, org, listId, last) && Placed(r) == Minted(ix.IntermediateKey(last, None));
      var key := AppendMintsForSlot(ix, org, listId, cards, order, last, bound);
      PlacedAtSlot(ix, cards, org, listId, order, id, 0, r.value, bound);
      assert InsertAt(order, 0, id) == [id];
    }
  }

  /**
   * A move within a board, to any slot of any list of it, is accepted, and the card then stands in
   * that slot of that list, whatever list it came from.
   */
  lemma MoveLandsInSlot(ix: Indexer, lists: map<Id, ListRow>, cards: Table, org: Id, id: Id, listId: Id,
                        order: seq<Id>, i: nat, bound: nat, r: Result<Row, PlacementError>, after: Table)
    requires ix.Valid() && ix.PairFree() && RowsFit(lists, cards) && MayMoveTo(lists, cards, org, id, listId)
    requires ColumnInOrder(ix, cards, org, listId, order) && Within(KeysOf(cards, order), bound)
    requires i <= |Without(order, id)|
    requires Updates(ix, lists, cards, org, id, MoveRequest(listId, Without(order, id), i), r, after)
    ensures r.Success?
    ensures ColumnInOrder(ix, after, org, listId, InsertAt(Without(order, id), i, id))
    ensures Within(KeysOf(after, InsertAt(Without(order, id), i, id)), bound + 1)
  {
    var rest := Without(order, id);
    if rest == [] {
      LoneCardLands(ix, lists, cards, org, id, listId, order, bound, r, after);
      assert InsertAt(rest, i, id) == [id];
    } else {
      RemovalKeepsOrder(ix, cards, org, listId, order, id, bound);
      var key := InsertMintsForSlot(ix, org, listId, cards, rest, id, i, bound);
      assert Placed(r) == Success(key);
      InsertLands(ix, cards, org, listId, rest, id, i, r.value, bound);
    }
  }

  /** Any accepted update takes the card out of every other list, and leaves those in order. */
  lemma UpdateLeavesOthers(ix: Indexer, lists: map<Id, ListRow>, cards: Table, org: Id, id: Id, dto: UpdateDto,
                           r: Result<Row, PlacementError>, after: Table, otherOrg: Id, other: Id, order: seq<Id>)
    requires ix.Valid() && RowsFit(lists, cards) && Updates(ix, lists, cards, org, id, dto, r, after) && r.Success?
    requires ColumnInOrder(ix, cards, otherOrg, other, order)
    requires otherOrg != org || other != r.value.parent
    ensures ColumnInOrder(ix, after, otherOrg, other, Without(order, id))
  {
    var bound := Longest(KeysOf(cards, order));
    RemovalKeepsOrder(ix, cards, otherOrg, other, order, id, bound);
    var rest := Without(order, id);
    assert KeysOf(after, rest) == KeysOf(cards - {id}, rest) by {
      forall k | 0 <= k < |rest| ensures after[rest[k]] == (cards - {id})[rest[k]] {
        assert rest[k] in rest;
      }
    }
    assert forall x :: x in rest ==> InList(cards - {id}, otherOrg, other, x);
    forall x | x in after && InList(after, otherOrg, other, x) ensures x in rest {
      assert x != id ==> InList(cards - {id}, otherOrg, other, x);
    }
  }

  /** A bound on the lengths of the keys. */
  function Longest(keys: seq<Str>): (n: nat)
    ensures Within(keys, n)
  {
    if keys == [] then 0
    else
      var n, last := Longest(keys[..|keys| - 1]), keys[|keys| - 1];
      assert forall k :: 0 <= k < |keys| - 1 ==> keys[k] == keys[..|keys| - 1][k];
      if |last| > n then |last| else n
  }

  // --- runs of requests ---------------------------------------------------------------------

  datatype Request = Request(org: Id, id: Id, dto: UpdateDto, answer: Result<Row, PlacementError>)

  /** Update requests of any tenants, in any order, each answered on the table that it meets. */
  ghost predicate IsRequestRun(ix: Indexer, lists: map<Id, ListRow>, tables: seq<Table>, run: seq<Request>) {
    && ix.Valid() && |tables| == |run| + 1 && RowsFit(lists, tables[0])
    && forall k :: 0 <= k < |run| ==>
         && RowsFit(lists, tables[k])
         && Updates(ix, lists, tables[k], run[k].org, run[k].id, run[k].dto, run[k].answer, tables[k + 1])
  }

  /** Where a card belongs, which no update may change. */
  ghost predicate SameHome(lists: map<Id, ListRow>, a: Row, b: Row) {
    && a.org == b.org && a.createdAt == b.createdAt
    && a.parent in lists && b.parent in lists && lists[a.parent].boardId == lists[b.parent].boardId
  }

  /** Over any run of requests no card appears, vanishes, or leaves its tenant or board. */
  lemma {:induction false} RequestsKeepBoards(ix: Indexer, lists: map<Id, ListRow>, tables: seq<Table>,
                                              run: seq<Request>, k: nat)
    requires IsRequestRun(ix, lists, tables, run) && k <= |run|
    ensures tables[k].Keys == tables[0].Keys
    ensures forall id :: id in tables[0] ==> SameHome(lists, tables[0][id], tables[k][id])
  {
    if k > 0 {
      RequestsKeepBoards(ix, lists, tables, run, k - 1);
    }
  }

  /**
   * An accepted request that named neighbours named other cards of the tenant's list that it asked
   * for, and left its card strictly between them.
   */
  lemma AcceptedNeighborsHold(ix: Indexer, lists: map<Id, ListRow>, tables: seq<Table>, run: seq<Request>, k: nat)
    requires IsRequestRun(ix, lists, tables, run) && k < |run| && run[k].answer.Success?
    requires run[k].dto.beforeCardId.Some? || run[k].dto.afterCardId.Some?
    ensures var q, cards, row := run[k], tables[k], run[k].answer.value;
      && IsNeighbor(ix, cards, q.org, row.parent, q.id, q.dto.beforeCardId)
      && IsNeighbor(ix, cards, q.org, row.parent, q.id, q.dto.afterCardId)
      && ix.WellFormed(row.positionIdx) && row.org == q.org
      && (q.dto.beforeCardId.Some? ==> Less(cards[q.dto.beforeCardId.value].positionIdx, row.positionIdx))
      && (q.dto.afterCardId.Some? ==> Less(row.positionIdx, cards[q.dto.afterCardId.value].positionIdx))
  {
    var q, cards := run[k], tables[k];
    assert RowsFit(lists, cards) && Updates(ix, lists, cards, q.org, q.id, q.dto, q.answer, tables[k + 1]);
    var target := q.dto.listId.GetOr(cards[q.id].parent);
    NeighborsYieldKeyIff(ix, cards, q.org, q.id, target, q.dto.beforeCardId, q.dto.afterCardId);
  }
}
