/**
 * Where the cards service places a card: between named neighbours, at an end, or by a supplied
 * key; and what any run of placements, removals and rebalances does to one column.
 */
module CardPlacement {
  import opened Wrappers
  import opened Text
  import opened FractionalIndexing
  import opened KeyMinting
  import opened KeyRebalancing
  import opened RebalanceJob

  datatype PlacementError =
    | CardNotFound
    | ListNotFound
    | OtherBoard
    | OwnNeighbor
    | SameNeighbors
    | BeforeNotInList
    | AfterNotInList
    | InvalidKey
    | KeyError(error: IndexerError)

  predicate InList(cards: Table, org: Id, listId: Id, id: Id) {
    id in cards && cards[id].org == org && cards[id].parent == listId
  }

  /** `resolvePositionFromNeighbors`. */
  function KeyFromNeighbors(ix: Indexer, cards: Table, org: Id, cardId: Id, listId: Id,
                            before: Option<Id>, after: Option<Id>): Result<Str, PlacementError>
    requires ix.Valid()
  {
    if before == Some(cardId) || after == Some(cardId) then Failure(OwnNeighbor)
    else if before.Some? && before == after then Failure(SameNeighbors)
    else if before.Some? && !InList(cards, org, listId, before.value) then Failure(BeforeNotInList)
    else if after.Some? && !InList(cards, org, listId, after.value) then Failure(AfterNotInList)
    else
      var prevKey := if before.Some? then Some(cards[before.value].positionIdx) else None;
      var nextKey := if after.Some? then Some(cards[after.value].positionIdx) else None;
      Minted(ix.IntermediateKey(prevKey, nextKey))
  }

  function Minted(r: Result<Str, IndexerError>): Result<Str, PlacementError> {
    if r.Success? then Success(r.value) else Failure(KeyError(r.error))
  }

  /** The greatest key of a list, `ORDER BY position_idx DESC LIMIT 1`. */
  ghost predicate IsLastKey(cards: Table, org: Id, listId: Id, last: Option<Str>) {
    if last.None? then ColumnIds(cards, org, listId) == {}
    else
      && (exists id :: id in ColumnIds(cards, org, listId) && cards[id].positionIdx == last.value)
      && (forall id :: id in ColumnIds(cards, org, listId) ==> AtMost(cards[id].positionIdx, last.value))
  }

  // --- columns ---------------------------------------------------------------

  ghost function KeysOf(cards: Table, order: seq<Id>): (keys: seq<Str>)
    requires forall id :: id in order ==> id in cards
    ensures |keys| == |order|
  {
    seq(|order|, k requires 0 <= k < |order| => assert order[k] in order; cards[order[k]].positionIdx)
  }

  ghost predicate ProperKeys(ix: Indexer, keys: seq<Str>) {
    StrictlySorted(keys) && forall key :: key in keys ==> ix.WellFormed(key)
  }

  /** The list holds exactly the cards of `order`, with well-formed keys that increase strictly along it. */
  ghost predicate ColumnInOrder(ix: Indexer, cards: Table, org: Id, listId: Id, order: seq<Id>) {
    && (forall id :: id in order ==> InList(cards, org, listId, id))
    && (forall id :: id in cards && InList(cards, org, listId, id) ==> id in order)
    && ProperKeys(ix, KeysOf(cards, order))
  }

  /** The intended order is the one the database sorts by, whatever the creation times. */
  lemma ColumnOrderIsRowOrder(ix: Indexer, cards: Table, org: Id, listId: Id, order: seq<Id>)
    requires ColumnInOrder(ix, cards, org, listId, order)
    ensures order == SortedIds(cards, ColumnIds(cards, org, listId))
    ensures |order| == |ColumnIds(cards, org, listId)|
  {
    var keys := KeysOf(cards, order);
    forall i, j | 0 <= i < j < |order| ensures RowBefore(cards, order[i], order[j]) {
      assert Less(keys[i], keys[j]);
    }
    ListingIsUnique(cards, ColumnIds(cards, org, listId), order);
    SortedIdsIsListing(cards, ColumnIds(cards, org, listId));
  }

  lemma KeysAreDistinct(cards: Table, order: seq<Id>)
    requires (forall id :: id in order ==> id in cards) && StrictlySorted(KeysOf(cards, order))
    ensures forall i, j :: 0 <= i < j < |order| ==> order[i] != order[j]
  {
    var keys := KeysOf(cards, order);
    forall i, j | 0 <= i < j < |order| ensures order[i] != order[j] {
      assert Less(keys[i], keys[j]);
      LessIrreflexive(keys[i]);
    }
  }

  function Without<T(==,!new)>(s: seq<T>, x: T): (r: seq<T>)
    ensures x !in r
    ensures forall y :: y in r <==> y in s && y != x
  {
    if s == [] then []
    else if s[0] == x then Without(s[1..], x)
    else [s[0]] + Without(s[1..], x)
  }

  lemma {:induction false} WithoutNothing<T(!new)>(s: seq<T>, x: T)
    requires x !in s
    ensures Without(s, x) == s
  {
    if s != [] {
      WithoutNothing(s[1..], x);
    }
  }

  /** Taking out an element that occurs once cuts it out of its place. */
  lemma {:induction false} WithoutIsCut<T(!new)>(s: seq<T>, x: T, k: nat)
    requires k < |s| && s[k] == x && forall i, j :: 0 <= i < j < |s| ==> s[i] != s[j]
    ensures Without(s, x) == Cut(s, k)
  {
    if k == 0 {
      WithoutNothing(s[1..], x);
    } else {
      assert s[1..][k - 1] == x;
      WithoutIsCut(s[1..], x, k - 1);
      assert s[..k] == [s[0]] + s[1..][..k - 1] && s[1..][k..] == s[k + 1..];
    }
  }

  ghost function InsertAt<T>(s: seq<T>, i: nat, x: T): (r: seq<T>)
    requires i <= |s|
    ensures |r| == |s| + 1
    ensures forall k :: 0 <= k < |r| ==> r[k] == if k < i then s[k] else if k == i then x else s[k - 1]
  {
    s[..i] + [x] + s[i..]
  }

  lemma InsertedMembers<T(!new)>(s: seq<T>, i: nat, x: T)
    requires i <= |s|
    ensures forall y :: y in InsertAt(s, i, x) <==> y == x || y in s
  {
    var r := InsertAt(s, i, x);
    forall y ensures y in r <==> y == x || y in s {
      if y in s {
        var k :| 0 <= k < |s| && s[k] == y;
        assert r[if k < i then k else k + 1] == y;
      }
      if y == x {
        assert r[i] == y;
      }
    }
  }

  /** The keys on either side of slot `i`, or an open end. */
  function KeyBefore(keys: seq<Str>, i: nat): Option<Str>
    requires i <= |keys|
  {
    if i > 0 then Some(keys[i - 1]) else None
  }

  function KeyAfter(keys: seq<Str>, i: nat): Option<Str>
    requires i <= |keys|
  {
    if i < |keys| then Some(keys[i]) else None
  }

  ghost predicate Within(keys: seq<Str>, bound: nat) {
    forall key :: key in keys ==> |key| <= bound
  }

  /**
   * Between adjacent keys of a proper column, or at its ends, a key can always be minted; the
   * column stays proper with it, and it is at most one unit longer than the longest key.
   */
  lemma MintedAtSlot(ix: Indexer, keys: seq<Str>, i: nat, bound: nat)
    requires ix.Valid() && ix.PairFree() && ProperKeys(ix, keys) && i <= |keys| && Within(keys, bound)
    ensures var r := ix.IntermediateKey(KeyBefore(keys, i), KeyAfter(keys, i));
      && r.Success?
      && ProperKeys(ix, InsertAt(keys, i, r.value))
      && Within(InsertAt(keys, i, r.value), bound + 1)
  {
    var prev, next := KeyBefore(keys, i), KeyAfter(keys, i);
    SlotBoundsAreProper(ix, keys, i);
    IntermediateKeyIsBetween(ix, prev, next);
    var key := ix.IntermediateKey(prev, next).value;
    KeySplitsColumn(keys, i, key);
    InsertedMembers(keys, i, key);
  }

  lemma SlotBoundsAreProper(ix: Indexer, keys: seq<Str>, i: nat)
    requires ix.Valid() && ix.PairFree() && ProperKeys(ix, keys) && i <= |keys|
    ensures ProperBounds(ix, KeyBefore(keys, i), KeyAfter(keys, i))
  {
    if i > 0 {
      assert keys[i - 1] in keys;
      ValidIffWellFormed(ix, keys[i - 1]);
    }
    if i < |keys| {
      assert keys[i] in keys;
      ValidIffWellFormed(ix, keys[i]);
    }
  }

  lemma ValidIffWellFormed(ix: Indexer, key: Str)
    requires ix.Valid() && ix.PairFree()
    ensures ix.IsValidKey(key) <==> ix.WellFormed(key)
  {
    ix.ValidKeyIff(key);
    if ix.WellFormed(key) {
      ix.PairFreeStrings(key);
    }
  }

  lemma KeySplitsColumn(keys: seq<Str>, i: nat, key: Str)
    requires StrictlySorted(keys) && i <= |keys|
    requires Between(KeyBefore(keys, i), key, KeyAfter(keys, i))
    ensures StrictlySorted(InsertAt(keys, i, key))
  {
    forall k | 0 <= k < i ensures Less(keys[k], key) {
      if k < i - 1 {
        LessTransitive(keys[k], keys[i - 1], key);
      }
    }
    forall k | i <= k < |keys| ensures Less(key, keys[k]) {
      if k > i {
        LessTransitive(key, keys[i], keys[k]);
      }
    }
  }

  /** Removing a card, or taking it out to place it again, keeps the rest in order. */
  lemma RemovalKeepsOrder(ix: Indexer, cards: Table, org: Id, listId: Id, order: seq<Id>, id: Id, bound: nat)
    requires ColumnInOrder(ix, cards, org, listId, order) && Within(KeysOf(cards, order), bound)
    ensures ColumnInOrder(ix, cards - {id}, org, listId, Without(order, id))
    ensures Within(KeysOf(cards - {id}, Without(order, id)), bound)
  {
    if id in order {
      RemovedKeys(ix, cards, order, id, bound);
    } else {
      WithoutNothing(order, id);
      UnrelatedKeys(cards, order, id);
    }
  }

  lemma RemovedKeys(ix: Indexer, cards: Table, order: seq<Id>, id: Id, bound: nat)
    requires (forall x :: x in order ==> x in cards) && id in order
    requires ProperKeys(ix, KeysOf(cards, order)) && Within(KeysOf(cards, order), bound)
    ensures forall x :: x in Without(order, id) ==> x in cards - {id}
    ensures ProperKeys(ix, KeysOf(cards - {id}, Without(order, id)))
    ensures Within(KeysOf(cards - {id}, Without(order, id)), bound)
  {
    var k :| 0 <= k < |order| && order[k] == id;
    KeysAreDistinct(cards, order);
    WithoutIsCut(order, id, k);
    KeysOfCut(cards, order, k);
    CutKeepsProper(ix, KeysOf(cards, order), k, bound);
  }

  lemma UnrelatedKeys(cards: Table, order: seq<Id>, id: Id)
    requires (forall x :: x in order ==> x in cards) && id !in order
    ensures KeysOf(cards - {id}, order) == KeysOf(cards, order)
  {
    assert forall k :: 0 <= k < |order| ==> order[k] in order;
  }

  ghost function Cut<T>(s: seq<T>, k: nat): seq<T>
    requires k < |s|
  {
    s[..k] + s[k + 1..]
  }

  lemma CutKeepsProper(ix: Indexer, keys: seq<Str>, k: nat, bound: nat)
    requires k < |keys| && ProperKeys(ix, keys) && Within(keys, bound)
    ensures ProperKeys(ix, Cut(keys, k)) && Within(Cut(keys, k), bound)
  {
    var r := Cut(keys, k);
    forall i | 0 <= i < |r| ensures r[i] == keys[if i < k then i else i + 1] && r[i] in keys {}
  }

  lemma KeysOfCut(cards: Table, order: seq<Id>, k: nat)
    requires k < |order| && forall x :: x in order ==> x in cards
    requires forall i, j :: 0 <= i < j < |order| ==> order[i] != order[j]
    ensures forall x :: x in Cut(order, k) ==> x in cards - {order[k]}
    ensures KeysOf(cards - {order[k]}, Cut(order, k)) == Cut(KeysOf(cards, order), k)
  {
    var r := Cut(order, k);
    forall i | 0 <= i < |r| ensures r[i] == order[if i < k then i else i + 1] && r[i] in order {}
  }

  /** A row with the key minted for slot `i` of the other cards sits exactly in that slot. */
  lemma PlacedAtSlot(ix: Indexer, cards: Table, org: Id, listId: Id, order: seq<Id>, id: Id, i: nat,
                     row: Row, bound: nat)
    requires ix.Valid() && ix.PairFree()
    requires ColumnInOrder(ix, cards, org, listId, order) && Within(KeysOf(cards, order), bound)
    requires id !in order && i <= |order| && row.org == org && row.parent == listId
    requires var keys := KeysOf(cards, order);
      ix.IntermediateKey(KeyBefore(keys, i), KeyAfter(keys, i)) == Success(row.positionIdx)
    ensures ColumnInOrder(ix, cards[id := row], org, listId, InsertAt(order, i, id))
    ensures Within(KeysOf(cards[id := row], InsertAt(order, i, id)), bound + 1)
  {
    MintedAtSlot(ix, KeysOf(cards, order), i, bound);
    RowsWithCard(cards, org, listId, order, id, i, row);
    KeysWithCard(cards, order, id, i, row);
  }

  lemma RowsWithCard(cards: Table, org: Id, listId: Id, order: seq<Id>, id: Id, i: nat, row: Row)
    requires forall x :: x in order ==> InList(cards, org, listId, x)
    requires forall x :: x in cards && InList(cards, org, listId, x) ==> x in order
    requires i <= |order| && row.org == org && row.parent == listId
    ensures forall x :: x in InsertAt(order, i, id) ==> InList(cards[id := row], org, listId, x)
    ensures forall x :: x in cards[id := row] && InList(cards[id := row], org, listId, x) ==>
      x in InsertAt(order, i, id)
  {
    InsertedMembers(order, i, id);
  }

  lemma KeysWithCard(cards: Table, order: seq<Id>, id: Id, i: nat, row: Row)
    requires (forall x :: x in order ==> x in cards) && id !in order && i <= |order|
    ensures forall x :: x in InsertAt(order, i, id) ==> x in cards[id := row]
    ensures KeysOf(cards[id := row], InsertAt(order, i, id)) == InsertAt(KeysOf(cards, order), i, row.positionIdx)
  {
    InsertedMembers(order, i, id);
    assert forall k :: 0 <= k < |order| ==> order[k] in order;
  }

  /** The named neighbours carry the keys on either side of the slot. */
  lemma NeighborKeys(cards: Table, rest: seq<Id>, i: nat)
    requires i <= |rest| && forall x :: x in rest ==> x in cards
    ensures IdBefore(rest, i).Some? <==> KeyBefore(KeysOf(cards, rest), i).Some?
    ensures IdBefore(rest, i).Some? ==>
      && IdBefore(rest, i).value in rest
      && cards[IdBefore(rest, i).value].positionIdx == KeyBefore(KeysOf(cards, rest), i).value
    ensures IdAfter(rest, i).Some? <==> KeyAfter(KeysOf(cards, rest), i).Some?
    ensures IdAfter(rest, i).Some? ==>
      && IdAfter(rest, i).value in rest
      && cards[IdAfter(rest, i).value].positionIdx == KeyAfter(KeysOf(cards, rest), i).value
  {
    if 0 < i {
      assert rest[i - 1] in rest;
    }
    if i < |rest| {
      assert rest[i] in rest;
    }
  }

  /** Naming the neighbours of slot `i`, as the board does after an optimistic move. */
  lemma NeighborsNameTheSlot(ix: Indexer, cards: Table, org: Id, listId: Id, rest: seq<Id>, id: Id, i: nat)
    requires ix.Valid() && id !in rest && i <= |rest|
    requires (forall x :: x in rest ==> InList(cards, org, listId, x)) && (forall x :: x in rest ==> x in cards)
    requires StrictlySorted(KeysOf(cards, rest))
    ensures KeyFromNeighbors(ix, cards, org, id, listId, IdBefore(rest, i), IdAfter(rest, i)) ==
            Minted(ix.IntermediateKey(KeyBefore(KeysOf(cards, rest), i), KeyAfter(KeysOf(cards, rest), i)))
  {
    NeighborKeys(cards, rest, i);
    NeighborsDiffer(cards, rest, i);
  }

  lemma NeighborsDiffer(cards: Table, rest: seq<Id>, i: nat)
    requires i <= |rest| && (forall x :: x in rest ==> x in cards) && StrictlySorted(KeysOf(cards, rest))
    ensures IdBefore(rest, i).Some? ==> IdBefore(rest, i) != IdAfter(rest, i)
  {
    KeysAreDistinct(cards, rest);
  }

  /** The neighbours of slot `i`. */
  function IdBefore(order: seq<Id>, i: nat): Option<Id>
    requires i <= |order|
  {
    if i > 0 then Some(order[i - 1]) else None
  }

  function IdAfter(order: seq<Id>, i: nat): Option<Id>
    requires i <= |order|
  {
    if i < |order| then Some(order[i]) else None
  }

  /** Appending names the last card's key, so it is placement at the last slot. */
  lemma AppendNamesTheLastSlot(ix: Indexer, cards: Table, org: Id, listId: Id, order: seq<Id>, last: Option<Str>)
    requires ColumnInOrder(ix, cards, org, listId, order) && IsLastKey(cards, org, listId, last)
    ensures last == KeyBefore(KeysOf(cards, order), |order|)
  {
    var keys := KeysOf(cards, order);
    if order == [] {
      assert ColumnIds(cards, org, listId) == {};
    } else {
      var end := order[|order| - 1];
      assert end in order && end in ColumnIds(cards, org, listId);
      var id :| id in ColumnIds(cards, org, listId) && cards[id].positionIdx == last.value;
      assert id in order;
      var k :| 0 <= k < |order| && order[k] == id;
      assert AtMost(keys[|keys| - 1], last.value);
      if k < |order| - 1 {
        LessAsymmetric(keys[k], keys[|keys| - 1]);
      }
    }
  }

  // --- runs over one column --------------------------------------------------

  /** Appends and inserts take new cards as well as cards that come from another list. */
  datatype Op =
    | Append(id: Id, createdAt: int)
    | Insert(id: Id, slot: nat, createdAt: int)
    | Remove(id: Id)
    | Rebalance

  /** The table, the order its user means, and a bound on the key lengths. */
  datatype ColumnState = ColumnState(cards: Table, order: seq<Id>, bound: nat)

  ghost predicate Enabled(s: ColumnState, op: Op) {
    match op
    case Append(id, _) => id !in s.order
    case Insert(id, slot, _) => slot <= |Without(s.order, id)| && Without(s.order, id) != []
    case Remove(id) => true
    case Rebalance => true
  }

  /** Writing the card's own row, unless the service threw. */
  ghost function Written(cards: Table, org: Id, listId: Id, id: Id, createdAt: int,
                         key: Result<Str, PlacementError>): Table {
    if key.Success? then cards[id := Row(org, listId, key.value, createdAt)] else cards
  }

  /** One request: what the code does to the table, and what the user means by it. */
  ghost predicate Step(ix: Indexer, org: Id, listId: Id, s: ColumnState, op: Op, t: ColumnState)
    requires ix.Valid()
  {
    Enabled(s, op) &&
    match op
    case Append(id, createdAt) =>
      && (exists last :: IsLastKey(s.cards, org, listId, last) &&
            t.cards == Written(s.cards, org, listId, id, createdAt, Minted(ix.IntermediateKey(last, None))))
      && t.order == s.order + [id] && t.bound == s.bound + 1
    case Insert(id, slot, createdAt) =>
      var rest := Without(s.order, id);
      && t.cards == Written(s.cards, org, listId, id, createdAt,
                            KeyFromNeighbors(ix, s.cards, org, id, listId, IdBefore(rest, slot), IdAfter(rest, slot)))
      && t.order == InsertAt(rest, slot, id) && t.bound == s.bound + 1
    case Remove(id) =>
      t.cards == s.cards - {id} && t.order == Without(s.order, id) && t.bound == s.bound
    case Rebalance =>
      var count := |ColumnIds(s.cards, org, listId)|;
      && Rebalanced(ix, count, None).Success?
      && Progress(ix, s.cards, t.cards, org, {listId})
      && t.order == s.order
      && t.bound == if count == 0 then 0 else ChooseWidth(|ix.alphabet|, count, None).value
  }

  ghost predicate ColumnInvariant(ix: Indexer, org: Id, listId: Id, s: ColumnState) {
    && ColumnInOrder(ix, s.cards, org, listId, s.order)
    && Within(KeysOf(s.cards, s.order), s.bound)
  }

  lemma AppendMintsForSlot(ix: Indexer, org: Id, listId: Id, cards: Table, order: seq<Id>,
                           last: Option<Str>, bound: nat)
    returns (key: Str)
    requires ix.Valid() && ix.PairFree() && IsLastKey(cards, org, listId, last)
    requires ColumnInOrder(ix, cards, org, listId, order) && Within(KeysOf(cards, order), bound)
    ensures var keys := KeysOf(cards, order);
      ix.IntermediateKey(KeyBefore(keys, |order|), KeyAfter(keys, |order|)) == Success(key)
    ensures ix.IntermediateKey(last, None) == Success(key)
  {
    var keys := KeysOf(cards, order);
    AppendNamesTheLastSlot(ix, cards, org, listId, order, last);
    MintedAtSlot(ix, keys, |keys|, bound);
    key := ix.IntermediateKey(last, None).value;
  }

  lemma AppendKeepsInvariant(ix: Indexer, org: Id, listId: Id, s: ColumnState, op: Op, t: ColumnState)
    requires ix.Valid() && ix.PairFree() && ColumnInvariant(ix, org, listId, s)
    requires op.Append? && Step(ix, org, listId, s, op, t)
    ensures ColumnInvariant(ix, org, listId, t)
  {
    var last :| IsLastKey(s.cards, org, listId, last) &&
      t.cards == Written(s.cards, org, listId, op.id, op.createdAt, Minted(ix.IntermediateKey(last, None)));
    var key := AppendMintsForSlot(ix, org, listId, s.cards, s.order, last, s.bound);
    var row := Row(org, listId, key, op.createdAt);
    PlacedAtSlot(ix, s.cards, org, listId, s.order, op.id, |s.order|, row, s.bound);
    assert InsertAt(s.order, |s.order|, op.id) == t.order;
  }

  /** The key that the service mints for an insert is the one for that slot of the other cards. */
  lemma InsertMintsForSlot(ix: Indexer, org: Id, listId: Id, cards: Table, rest: seq<Id>, id: Id, slot: nat, bound: nat)
    returns (key: Str)
    requires ix.Valid() && ix.PairFree() && id !in rest && slot <= |rest|
    requires ColumnInOrder(ix, cards - {id}, org, listId, rest) && Within(KeysOf(cards - {id}, rest), bound)
    ensures var keys := KeysOf(cards - {id}, rest);
      ix.IntermediateKey(KeyBefore(keys, slot), KeyAfter(keys, slot)) == Success(key)
    ensures KeyFromNeighbors(ix, cards, org, id, listId, IdBefore(rest, slot), IdAfter(rest, slot)) == Success(key)
  {
    var keys := KeysOf(cards - {id}, rest);
    assert forall x :: x in rest ==> x in cards - {id} && InList(cards, org, listId, x);
    UnrelatedKeys(cards, rest, id);
    MintedAtSlot(ix, keys, slot, bound);
    key := ix.IntermediateKey(KeyBefore(keys, slot), KeyAfter(keys, slot)).value;
    NeighborsNameTheSlot(ix, cards, org, listId, rest, id, slot);
  }

  /** Writing the minted key puts the card in its slot, wherever it was before. */
  lemma InsertLands(ix: Indexer, cards: Table, org: Id, listId: Id, rest: seq<Id>, id: Id, slot: nat,
                    row: Row, bound: nat)
    requires ix.Valid() && ix.PairFree()
    requires ColumnInOrder(ix, cards - {id}, org, listId, rest) && Within(KeysOf(cards - {id}, rest), bound)
    requires id !in rest && slot <= |rest| && row.org == org && row.parent == listId
    requires var keys := KeysOf(cards - {id}, rest);
      ix.IntermediateKey(KeyBefore(keys, slot), KeyAfter(keys, slot)) == Success(row.positionIdx)
    ensures ColumnInOrder(ix, cards[id := row], org, listId, InsertAt(rest, slot, id))
    ensures Within(KeysOf(cards[id := row], InsertAt(rest, slot, id)), bound + 1)
  {
    assert (cards - {id})[id := row] == cards[id := row];
    PlacedAtSlot(ix, cards - {id}, org, listId, rest, id, slot, row, bound);
  }

  lemma InsertKeepsInvariant(ix: Indexer, org: Id, listId: Id, s: ColumnState, op: Op, t: ColumnState)
    requires ix.Valid() && ix.PairFree() && ColumnInvariant(ix, org, listId, s)
    requires op.Insert? && Step(ix, org, listId, s, op, t)
    ensures ColumnInvariant(ix, org, listId, t)
  {
    var rest := Without(s.order, op.id);
    RemovalKeepsOrder(ix, s.cards, org, listId, s.order, op.id, s.bound);
    var key := InsertMintsForSlot(ix, org, listId, s.cards, rest, op.id, op.slot, s.bound);
    var row := Row(org, listId, key, op.createdAt);
    InsertLands(ix, s.cards, org, listId, rest, op.id, op.slot, row, s.bound);
    assert t == ColumnState(s.cards[op.id := row], InsertAt(rest, op.slot, op.id), s.bound + 1);
  }

  lemma RebalanceKeepsInvariant(ix: Indexer, org: Id, listId: Id, s: ColumnState, t: ColumnState)
    requires ix.Valid() && ix.PairFree() && ColumnInvariant(ix, org, listId, s)
    requires Step(ix, org, listId, s, Rebalance, t)
    ensures ColumnInvariant(ix, org, listId, t)
  {
    ColumnOrderIsRowOrder(ix, s.cards, org, listId, s.order);
    RowsStay(ix, s.cards, t.cards, org, {listId});
    assert Respread(ix, s.cards, t.cards, org, listId);
    RebalancedKeysAreSpread(ix, |s.order|, None);
    var keys := Rebalanced(ix, |s.order|, None).value;
    assert KeysOf(t.cards, s.order) == keys;
    SpreadWidth(ix, |s.order|, t.bound);
  }

  lemma SpreadWidth(ix: Indexer, count: nat, bound: nat)
    requires ix.Valid() && Rebalanced(ix, count, None).Success?
    requires bound == if count == 0 then 0 else ChooseWidth(|ix.alphabet|, count, None).value
    ensures Within(Rebalanced(ix, count, None).value, bound)
  {
    RebalancedKeysAreSpread(ix, count, None);
  }

  lemma StepKeepsInvariant(ix: Indexer, org: Id, listId: Id, s: ColumnState, op: Op, t: ColumnState)
    requires ix.Valid() && ix.PairFree() && ColumnInvariant(ix, org, listId, s)
    requires Step(ix, org, listId, s, op, t)
    ensures ColumnInvariant(ix, org, listId, t)
  {
    match op
    case Append(_, _) => AppendKeepsInvariant(ix, org, listId, s, op, t);
    case Insert(_, _, _) => InsertKeepsInvariant(ix, org, listId, s, op, t);
    case Remove(id) => RemovalKeepsOrder(ix, s.cards, org, listId, s.order, id, s.bound);
    case Rebalance => RebalanceKeepsInvariant(ix, org, listId, s, t);
  }

  ghost predicate IsRun(ix: Indexer, org: Id, listId: Id, ops: seq<Op>, states: seq<ColumnState>)
    requires ix.Valid()
  {
    && |states| == |ops| + 1
    && ColumnIds(states[0].cards, org, listId) == {} && states[0].order == []
    && forall k :: 0 <= k < |ops| ==> Step(ix, org, listId, states[k], ops[k], states[k + 1])
  }

  /**
   * From an empty column, any run of appends, inserts at any slot (moves within the column
   * included), removals and rebalances keeps every key valid, all keys distinct, the database's
   * row order equal to the intended order, and the lengths within the width of the last rebalance
   * plus one per placement since.
   */
  lemma {:induction false} RunKeepsColumn(ix: Indexer, org: Id, listId: Id, ops: seq<Op>,
                                          states: seq<ColumnState>, k: nat)
    requires ix.Valid() && ix.PairFree() && IsRun(ix, org, listId, ops, states) && k <= |ops|
    ensures ColumnInvariant(ix, org, listId, states[k])
    ensures forall id :: id in states[k].order ==> ix.IsValidKey(states[k].cards[id].positionIdx)
    ensures SortedIds(states[k].cards, ColumnIds(states[k].cards, org, listId)) == states[k].order
  {
    RunInvariant(ix, org, listId, ops, states, k);
    ColumnOrderIsRowOrder(ix, states[k].cards, org, listId, states[k].order);
    ColumnKeysAreValid(ix, org, listId, states[k]);
  }

  lemma ColumnKeysAreValid(ix: Indexer, org: Id, listId: Id, s: ColumnState)
    requires ix.Valid() && ix.PairFree() && ColumnInvariant(ix, org, listId, s)
    ensures forall id :: id in s.order ==> ix.IsValidKey(s.cards[id].positionIdx)
  {
    forall id | id in s.order ensures ix.IsValidKey(s.cards[id].positionIdx) {
      var k :| 0 <= k < |s.order| && s.order[k] == id;
      assert KeysOf(s.cards, s.order)[k] in KeysOf(s.cards, s.order);
      ValidIffWellFormed(ix, s.cards[id].positionIdx);
    }
  }

  lemma {:induction false} RunInvariant(ix: Indexer, org: Id, listId: Id, ops: seq<Op>,
                                        states: seq<ColumnState>, k: nat)
    requires ix.Valid() && ix.PairFree() && IsRun(ix, org, listId, ops, states) && k <= |ops|
    ensures ColumnInvariant(ix, org, listId, states[k])
  {
    if k == 0 {
      EmptyColumn(ix, org, listId, states[0]);
    } else {
      RunInvariant(ix, org, listId, ops, states, k - 1);
      NextInvariant(ix, org, listId, ops, states, k - 1);
    }
  }

  lemma NextInvariant(ix: Indexer, org: Id, listId: Id, ops: seq<Op>, states: seq<ColumnState>, k: nat)
    requires ix.Valid() && ix.PairFree() && IsRun(ix, org, listId, ops, states) && k < |ops|
    requires ColumnInvariant(ix, org, listId, states[k])
    ensures ColumnInvariant(ix, org, listId, states[k + 1])
  {
    StepKeepsInvariant(ix, org, listId, states[k], ops[k], states[k + 1]);
  }

  lemma EmptyColumn(ix: Indexer, org: Id, listId: Id, s: ColumnState)
    requires ColumnIds(s.cards, org, listId) == {} && s.order == []
    ensures ColumnInvariant(ix, org, listId, s)
  {
    assert forall id :: id in s.cards && InList(s.cards, org, listId, id) ==>
      id in ColumnIds(s.cards, org, listId);
  }

  // --- the service -------------------------------------------------------------

  /** The placement part of an update request; an absent field is `None`. */
  datatype UpdateDto = UpdateDto(listId: Option<Id>, positionIdx: Option<Str>,
                                 beforeCardId: Option<Id>, afterCardId: Option<Id>)

  /** A list, as far as the service looks at it. */
  datatype ListRow = ListRow(org: Id, boardId: Id)

  /** The foreign key from cards to lists; a card's tenant is its list's. */
  ghost predicate RowsFit(lists: map<Id, ListRow>, cards: Table) {
    forall id :: id in cards ==> cards[id].parent in lists && lists[cards[id].parent].org == cards[id].org
  }

  /** Where an update may put the card, before any key is looked at. */
  function TargetError(lists: map<Id, ListRow>, org: Id, card: Row, dto: UpdateDto): Option<PlacementError>
    requires card.parent in lists
  {
    if dto.listId.Some? && dto.listId.value != card.parent then
      if dto.listId.value !in lists || lists[dto.listId.value].org != org then Some(ListNotFound)
      else if lists[dto.listId.value].boardId != lists[card.parent].boardId then Some(OtherBoard)
      else None
    else None
  }

  /** The key of an accepted update: neighbours win over a supplied key, which wins over appending. */
  ghost predicate UpdatesKey(ix: Indexer, cards: Table, org: Id, id: Id, dto: UpdateDto,
                             r: Result<Row, PlacementError>)
    requires ix.Valid() && id in cards
  {
    var target := dto.listId.GetOr(cards[id].parent);
    if dto.beforeCardId.Some? || dto.afterCardId.Some? then
      Placed(r) == KeyFromNeighbors(ix, cards, org, id, target, dto.beforeCardId, dto.afterCardId)
    else if dto.positionIdx.Some? then
      Placed(r) ==
        if ix.IsValidKey(dto.positionIdx.value) then Success(dto.positionIdx.value) else Failure(InvalidKey)
    else if target != cards[id].parent then
      exists last :: IsLastKey(cards, org, target, last) && Placed(r) == Minted(ix.IntermediateKey(last, None))
    else r == Success(cards[id])
  }

  /** What `update` answers, and what it leaves in the table: one row rewritten, or nothing. */
  ghost predicate Updates(ix: Indexer, lists: map<Id, ListRow>, cards: Table, org: Id, id: Id, dto: UpdateDto,
                          r: Result<Row, PlacementError>, after: Table)
    requires ix.Valid() && RowsFit(lists, cards)
  {
    && (r.Failure? ==> after == cards)
    && (r.Success? ==>
          && id in cards && after == cards[id := r.value]
          && r.value.org == cards[id].org && r.value.createdAt == cards[id].createdAt
          && r.value.parent == dto.listId.GetOr(cards[id].parent)
          && r.value.parent in lists && lists[r.value.parent].boardId == lists[cards[id].parent].boardId)
    && (if id !in cards || cards[id].org != org then r == Failure(CardNotFound)
        else if TargetError(lists, org, cards[id], dto).Some? then
          r == Failure(TargetError(lists, org, cards[id], dto).value)
        else UpdatesKey(ix, cards, org, id, dto, r))
  }

  /** The service together with the rows that its transactions read and write. */
  class CardsService {
    const positions: Indexer
    const lists: map<Id, ListRow>
    var cards: Table

    ghost predicate Valid()
      reads this
    {
      positions.Valid() && RowsFit(lists, cards)
    }

    constructor (positions: Indexer, lists: map<Id, ListRow>, cards: Table)
      requires positions.Valid() && RowsFit(lists, cards)
      ensures this.positions == positions && this.lists == lists && this.cards == cards && Valid()
    {
      this.positions, this.lists, this.cards := positions, lists, cards;
    }

    predicate ListInOrg(listId: Id, org: Id) {
      listId in lists && lists[listId].org == org
    }

    /** `findOne(Card, { where: { listId }, order: { positionIdx: 'DESC' } })`. */
    method FindLastKey(org: Id, listId: Id) returns (last: Option<Str>)
      ensures IsLastKey(cards, org, listId, last)
    {
      var todo := set id | id in cards && InList(cards, org, listId, id);
      ghost var seen: set<Id> := {};
      last := None;
      while todo != {}
        invariant todo + seen == ColumnIds(cards, org, listId)
        invariant last.None? ==> seen == {}
        invariant last.Some? ==> exists id :: id in seen && cards[id].positionIdx == last.value
        invariant last.Some? ==> forall id :: id in seen ==> AtMost(cards[id].positionIdx, last.value)
        decreases todo
      {
        var id :| id in todo;
        var key := cards[id].positionIdx;
        if last.None? || Less(last.value, key) {
          forall x | x in seen ensures AtMost(cards[x].positionIdx, key) {
            if cards[x].positionIdx != last.value {
              LessTransitive(cards[x].positionIdx, last.value, key);
            }
          }
          last := Some(key);
        } else {
          LessTotal(last.value, key);
        }
        todo, seen := todo - {id}, seen + {id};
      }
    }

    /** `resolvePositionFromNeighbors`, with its throws in order. */
    method ResolvePositionFromNeighbors(org: Id, cardId: Id, listId: Id, before: Option<Id>, after: Option<Id>)
      returns (r: Result<Str, PlacementError>)
      requires positions.Valid()
      ensures r == KeyFromNeighbors(positions, cards, org, cardId, listId, before, after)
    {
      if before == Some(cardId) || after == Some(cardId) {
        return Failure(OwnNeighbor);
      }
      if before.Some? && after.Some? && before == after {
        return Failure(SameNeighbors);
      }
      var prevKey: Option<Str>, nextKey: Option<Str> := None, None;
      if before.Some? {
        if !InList(cards, org, listId, before.value) {
          return Failure(BeforeNotInList);
        }
        prevKey := Some(cards[before.value].positionIdx);
      }
      if after.Some? {
        if !InList(cards, org, listId, after.value) {
          return Failure(AfterNotInList);
        }
        nextKey := Some(cards[after.value].positionIdx);
      }
      r := Minted(positions.IntermediateKey(prevKey, nextKey));
    }

    /** `resolvePosition`: a valid supplied key, else one after the list's last card. */
    method ResolvePosition(org: Id, listId: Id, provided: Option<Str>) returns (r: Result<Str, PlacementError>)
      requires positions.Valid()
      ensures provided.Some? ==>
                r == if positions.IsValidKey(provided.value) then Success(provided.value) else Failure(InvalidKey)
      ensures provided.None? ==> exists last ::
                IsLastKey(cards, org, listId, last) && r == Minted(positions.IntermediateKey(last, None))
    {
      if provided.Some? {
        return if positions.IsValidKey(provided.value) then Success(provided.value) else Failure(InvalidKey);
      }
      var last := FindLastKey(org, listId);
      r := Minted(positions.IntermediateKey(last, None));
    }

    /** `create`, placement only: one new row in a list of the tenant. */
    method Create(org: Id, listId: Id, id: Id, createdAt: int, provided: Option<Str>)
      returns (r: Result<Str, PlacementError>)
      requires Valid() && id !in cards
      modifies this`cards
      ensures Valid()
      ensures cards == Written(old(cards), org, listId, id, createdAt, r)
      ensures !ListInOrg(listId, org) ==> r == Failure(ListNotFound)
      ensures ListInOrg(listId, org) && provided.None? ==> exists last ::
                IsLastKey(old(cards), org, listId, last) && r == Minted(positions.IntermediateKey(last, None))
      ensures ListInOrg(listId, org) && provided.Some? ==>
                r == if positions.IsValidKey(provided.value) then Success(provided.value) else Failure(InvalidKey)
    {
      if !ListInOrg(listId, org) {
        return Failure(ListNotFound);
      }
      r := ResolvePosition(org, listId, provided);
      if r.Success? {
        cards := cards[id := Row(org, listId, r.value, createdAt)];
      }
    }

    /** `update`, placement only: neighbours win over a supplied key, which wins over appending. */
    method Update(org: Id, id: Id, dto: UpdateDto) returns (r: Result<Row, PlacementError>)
      requires Valid()
      modifies this`cards
      ensures Valid()
      ensures Updates(positions, lists, old(cards), org, id, dto, r, cards)
    {
      if id !in cards || cards[id].org != org {
        return Failure(CardNotFound);
      }
      var card := cards[id];
      var targetListId := dto.listId.GetOr(card.parent);
      if dto.listId.Some? && dto.listId.value != card.parent {
        if !ListInOrg(dto.listId.value, org) {
          return Failure(ListNotFound);
        }
        if lists[dto.listId.value].boardId != lists[card.parent].boardId {
          return Failure(OtherBoard);
        }
      }
      var key := PlaceUpdate(org, id, card.parent, targetListId, dto);
      if key.Failure? {
        return Failure(key.error);
      }
      card := card.(parent := targetListId, positionIdx := key.value.GetOr(card.positionIdx));
      cards := cards[id := card];
      r := Success(card);
    }

    /** The key an update sets, if any. */
    method PlaceUpdate(org: Id, id: Id, fromListId: Id, targetListId: Id, dto: UpdateDto)
      returns (r: Result<Option<Str>, PlacementError>)
      requires positions.Valid()
      ensures
        if dto.beforeCardId.Some? || dto.afterCardId.Some? then
          r == KeySet(KeyFromNeighbors(positions, cards, org, id, targetListId, dto.beforeCardId, dto.afterCardId))
        else if dto.positionIdx.Some? then
          r == if positions.IsValidKey(dto.positionIdx.value) then Success(dto.positionIdx) else Failure(InvalidKey)
        else if targetListId != fromListId then
          exists last :: IsLastKey(cards, org, targetListId, last) &&
                         r == KeySet(Minted(positions.IntermediateKey(last, None)))
        else r == Success(None)
    {
      if dto.beforeCardId.Some? || dto.afterCardId.Some? {
        var key := ResolvePositionFromNeighbors(org, id, targetListId, dto.beforeCardId, dto.afterCardId);
        return KeySet(key);
      }
      if dto.positionIdx.Some? {
        return if positions.IsValidKey(dto.positionIdx.value) then Success(dto.positionIdx) else Failure(InvalidKey);
      }
      if targetListId != fromListId {
        var key := ResolvePosition(org, targetListId, None);
        return KeySet(key);
      }
      return Success(None);
    }
  }

  function KeySet(key: Result<Str, PlacementError>): Result<Option<Str>, PlacementError> {
    if key.Success? then Success(Some(key.value)) else Failure(key.error)
  }

  /** The key that a successful update left on the card. */
  function Placed(r: Result<Row, PlacementError>): Result<Str, PlacementError> {
    if r.Success? then Success(r.value.positionIdx) else Failure(r.error)
  }
}
