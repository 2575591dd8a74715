/**
 * The nightly rebalance job: under one advisory lock and in one transaction, every column that
 * holds an over-long key is re-read in (position, created, id) order and re-spread.
 */
module RebalanceJob {
  import opened Wrappers
  import opened Text
  import opened FractionalIndexing
  import opened KeyRebalancing

  type Id = Str

  const MAX_KEY_LENGTH := 32

  /** A list or card row; `parent` is its board or list, `org` what row-level security sees. */
  datatype Row = Row(org: Id, parent: Id, positionIdx: Str, createdAt: int)

  type Table = map<Id, Row>

  /** `ORDER BY position_idx ASC, created_at ASC, id ASC`, byte-wise. */
  predicate RowBefore(table: Table, a: Id, b: Id)
    requires a in table && b in table
  {
    var r, s := table[a], table[b];
    || Less(r.positionIdx, s.positionIdx)
    || (r.positionIdx == s.positionIdx && r.createdAt < s.createdAt)
    || (r.positionIdx == s.positionIdx && r.createdAt == s.createdAt && Less(a, b))
  }

  lemma RowOrderIsStrictTotal(table: Table, a: Id, b: Id, c: Id)
    requires a in table && b in table && c in table
    ensures !RowBefore(table, a, a)
    ensures a == b || RowBefore(table, a, b) || RowBefore(table, b, a)
    ensures RowBefore(table, a, b) && RowBefore(table, b, c) ==> RowBefore(table, a, c)
  {
    var p, q, r := table[a].positionIdx, table[b].positionIdx, table[c].positionIdx;
    LessIrreflexive(p);
    LessIrreflexive(a);
    LessTotal(p, q);
    LessTotal(a, b);
    if Less(p, q) && Less(q, r) {
      LessTransitive(p, q, r);
    }
    if Less(a, b) && Less(b, c) {
      LessTransitive(a, b, c);
    }
  }

  ghost predicate IsFirst(table: Table, ids: set<Id>, m: Id)
    requires ids <= table.Keys
  {
    m in ids && forall x :: x in ids && x != m ==> RowBefore(table, m, x)
  }

  lemma {:induction false} FirstExists(table: Table, ids: set<Id>) returns (m: Id)
    requires ids <= table.Keys && ids != {}
    ensures IsFirst(table, ids, m)
  {
    var y :| y in ids;
    if ids == {y} {
      m := y;
    } else {
      m := FirstExists(table, ids - {y});
      RowOrderIsStrictTotal(table, m, y, m);
      if RowBefore(table, y, m) {
        forall x | x in ids && x != y ensures RowBefore(table, y, x) {
          RowOrderIsStrictTotal(table, y, m, x);
        }
        m := y;
      }
    }
  }

  /** The ids of the rows in the order in which the database returns them. */
  ghost function SortedIds(table: Table, ids: set<Id>): seq<Id>
    requires ids <= table.Keys
    decreases |ids|
  {
    if ids == {} then []
    else
      assert exists m :: IsFirst(table, ids, m) by { var m := FirstExists(table, ids); }
      var m :| IsFirst(table, ids, m);
      [m] + SortedIds(table, ids - {m})
  }

  ghost predicate IsListing(table: Table, ids: set<Id>, s: seq<Id>)
    requires ids <= table.Keys
  {
    && (forall x :: x in s <==> x in ids)
    && (forall i, j :: 0 <= i < j < |s| ==> RowBefore(table, s[i], s[j]))
  }

  lemma {:induction false} SortedIdsIsListing(table: Table, ids: set<Id>)
    requires ids <= table.Keys
    ensures IsListing(table, ids, SortedIds(table, ids))
    ensures |SortedIds(table, ids)| == |ids|
    decreases |ids|
  {
    if ids != {} {
      var s := SortedIds(table, ids);
      SortedIdsIsListing(table, ids - {s[0]});
      assert s[1..] == SortedIds(table, ids - {s[0]});
      forall i, j | 0 <= i < j < |s| ensures RowBefore(table, s[i], s[j]) {
        if i == 0 {
          assert s[j] == s[1..][j - 1];
        } else {
          assert s[i] == s[1..][i - 1] && s[j] == s[1..][j - 1];
        }
      }
      forall x ensures x in s <==> x in ids {
        assert x in s <==> x == s[0] || x in s[1..];
      }
    }
  }

  lemma ListingIsDistinct(table: Table, ids: set<Id>, s: seq<Id>)
    requires ids <= table.Keys && IsListing(table, ids, s)
    ensures forall i, j :: 0 <= i < j < |s| ==> s[i] != s[j]
  {
    forall i, j | 0 <= i < j < |s| ensures s[i] != s[j] {
      RowOrderIsStrictTotal(table, s[i], s[j], s[i]);
    }
  }

  /** Sorting has one answer: a listing in row order is the sorted one. */
  lemma {:induction false} ListingIsUnique(table: Table, ids: set<Id>, s: seq<Id>)
    requires ids <= table.Keys && IsListing(table, ids, s)
    ensures s == SortedIds(table, ids)
    decreases |ids|
  {
    if s == [] {
      assert ids == {};
    } else {
      assert s[0] in ids;
      var m := SortedIds(table, ids)[0];
      assert m in s;
      ListingIsDistinct(table, ids, s);
      var k :| 0 <= k < |s| && s[k] == m;
      if k > 0 {
        RowOrderIsStrictTotal(table, s[0], m, s[0]);
        assert false;
      }
      var rest := s[1..];
      assert s == [m] + rest;
      assert forall j :: 0 <= j < |rest| ==> rest[j] == s[j + 1] != m;
      ListingIsUnique(table, ids - {m}, rest);
    }
  }

  /** The `SELECT id ... ORDER BY` of one column. */
  method SelectOrdered(table: Table, ids: set<Id>) returns (s: seq<Id>)
    requires ids <= table.Keys
    ensures s == SortedIds(table, ids)
  {
    s := [];
    var rest := ids;
    while rest != {}
      invariant rest <= ids
      invariant forall x :: x in s <==> x in ids && x !in rest
      invariant forall i, j :: 0 <= i < j < |s| ==> RowBefore(table, s[i], s[j])
      invariant forall x, y :: x in s && y in rest ==> RowBefore(table, x, y)
      decreases rest
    {
      ghost var first := FirstExists(table, rest);
      var m :| m in rest && forall x :: x in rest && x != m ==> RowBefore(table, m, x);
      s := s + [m];
      rest := rest - {m};
    }
    ListingIsUnique(table, ids, s);
  }

  ghost function ColumnIds(table: Table, org: Id, parent: Id): set<Id> {
    set id | id in table && table[id].org == org && table[id].parent == parent
  }

  ghost predicate Overlong(table: Table, org: Id, parent: Id) {
    exists id :: id in ColumnIds(table, org, parent) && |table[id].positionIdx| > MAX_KEY_LENGTH
  }

  /** Row `ids[i]` takes `keys[i]`; nothing else changes. */
  ghost predicate Assigned(before: Table, after: Table, ids: seq<Id>, keys: seq<Str>) {
    && after.Keys == before.Keys
    && |ids| == |keys|
    && (forall i :: 0 <= i < |ids| ==>
          ids[i] in before && after[ids[i]] == before[ids[i]].(positionIdx := keys[i]))
    && (forall id :: id in before && id !in ids ==> after[id] == before[id])
  }

  /** Row `rows[i]` holds `keys[i]` and is otherwise as before. */
  ghost predicate HandedOut(before: Table, after: Table, rows: seq<Id>, keys: Result<seq<Str>, IndexerError>) {
    && keys.Success?
    && |keys.value| == |rows|
    && forall i :: 0 <= i < |rows| ==>
         && rows[i] in before && rows[i] in after
         && after[rows[i]] == before[rows[i]].(positionIdx := keys.value[i])
  }

  /** What the job owes one column: the fresh keys of its size, handed out in row order. */
  ghost predicate Respread(ix: Indexer, before: Table, after: Table, org: Id, parent: Id)
    requires ix.Valid()
  {
    var rows := SortedIds(before, ColumnIds(before, org, parent));
    HandedOut(before, after, rows, Rebalanced(ix, |rows|, None))
  }

  ghost predicate ColumnUntouched(before: Table, after: Table, org: Id, parent: Id) {
    forall id :: id in ColumnIds(before, org, parent) ==> id in after && after[id] == before[id]
  }

  /** One pass over a table as seen from `org`. */
  ghost predicate TablePassed(ix: Indexer, before: Table, after: Table, org: Id)
    requires ix.Valid()
  {
    && after.Keys == before.Keys
    && forall o, p ::
         if o == org && Overlong(before, o, p) then Respread(ix, before, after, o, p)
         else ColumnUntouched(before, after, o, p)
  }

  /** The batched `UPDATE ... FROM unnest(ids, keys)`. */
  method UpdateKeys(table: Table, ids: seq<Id>, keys: seq<Str>) returns (after: Table)
    requires |ids| == |keys|
    requires forall id :: id in ids ==> id in table
    requires forall i, j :: 0 <= i < j < |ids| ==> ids[i] != ids[j]
    ensures Assigned(table, after, ids, keys)
  {
    after := table;
    for k := 0 to |ids|
      invariant after.Keys == table.Keys
      invariant forall i :: 0 <= i < k ==> after[ids[i]] == table[ids[i]].(positionIdx := keys[i])
      invariant forall id :: id in table && id !in ids[..k] ==> after[id] == table[id]
    {
      assert ids[k] !in ids[..k];
      assert ids[..k + 1] == ids[..k] + [ids[k]];
      after := after[ids[k] := after[ids[k]].(positionIdx := keys[k])];
    }
    assert ids[..|ids|] == ids;
  }

  /** The column is not too large for a safe key space. */
  ghost predicate Spreadable(ix: Indexer, table: Table, org: Id, parent: Id)
    requires ix.Valid()
  {
    Rebalanced(ix, |ColumnIds(table, org, parent)|, None).Success?
  }

  /** Rows outside `done` columns are as before; those in them are re-spread. */
  ghost predicate Progress(ix: Indexer, before: Table, after: Table, org: Id, done: set<Id>)
    requires ix.Valid()
  {
    && after.Keys == before.Keys
    && (forall p :: p in done ==> Respread(ix, before, after, org, p))
    && (forall id :: id in before && !(before[id].org == org && before[id].parent in done) ==>
          after[id] == before[id])
  }

  /** The turn of the loop of `rebalanceTable` for one parent. */
  method RebalanceColumn(ix: Indexer, table: Table, org: Id, parent: Id) returns (r: Result<Table, IndexerError>)
    requires ix.Valid()
    ensures r.Success? <==> Spreadable(ix, table, org, parent)
    ensures r.Success? ==> Progress(ix, table, r.value, org, {parent})
  {
    var ids := set id | id in table && table[id].org == org && table[id].parent == parent;
    assert ids == ColumnIds(table, org, parent);
    var rows := SelectOrdered(table, ids);
    SortedIdsIsListing(table, ids);
    ListingIsDistinct(table, ids, rows);
    var keys := Rebalance(ix, |rows|, None);
    if keys.Failure? {
      return Failure(keys.error);
    }
    var spread := keys.value;
    SpreadHasCount(ix, |rows|, spread);
    var after := UpdateKeys(table, rows, spread);
    AssignedIsProgress(ix, table, after, org, parent, spread);
    r := Success(after);
  }

  lemma SpreadHasCount(ix: Indexer, count: nat, keys: seq<Str>)
    requires ix.Valid() && Rebalanced(ix, count, None) == Success(keys)
    ensures |keys| == count
  {
    RebalancedKeysAreSpread(ix, count, None);
  }

  lemma AssignedIsProgress(ix: Indexer, before: Table, after: Table, org: Id, parent: Id, keys: seq<Str>)
    requires ix.Valid()
    requires var rows := SortedIds(before, ColumnIds(before, org, parent));
      Rebalanced(ix, |rows|, None) == Success(keys) && Assigned(before, after, rows, keys)
    ensures Progress(ix, before, after, org, {parent})
  {
    var ids := ColumnIds(before, org, parent);
    SortedIdsIsListing(before, ids);
    AssignedIsHandedOut(before, after, SortedIds(before, ids), keys);
  }

  lemma AssignedIsHandedOut(before: Table, after: Table, rows: seq<Id>, keys: seq<Str>)
    requires Assigned(before, after, rows, keys)
    ensures HandedOut(before, after, rows, Success(keys))
  {
  }

  /** Columns are disjoint, so re-spreading one more keeps the others. */
  lemma ProgressStep(ix: Indexer, before: Table, mid: Table, after: Table, org: Id, done: set<Id>, p: Id)
    requires ix.Valid() && p !in done
    requires Progress(ix, before, mid, org, done) && Progress(ix, mid, after, org, {p})
    ensures Progress(ix, before, after, org, done + {p})
  {
    RowsStay(ix, before, mid, org, done);
    forall q | q in done + {p} ensures Respread(ix, before, after, org, q) {
      if q == p {
        RespreadSince(ix, before, mid, after, org, p);
      } else {
        RespreadStays(ix, before, mid, after, org, q);
      }
    }
  }

  lemma RespreadSince(ix: Indexer, before: Table, mid: Table, after: Table, org: Id, p: Id)
    requires ix.Valid() && mid.Keys == before.Keys && Respread(ix, mid, after, org, p)
    requires forall id :: id in before ==> mid[id] == before[id].(positionIdx := mid[id].positionIdx)
    requires forall id :: id in before && before[id].org == org && before[id].parent == p ==> mid[id] == before[id]
    ensures Respread(ix, before, after, org, p)
  {
    var ids := ColumnIds(before, org, p);
    assert ids == ColumnIds(mid, org, p);
    SameRowsSameOrder(before, mid, ids);
    var rows := SortedIds(before, ids);
    SortedIdsIsListing(before, ids);
    HandedOutSince(before, mid, after, rows, Rebalanced(ix, |rows|, None));
  }

  lemma HandedOutSince(before: Table, mid: Table, after: Table, rows: seq<Id>, keys: Result<seq<Str>, IndexerError>)
    requires HandedOut(mid, after, rows, keys)
    requires forall id :: id in rows ==> id in before && id in mid && mid[id] == before[id]
    ensures HandedOut(before, after, rows, keys)
  {
  }

  lemma RespreadStays(ix: Indexer, before: Table, mid: Table, after: Table, org: Id, q: Id)
    requires ix.Valid() && Respread(ix, before, mid, org, q)
    requires after.Keys == mid.Keys == before.Keys
    requires forall id :: id in before && before[id].org == org && before[id].parent == q ==> after[id] == mid[id]
    ensures Respread(ix, before, after, org, q)
  {
    var ids := ColumnIds(before, org, q);
    SortedIdsIsListing(before, ids);
    var rows := SortedIds(before, ids);
    HandedOutStays(before, mid, after, rows, Rebalanced(ix, |rows|, None));
  }

  lemma HandedOutStays(before: Table, mid: Table, after: Table, rows: seq<Id>, keys: Result<seq<Str>, IndexerError>)
    requires HandedOut(before, mid, rows, keys)
    requires after.Keys == mid.Keys
    requires forall id :: id in rows && id in mid ==> after[id] == mid[id]
    ensures HandedOut(before, after, rows, keys)
  {
  }

  /** Only positions change. */
  lemma RowsStay(ix: Indexer, before: Table, after: Table, org: Id, done: set<Id>)
    requires ix.Valid() && Progress(ix, before, after, org, done)
    ensures forall id :: id in before ==> after[id] == before[id].(positionIdx := after[id].positionIdx)
  {
    forall id | id in before ensures after[id] == before[id].(positionIdx := after[id].positionIdx) {
      if before[id].org == org && before[id].parent in done {
        var ids := ColumnIds(before, org, before[id].parent);
        assert Respread(ix, before, after, org, before[id].parent);
        SortedIdsIsListing(before, ids);
        assert id in SortedIds(before, ids);
      }
    }
  }

  /** The parents of the columns that hold an over-long key. */
  ghost function OverlongParents(table: Table, org: Id): (parents: set<Id>)
    ensures forall p :: p in parents <==> Overlong(table, org, p)
  {
    var parents := set id | id in table && table[id].org == org && |table[id].positionIdx| > MAX_KEY_LENGTH
      :: table[id].parent;
    assert forall p :: Overlong(table, org, p) ==> p in parents by {
      forall p | Overlong(table, org, p) ensures p in parents {
        var id :| id in ColumnIds(table, org, p) && |table[id].positionIdx| > MAX_KEY_LENGTH;
        assert table[id].parent == p;
      }
    }
    assert forall p :: p in parents ==> Overlong(table, org, p) by {
      forall p | p in parents ensures Overlong(table, org, p) {
        var id :|
          id in table && table[id].org == org && |table[id].positionIdx| > MAX_KEY_LENGTH && table[id].parent == p;
        assert id in ColumnIds(table, org, p);
      }
    }
    parents
  }

  /** The `SELECT DISTINCT` of the columns that hold an over-long key. */
  method SelectOverlong(table: Table, org: Id) returns (parents: seq<Id>)
    ensures forall i, j :: 0 <= i < j < |parents| ==> parents[i] != parents[j]
    ensures forall p :: p in parents <==> Overlong(table, org, p)
  {
    var todo := set id | id in table && table[id].org == org && |table[id].positionIdx| > MAX_KEY_LENGTH;
    parents := [];
    while todo != {}
      invariant forall id :: id in todo ==> id in table && id in ColumnIds(table, org, table[id].parent)
      invariant forall id :: id in todo ==> |table[id].positionIdx| > MAX_KEY_LENGTH
      invariant forall p :: Overlong(table, org, p) ==> p in parents || exists id :: id in todo && table[id].parent == p
      invariant forall p :: p in parents ==> Overlong(table, org, p)
      invariant forall i, j :: 0 <= i < j < |parents| ==> parents[i] != parents[j]
      decreases todo
    {
      var id :| id in todo;
      todo := todo - {id};
      if table[id].parent !in parents {
        parents := parents + [table[id].parent];
      }
    }
  }

  /** `rebalanceTable` under the tenant setting `org`. */
  method RebalanceTable(ix: Indexer, table: Table, org: Id)
    returns (r: Result<(Table, nat), IndexerError>)
    requires ix.Valid()
    ensures r.Success? ==> TablePassed(ix, table, r.value.0, org) && r.value.1 == |OverlongParents(table, org)|
    ensures r.Success? <==> forall p :: Overlong(table, org, p) ==> Spreadable(ix, table, org, p)
  {
    var parents := SelectOverlong(table, org);
    var after := table;
    ghost var done: set<Id> := {};
    for k := 0 to |parents|
      invariant forall p :: p in done <==> p in parents[..k]
      invariant Progress(ix, table, after, org, done)
      invariant forall p :: p in done ==> Spreadable(ix, table, org, p)
    {
      assert parents[..k + 1] == parents[..k] + [parents[k]];
      var column := RebalanceNext(ix, table, after, org, done, parents[k]);
      if column.Failure? {
        assert parents[k] in parents;
        return Failure(column.error);
      }
      after, done := column.value, done + {parents[k]};
    }
    assert parents[..|parents|] == parents;
    ProgressIsPass(ix, table, after, org, done);
    assert done == OverlongParents(table, org);
    DistinctCount(parents, done);
    r := Success((after, |parents|));
  }

  lemma {:induction false} DistinctCount(s: seq<Id>, members: set<Id>)
    requires forall i, j :: 0 <= i < j < |s| ==> s[i] != s[j]
    requires forall x :: x in members <==> x in s
    ensures |members| == |s|
  {
    if s == [] {
      assert members == {};
    } else {
      var rest, last := s[..|s| - 1], s[|s| - 1];
      assert s == rest + [last];
      DistinctCount(rest, members - {last});
    }
  }

  method RebalanceNext(ix: Indexer, ghost before: Table, table: Table, org: Id, ghost done: set<Id>, parent: Id)
    returns (r: Result<Table, IndexerError>)
    requires ix.Valid() && Progress(ix, before, table, org, done) && parent !in done
    ensures r.Success? <==> Spreadable(ix, before, org, parent)
    ensures r.Success? ==> Progress(ix, before, r.value, org, done + {parent})
  {
    ColumnIdsStay(ix, before, table, org, done, parent);
    r := RebalanceColumn(ix, table, org, parent);
    if r.Success? {
      ProgressStep(ix, before, table, r.value, org, done, parent);
    }
  }

  lemma ColumnIdsStay(ix: Indexer, before: Table, after: Table, org: Id, done: set<Id>, p: Id)
    requires ix.Valid() && Progress(ix, before, after, org, done)
    ensures ColumnIds(after, org, p) == ColumnIds(before, org, p)
  {
    RowsStay(ix, before, after, org, done);
  }

  lemma ProgressIsPass(ix: Indexer, before: Table, after: Table, org: Id, done: set<Id>)
    requires ix.Valid() && Progress(ix, before, after, org, done)
    requires forall p :: p in done <==> Overlong(before, org, p)
    ensures TablePassed(ix, before, after, org)
  {
  }

  lemma SameRowsSameOrder(before: Table, after: Table, ids: set<Id>)
    requires ids <= before.Keys && ids <= after.Keys
    requires forall id :: id in ids ==> after[id] == before[id]
    ensures SortedIds(after, ids) == SortedIds(before, ids)
  {
    SortedIdsIsListing(after, ids);
    ListingIsUnique(before, ids, SortedIds(after, ids));
  }

  // --- what a pass means -----------------------------------------------------

  /** Handing strictly increasing keys out along a listing makes it the listing by key. */
  lemma IncreasingKeysSort(before: Table, after: Table, ids: set<Id>, s: seq<Id>, keys: seq<Str>)
    requires ids <= before.Keys && ids <= after.Keys && IsListing(before, ids, s)
    requires |s| == |keys| && StrictlySorted(keys)
    requires forall i :: 0 <= i < |s| ==> s[i] in after && after[s[i]].positionIdx == keys[i]
    ensures SortedIds(after, ids) == s
    ensures forall x, y :: x in ids && y in ids && x != y ==> after[x].positionIdx != after[y].positionIdx
  {
    forall i, j | 0 <= i < j < |s| ensures RowBefore(after, s[i], s[j]) {
      assert Less(keys[i], keys[j]);
    }
    ListingIsUnique(after, ids, s);
    forall x, y | x in ids && y in ids && x != y ensures after[x].positionIdx != after[y].positionIdx {
      assert x in s && y in s;
      var i :| 0 <= i < |s| && s[i] == x;
      var j :| 0 <= j < |s| && s[j] == y;
      LessIrreflexive(keys[i]);
    }
  }

  /**
   * A re-spread column keeps its (position, created, id) order exactly, whatever collisions it
   * had; its keys become distinct, well-formed and short.
   */
  lemma RespreadKeepsOrder(ix: Indexer, before: Table, after: Table, org: Id, parent: Id)
    requires ix.Valid() && |ix.alphabet| == 62
    requires after.Keys == before.Keys && Respread(ix, before, after, org, parent)
    ensures var ids := ColumnIds(before, org, parent);
      && SortedIds(after, ids) == SortedIds(before, ids)
      && (forall x, y :: x in ids && y in ids && x != y ==> after[x].positionIdx != after[y].positionIdx)
      && (forall x :: x in ids ==> |after[x].positionIdx| <= 8 && ix.WellFormed(after[x].positionIdx))
  {
    var ids := ColumnIds(before, org, parent);
    var s := SortedIds(before, ids);
    SortedIdsIsListing(before, ids);
    RebalancedKeysAreSpread(ix, |s|, None);
    RebalancedKeysAreShort(ix, |s|);
    var keys := Rebalanced(ix, |s|, None).value;
    IncreasingKeysSort(before, after, ids, s, keys);
    forall x | x in ids ensures |after[x].positionIdx| <= 8 && ix.WellFormed(after[x].positionIdx) {
      assert x in s;
      var i :| 0 <= i < |s| && s[i] == x;
      assert keys[i] in keys;
    }
  }

  // --- the whole job -----------------------------------------------------------

  /** What the passes for the tenants in `orgs` amount to, taken together. */
  ghost predicate TenantsPassed(ix: Indexer, before: Table, after: Table, orgs: set<Id>)
    requires ix.Valid()
  {
    && after.Keys == before.Keys
    && (forall id :: id in before ==> after[id] == before[id].(positionIdx := after[id].positionIdx))
    && forall o, p :: ColumnPassed(ix, before, after, orgs, o, p)
  }

  /** `before` to `after` over one column, for the tenants in `orgs`. */
  ghost predicate ColumnPassed(ix: Indexer, before: Table, after: Table, orgs: set<Id>, o: Id, p: Id)
    requires ix.Valid()
  {
    if o in orgs && Overlong(before, o, p) then Respread(ix, before, after, o, p)
    else ColumnUntouched(before, after, o, p)
  }

  lemma TenantStep(ix: Indexer, before: Table, mid: Table, after: Table, orgs: set<Id>, org: Id)
    requires ix.Valid() && org !in orgs
    requires TenantsPassed(ix, before, mid, orgs) && TablePassed(ix, mid, after, org)
    ensures TenantsPassed(ix, before, after, orgs + {org})
  {
    PassKeepsRows(ix, mid, after, org);
    forall o, p ensures ColumnPassed(ix, before, after, orgs + {org}, o, p) {
      assert ColumnIds(before, o, p) == ColumnIds(mid, o, p);
      assert ColumnPassed(ix, before, mid, orgs, o, p);
      if o == org {
        OwnColumnStep(ix, before, mid, after, orgs, org, p);
      } else {
        assert ColumnUntouched(mid, after, o, p);
        OtherColumnStep(ix, before, mid, after, orgs, o, p);
      }
    }
  }

  /** A column of another tenant stays as the earlier passes left it. */
  lemma OtherColumnStep(ix: Indexer, before: Table, mid: Table, after: Table, orgs: set<Id>, o: Id, p: Id)
    requires ix.Valid() && before.Keys == mid.Keys == after.Keys
    requires ColumnPassed(ix, before, mid, orgs, o, p) && ColumnUntouched(mid, after, o, p)
    requires ColumnIds(before, o, p) == ColumnIds(mid, o, p)
    ensures ColumnPassed(ix, before, after, orgs, o, p)
  {
    if o in orgs && Overlong(before, o, p) {
      forall id | id in before && before[id].org == o && before[id].parent == p ensures after[id] == mid[id] {
        assert id in ColumnIds(before, o, p);
      }
      RespreadStays(ix, before, mid, after, o, p);
    } else {
      forall id | id in ColumnIds(before, o, p) ensures id in after && after[id] == before[id] {
        assert id in mid && mid[id] == before[id];
      }
    }
  }

  /** A column of the tenant being visited, which no earlier tenant's pass touched. */
  lemma OwnColumnStep(ix: Indexer, before: Table, mid: Table, after: Table, orgs: set<Id>, org: Id, p: Id)
    requires ix.Valid() && org !in orgs
    requires TenantsPassed(ix, before, mid, orgs) && TablePassed(ix, mid, after, org)
    requires ColumnIds(before, org, p) == ColumnIds(mid, org, p)
    ensures if Overlong(before, org, p) then Respread(ix, before, after, org, p)
            else ColumnUntouched(before, after, org, p)
  {
    assert ColumnPassed(ix, before, mid, orgs, org, p);
    assert ColumnUntouched(before, mid, org, p);
    if Overlong(before, org, p) {
      assert Overlong(mid, org, p);
      RespreadSince(ix, before, mid, after, org, p);
    } else {
      assert !Overlong(mid, org, p);
      assert ColumnUntouched(mid, after, org, p);
    }
  }

  lemma PassKeepsRows(ix: Indexer, before: Table, after: Table, org: Id)
    requires ix.Valid() && TablePassed(ix, before, after, org)
    ensures forall id :: id in before ==>
      && after[id] == before[id].(positionIdx := after[id].positionIdx)
      && (before[id].org != org ==> after[id] == before[id])
  {
    forall id | id in before
      ensures after[id] == before[id].(positionIdx := after[id].positionIdx)
      ensures before[id].org != org ==> after[id] == before[id]
    {
      var o, p := before[id].org, before[id].parent;
      assert id in ColumnIds(before, o, p);
      if o == org && Overlong(before, o, p) {
        SortedIdsIsListing(before, ColumnIds(before, o, p));
        assert id in SortedIds(before, ColumnIds(before, o, p));
      } else {
        assert ColumnUntouched(before, after, o, p);
      }
    }
  }

  /**
   * After the job, over every tenant it visited: no visible key is over-long, every column keeps
   * its row order exactly, and columns without an over-long key keep their keys.
   */
  lemma JobKeepsOrder(ix: Indexer, before: Table, after: Table, orgs: set<Id>, org: Id, parent: Id)
    requires ix.Valid() && |ix.alphabet| == 62 && TenantsPassed(ix, before, after, orgs)
    ensures var ids := ColumnIds(before, org, parent);
      && ColumnIds(after, org, parent) == ids
      && SortedIds(after, ids) == SortedIds(before, ids)
      && (org in orgs ==> !Overlong(after, org, parent))
      && (org !in orgs || !Overlong(before, org, parent) ==> ColumnUntouched(before, after, org, parent))
  {
    var ids := ColumnIds(before, org, parent);
    assert ColumnIds(after, org, parent) == ids;
    assert ColumnPassed(ix, before, after, orgs, org, parent);
    if org in orgs && Overlong(before, org, parent) {
      RespreadKeepsOrder(ix, before, after, org, parent);
    } else {
      assert ColumnUntouched(before, after, org, parent);
      SameRowsSameOrder(before, after, ids);
    }
  }

  /** Over-long columns of all tenants together. */
  ghost function OverlongTotal(table: Table, orgs: seq<Id>): nat {
    if orgs == [] then 0
    else OverlongTotal(table, orgs[..|orgs| - 1]) + |OverlongParents(table, orgs[|orgs| - 1])|
  }

  /** A tenant not visited yet has the over-long columns it started with. */
  lemma UnvisitedParents(ix: Indexer, before: Table, mid: Table, orgs: set<Id>, org: Id)
    requires ix.Valid() && TenantsPassed(ix, before, mid, orgs) && org !in orgs
    ensures OverlongParents(mid, org) == OverlongParents(before, org)
  {
    forall p ensures Overlong(mid, org, p) <==> Overlong(before, org, p) {
      assert ColumnPassed(ix, before, mid, orgs, org, p);
      assert ColumnIds(mid, org, p) == ColumnIds(before, org, p);
      assert forall id :: id in ColumnIds(before, org, p) ==> mid[id] == before[id];
    }
  }

  datatype Report = Report(lists: nat, cards: nat, skipped: bool)

  /** The service together with the two tables its transaction rewrites. */
  class PositionRebalanceService {
    const positions: Indexer
    var lists: Table
    var cards: Table

    constructor (positions: Indexer, lists: Table, cards: Table)
      requires positions.Valid()
      ensures this.positions == positions && this.lists == lists && this.cards == cards
    {
      this.positions, this.lists, this.cards := positions, lists, cards;
    }

    /** `rebalanceOverlongColumns`: skipped without the lock, rolled back when a column throws. */
    method RebalanceOverlongColumns(locked: bool, orgs: seq<Id>) returns (r: Result<Report, IndexerError>)
      requires positions.Valid()
      requires forall i, j :: 0 <= i < j < |orgs| ==> orgs[i] != orgs[j]
      modifies this
      ensures !locked ==> r == Success(Report(0, 0, true))
      ensures !locked || r.Failure? ==> lists == old(lists) && cards == old(cards)
      ensures locked && r.Success? ==>
        && TenantsPassed(positions, old(lists), lists, set o | o in orgs)
        && TenantsPassed(positions, old(cards), cards, set o | o in orgs)
        && r.value == Report(OverlongTotal(old(lists), orgs), OverlongTotal(old(cards), orgs), false)
    {
      if !locked {
        return Success(Report(0, 0, true));
      }
      var newLists, newCards := lists, cards;
      var listCount, cardCount := 0, 0;
      ghost var done: set<Id> := {};
      for k := 0 to |orgs|
        invariant lists == old(lists) && cards == old(cards)
        invariant forall o :: o in done <==> o in orgs[..k]
        invariant TenantsPassed(positions, old(lists), newLists, done)
        invariant TenantsPassed(positions, old(cards), newCards, done)
        invariant listCount == OverlongTotal(lists, orgs[..k]) && cardCount == OverlongTotal(cards, orgs[..k])
      {
        assert orgs[..k + 1] == orgs[..k] + [orgs[k]];
        var l := RebalanceTable(positions, newLists, orgs[k]);
        if l.Failure? {
          return Failure(l.error);
        }
        var c := RebalanceTable(positions, newCards, orgs[k]);
        if c.Failure? {
          return Failure(c.error);
        }
        UnvisitedParents(positions, lists, newLists, done, orgs[k]);
        UnvisitedParents(positions, cards, newCards, done, orgs[k]);
        assert orgs[..k + 1][..k] == orgs[..k];
        TenantStep(positions, old(lists), newLists, l.value.0, done, orgs[k]);
        TenantStep(positions, old(cards), newCards, c.value.0, done, orgs[k]);
        newLists, newCards := l.value.0, c.value.0;
        listCount, cardCount := listCount + l.value.1, cardCount + c.value.1;
        done := done + {orgs[k]};
      }
      assert orgs[..|orgs|] == orgs;
      assert done == set o | o in orgs;
      lists, cards := newLists, newCards;
      r := Success(Report(listCount, cardCount, false));
    }
  }
}
