/** The change loop of the `/sync` endpoint: sanitise, merge, write back, accept, echo. */
module ServerSync {
  import opened Wrappers
  import opened Text
  import opened SyncLattice
  import opened ServerMerge

  /** An id as a client spells it; and the key of the row that the database finds for it. */
  type Id = Str
  type RowId = Str

  /** One record's change as received; a clock that is not a finite number is `None`. */
  datatype Change = Change(id: Id, fields: map<Field, Json>, clocks: map<Field, Option<Stamp>>,
                           nodeId: Str, deletedAt: Option<Stamp>)

  /** A record sent back to the client, under the id it used. */
  datatype Echo = Echo(id: Id, state: RecordState)

  datatype Response = Response(changes: seq<Echo>, acceptedIds: seq<Id>)

  /**
   * What depends on the collection and the database: the synced fields, which values pass their
   * checks (position keys, parents in the tenant), which row an id names (a `uuid` column ignores
   * letter case), and what an unseen id would be inserted as, if anything.
   */
  datatype Strategy = Strategy(syncFields: set<Field>, accepts: (Field, Json) -> bool,
                               rowOf: Id -> RowId, tryInsert: Change -> Option<RecordState>)

  type Rows = map<RowId, RecordState>

  /** `uuid` comparison: upper-case letters are the same as lower-case ones. */
  function FoldCase(s: Str): Str {
    seq(|s|, i requires 0 <= i < |s| => var u: int := s[i]; if 65 <= u <= 90 then u + 32 else u)
  }

  // --- sanitizeClientChange -------------------------------------------------------

  /** Accepted fields only, and clocks only for those: a dropped field drops its clock. */
  function Sanitized(strategy: Strategy, c: Change): RecordState {
    var fields := map f | f in strategy.syncFields && f in c.fields && strategy.accepts(f, c.fields[f]) :: c.fields[f];
    RecordState(
      fields,
      map f | f in fields.Keys && f in c.clocks && c.clocks[f].Some? :: c.clocks[f].value,
      Some(c.nodeId), c.deletedAt)
  }

  /** The loop of `sanitizeClientChange`. */
  method Sanitize(strategy: Strategy, c: Change) returns (r: RecordState)
    ensures r == Sanitized(strategy, c)
  {
    var fields: map<Field, Json>, clocks: map<Field, Stamp> := map[], map[];
    var todo := strategy.syncFields;
    ghost var spec := Sanitized(strategy, c);
    while todo != {}
      invariant todo <= strategy.syncFields
      invariant forall f :: f in fields <==> f in spec.fields && f !in todo
      invariant forall f :: f in fields ==> fields[f] == spec.fields[f]
      invariant forall f :: f in clocks <==> f in spec.clocks && f !in todo
      invariant forall f :: f in clocks ==> clocks[f] == spec.clocks[f]
      decreases todo
    {
      var field :| field in todo;
      todo := todo - {field};
      if field !in c.fields || !strategy.accepts(field, c.fields[field]) {
        continue;
      }
      fields := fields[field := c.fields[field]];
      if field in c.clocks && c.clocks[field].Some? {
        clocks := clocks[field := c.clocks[field].value];
      }
    }
    assert fields == spec.fields && clocks == spec.clocks;
    r := RecordState(fields, clocks, Some(c.nodeId), c.deletedAt);
  }

  /** What survives is synced, accepted and as sent, and no clock comes without its field. */
  lemma SanitizedShape(strategy: Strategy, c: Change)
    ensures var r := Sanitized(strategy, c);
      && r.fields.Keys <= strategy.syncFields
      && NoStray(r)
      && (forall f :: f in r.fields ==> strategy.accepts(f, r.fields[f]) && f in c.fields && r.fields[f] == c.fields[f])
  {
  }

  /** The cell that a change offers for a field of it: the value with its clock, or with stamp 0. */
  function OfferedCell(c: Change, f: Field): Cell
    requires f in c.fields
  {
    Cell(if f in c.clocks then c.clocks[f].GetOr(0.0) else 0.0, c.fields[f])
  }

  /**
   * So a row's fields only ever change to accepted values that the client sent, and to those exactly
   * where they win; a field it omitted, or whose value was dropped, keeps its value, even where the
   * merge lets it win.
   */
  lemma OnlySentValuesAreStored(strategy: Strategy, s: RecordState, c: Change, f: Field)
    requires s.fields.Keys == strategy.syncFields && NoStray(s) && f in s.fields
    ensures var t := Stored(s, Sanitized(strategy, c));
      && f in t.fields
      && (if f in c.fields && strategy.accepts(f, c.fields[f])
          then CellAt(t, f) == MaxCell(CellAt(s, f), OfferedCell(c, f))
          else t.fields[f] == s.fields[f])
  {
    var k := Sanitized(strategy, c);
    SanitizedShape(strategy, c);
    StoredShape(s, k);
    if f in k.fields {
      SentFieldIsMerged(s, k, f);
    } else {
      OmittedFieldIsKept(s, k, f);
    }
  }

  // --- ordering the changes ---------------------------------------------------------

  /** Stable insertion by id, with raw string comparison. */
  function Insert(c: Change, sorted: seq<Change>): seq<Change> {
    if sorted == [] || !Precedes(sorted[0].id, c.id) then [c] + sorted
    else [sorted[0]] + Insert(c, sorted[1..])
  }

  /** `[...changes].sort(byId)`. */
  function SortById(changes: seq<Change>): seq<Change> {
    if changes == [] then [] else Insert(changes[0], SortById(changes[1..]))
  }

  ghost predicate Ascending(changes: seq<Change>) {
    forall i, j :: 0 <= i < j < |changes| ==> !Precedes(changes[j].id, changes[i].id)
  }

  lemma HeadIsLeast(c: Change, s: seq<Change>)
    requires Ascending(s) && s != [] && !Precedes(s[0].id, c.id)
    ensures forall d :: d in s ==> !Precedes(d.id, c.id)
  {
    forall d | d in s ensures !Precedes(d.id, c.id) {
      var j :| 0 <= j < |s| && s[j] == d;
      assert j > 0 ==> !Precedes(s[j].id, s[0].id);
      PrecedesOrder(s[0].id, d.id, c.id);
    }
  }

  lemma PrependKeepsOrder(c: Change, s: seq<Change>)
    requires Ascending(s) && forall d :: d in s ==> !Precedes(d.id, c.id)
    ensures Ascending([c] + s)
  {
    var r := [c] + s;
    forall i, j | 0 <= i < j < |r| ensures !Precedes(r[j].id, r[i].id) {
      assert r[j] == s[j - 1];
      assert i > 0 ==> r[i] == s[i - 1];
    }
  }

  lemma {:induction false} InsertKeepsAll(c: Change, s: seq<Change>)
    ensures multiset(Insert(c, s)) == multiset([c] + s)
  {
    if s != [] && Precedes(s[0].id, c.id) {
      InsertKeepsAll(c, s[1..]);
      assert s == [s[0]] + s[1..];
    }
  }

  lemma {:induction false} InsertKeepsOrder(c: Change, s: seq<Change>)
    requires Ascending(s)
    ensures Ascending(Insert(c, s))
  {
    if s == [] || !Precedes(s[0].id, c.id) {
      if s != [] {
        HeadIsLeast(c, s);
      }
      PrependKeepsOrder(c, s);
    } else {
      var rest := s[1..];
      InsertKeepsOrder(c, rest);
      InsertKeepsAll(c, rest);
      PrecedesOrder(s[0].id, c.id, []);
      forall d | d in Insert(c, rest) ensures !Precedes(d.id, s[0].id) {
        assert d in multiset([c] + rest);
        if d != c {
          var j :| 0 <= j < |rest| && rest[j] == d;
          assert s[j + 1] == d;
        }
      }
      PrependKeepsOrder(s[0], Insert(c, rest));
    }
  }

  /** The changes under one id, in their order. */
  function OfId(changes: seq<Change>, id: Id): seq<Change> {
    if changes == [] then []
    else (if changes[0].id == id then [changes[0]] else []) + OfId(changes[1..], id)
  }

  lemma {:induction false} InsertKeepsTurns(c: Change, s: seq<Change>, id: Id)
    ensures OfId(Insert(c, s), id) == OfId([c] + s, id)
  {
    assert ([c] + s)[1..] == s;
    if s != [] && Precedes(s[0].id, c.id) {
      PrecedesOrder(s[0].id, c.id, id);
      InsertKeepsTurns(c, s[1..], id);
      assert ([s[0]] + Insert(c, s[1..]))[1..] == Insert(c, s[1..]);
      assert ([c] + s[1..])[1..] == s[1..];
    }
  }

  /** The sort puts ids in ascending order and keeps every change, those under one id in their order. */
  lemma {:induction false} SortByIdSorts(changes: seq<Change>)
    ensures Ascending(SortById(changes)) && multiset(SortById(changes)) == multiset(changes)
    ensures forall id :: OfId(SortById(changes), id) == OfId(changes, id)
  {
    if changes != [] {
      SortByIdSorts(changes[1..]);
      InsertKeepsOrder(changes[0], SortById(changes[1..]));
      InsertKeepsAll(changes[0], SortById(changes[1..]));
      assert changes == [changes[0]] + changes[1..];
      forall id ensures OfId(SortById(changes), id) == OfId(changes, id) {
        InsertKeepsTurns(changes[0], SortById(changes[1..]), id);
      }
    }
  }

  // --- the loop ---------------------------------------------------------------------

  /** What one change does to the rows, to the accepted ids and to the echo. */
  datatype Outcome = Outcome(rows: Rows, response: Response)

  ghost function Handle(strategy: Strategy, o: Outcome, c: Change): Outcome {
    var row := strategy.rowOf(c.id);
    if row !in o.rows then
      var inserted := strategy.tryInsert(c);
      if inserted.None? then o
      else Outcome(o.rows[row := inserted.value], o.response.(acceptedIds := o.response.acceptedIds + [c.id]))
    else
      var s, k := o.rows[row], Sanitized(strategy, c);
      Outcome(
        o.rows[row := Stored(s, k)],
        Response(
          if ServerAhead(s, k) then o.response.changes + [Echo(c.id, Sent(s, k))] else o.response.changes,
          if ClientAccepted(s, k) then o.response.acceptedIds + [c.id] else o.response.acceptedIds))
  }

  ghost function HandleAll(strategy: Strategy, o: Outcome, changes: seq<Change>): Outcome {
    if changes == [] then o
    else Handle(strategy, HandleAll(strategy, o, changes[..|changes| - 1]), changes[|changes| - 1])
  }

  class SyncService {
    const strategy: Strategy
    var rows: Rows

    constructor (strategy: Strategy, rows: Rows)
      ensures this.strategy == strategy && this.rows == rows
    {
      this.strategy, this.rows := strategy, rows;
    }

    /** The patch loop: a column per synced field whose merged value is defined. */
    static method PatchFields(columns: map<Field, Json>, merged: map<Field, Json>, undefined: set<Field>)
      returns (fields: map<Field, Json>)
      requires columns.Keys <= merged.Keys
      ensures fields == map f | f in columns :: if f in undefined then columns[f] else merged[f]
    {
      fields := columns;
      var todo := columns.Keys;
      while todo != {}
        invariant todo <= columns.Keys && fields.Keys == columns.Keys
        invariant forall f :: f in fields ==>
          fields[f] == if f in todo || f in undefined then columns[f] else merged[f]
        decreases todo
      {
        var field :| field in todo;
        todo := todo - {field};
        if field !in undefined {
          fields := fields[field := merged[field]];
        }
      }
    }

    /** The row after the targeted update. */
    static method WriteState(s: RecordState, client: RecordState, result: ServerMergeResult) returns (r: RecordState)
      requires client.fields.Keys <= s.fields.Keys && ServerChanged(s, client)
      requires result.merged == Merged(s, client) && result.report == ReportOf(s, client)
      ensures r == Stored(s, client)
    {
      var undefined := set f | f in result.report && result.report[f] == FieldWinner.Client && f !in client.fields;
      var fields := PatchFields(s.fields, result.merged.fields, undefined);
      assert fields == Stored(s, client).fields;
      r := RecordState(fields, result.merged.clocks, result.merged.nodeId, result.merged.deletedAt);
    }

    /** The record echoed to the client. */
    static method EchoState(s: RecordState, client: RecordState, result: ServerMergeResult) returns (r: RecordState)
      requires result.merged == Merged(s, client) && result.report == ReportOf(s, client)
      ensures r == Sent(s, client)
    {
      var sent := map f | f in result.merged.fields && !(result.report[f] == FieldWinner.Client && f !in client.fields)
        :: result.merged.fields[f];
      assert sent == Sent(s, client).fields;
      r := result.merged.(fields := sent);
    }

    /** The merge of one change into its locked row. */
    method MergeChange(row: RowId, change: Change) returns (accepted: bool, echo: Option<RecordState>)
      requires row in rows && rows[row].fields.Keys == strategy.syncFields
      modifies this`rows
      ensures var s, k := old(rows)[row], Sanitized(strategy, change);
        && rows == old(rows)[row := Stored(s, k)]
        && accepted == ClientAccepted(s, k)
        && echo == if ServerAhead(s, k) then Some(Sent(s, k)) else None
    {
      var client := Sanitize(strategy, change);
      var server := rows[row];
      var result := MergeServerRecord(server, client);
      accepted, echo := result.clientAccepted, None;
      if result.serverAhead {
        var sent := EchoState(server, client, result);
        echo := Some(sent);
      }
      if result.serverChanged {
        var updated := WriteState(server, client, result);
        rows := rows[row := updated];
      }
      assert rows == old(rows)[row := Stored(server, client)];
    }

    /** The loop of `sync` within its transaction, every row locked before it is read. */
    method Sync(changes: seq<Change>) returns (r: Response)
      requires RowsCarry(strategy, rows) && InsertsCarry(strategy)
      modifies this`rows
      ensures Outcome(rows, r) == HandleAll(strategy, Outcome(old(rows), Response([], [])), SortById(changes))
    {
      var ordered := SortById(changes);
      r := Response([], []);
      ghost var start := Outcome(rows, r);
      for k := 0 to |ordered|
        invariant RowsCarry(strategy, rows)
        invariant Outcome(rows, r) == HandleAll(strategy, start, ordered[..k])
      {
        assert ordered[..k + 1][..k] == ordered[..k];
        r := HandleChange(ordered[k], r);
      }
      assert ordered[..|ordered|] == ordered;
    }

    /** One turn of the loop. */
    method HandleChange(change: Change, before: Response) returns (r: Response)
      requires RowsCarry(strategy, rows) && InsertsCarry(strategy)
      modifies this`rows
      ensures Outcome(rows, r) == Handle(strategy, Outcome(old(rows), before), change)
      ensures RowsCarry(strategy, rows)
    {
      r := before;
      var row := strategy.rowOf(change.id);
      if row !in rows {
        var inserted := strategy.tryInsert(change);
        if inserted.Some? {
          rows := rows[row := inserted.value];
          r := r.(acceptedIds := r.acceptedIds + [change.id]);
        }
        return;
      }
      var accepted, echo := MergeChange(row, change);
      if accepted {
        r := r.(acceptedIds := r.acceptedIds + [change.id]);
      }
      if echo.Some? {
        r := r.(changes := r.changes + [Echo(change.id, echo.value)]);
      }
    }
  }

  /** Each row has a column for each synced field, as `readFields` reads it. */
  ghost predicate RowsCarry(strategy: Strategy, rows: Rows) {
    forall row :: row in rows ==> rows[row].fields.Keys == strategy.syncFields
  }

  ghost predicate InsertsCarry(strategy: Strategy) {
    forall c: Change :: strategy.tryInsert(c).Some? ==> strategy.tryInsert(c).value.fields.Keys == strategy.syncFields
  }
}
