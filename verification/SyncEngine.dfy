/** The phone's offline-first engine for one collection: local edits, pulls and acknowledgements. */
module SyncEngine {
  import opened Wrappers
  import opened Text
  import opened SyncLattice
  import opened MobileMerge
  import opened MergeHistory
  import opened Clocks

  datatype LocalRecord = LocalRecord(record: VersionedRecord, pending: bool)

  type Store = map<Id, LocalRecord>

  /** `undefined` entries of a patch are `None`; they are skipped. */
  type Patch = map<Field, Option<Json>>

  datatype EngineError = DoesNotExist(id: Id)

  /** `create`: every field stamped with the same time. */
  function Created(nodeId: Str, id: Id, fields: map<Field, Json>, now: Stamp): LocalRecord {
    LocalRecord(VersionedRecord(id, fields, map f | f in fields :: now, nodeId, None), true)
  }

  /** `mutate`: only the fields of the patch are written and re-stamped. */
  function Mutated(r: VersionedRecord, nodeId: Str, patch: Patch, now: Stamp): LocalRecord {
    var touched := set f | f in patch && patch[f].Some?;
    LocalRecord(
      VersionedRecord(
        r.id,
        map f | f in r.fields.Keys + touched :: if f in touched then patch[f].value else r.fields[f],
        map f | f in r.clocks.Keys + touched :: if f in touched then now else r.clocks[f],
        nodeId, r.deletedAt),
      true)
  }

  /** The patch applied for all its fields but those in `todo`. */
  ghost predicate Stamped(r: VersionedRecord, patch: Patch, now: Stamp, todo: set<Field>,
                          fields: map<Field, Json>, clocks: map<Field, Stamp>) {
    && (forall f :: f in fields <==> f in r.fields || (f in patch && f !in todo && patch[f].Some?))
    && (forall f :: f in clocks <==> f in r.clocks || (f in patch && f !in todo && patch[f].Some?))
    && (forall f :: f in fields ==>
          fields[f] == if f in patch && f !in todo && patch[f].Some? then patch[f].value else r.fields[f])
    && (forall f :: f in clocks ==>
          clocks[f] == if f in patch && f !in todo && patch[f].Some? then now else r.clocks[f])
  }

  lemma StampedOneMore(r: VersionedRecord, patch: Patch, now: Stamp, todo: set<Field>,
                       fields: map<Field, Json>, clocks: map<Field, Stamp>, key: Field)
    requires key in todo && todo <= patch.Keys && Stamped(r, patch, now, todo, fields, clocks)
    ensures patch[key].Some? ==>
      Stamped(r, patch, now, todo - {key}, fields[key := patch[key].value], clocks[key := now])
    ensures patch[key].None? ==> Stamped(r, patch, now, todo - {key}, fields, clocks)
  {
  }

  lemma StampedAll(r: VersionedRecord, patch: Patch, now: Stamp, fields: map<Field, Json>, clocks: map<Field, Stamp>)
    requires Stamped(r, patch, now, {}, fields, clocks)
    ensures fields == Mutated(r, [], patch, now).record.fields && clocks == Mutated(r, [], patch, now).record.clocks
  {
  }

  function Removed(r: VersionedRecord, nodeId: Str, now: Stamp): LocalRecord {
    LocalRecord(r.(deletedAt := Some(now), nodeId := nodeId), true)
  }

  ghost predicate LocalIsAhead(local: VersionedRecord, remote: VersionedRecord) {
    || (exists f :: f in local.clocks && local.clocks[f] > ClockOf(remote, f))
    || local.deletedAt.GetOr(0.0) > remote.deletedAt.GetOr(0.0)
  }

  /** What `applyRemote` leaves in the store for a pulled record. */
  ghost function Applied(local: Option<LocalRecord>, remote: VersionedRecord): LocalRecord {
    if local.None? then LocalRecord(remote, false)
    else
      var l := local.value;
      var stillPending := l.pending && LocalIsAhead(l.record, remote);
      if !Changed(l.record, remote) && stillPending == l.pending then l
      else LocalRecord(Merged(l.record, remote), stillPending)
  }

  ghost predicate SameClocks(a: VersionedRecord, b: VersionedRecord) {
    && a.deletedAt.GetOr(0.0) == b.deletedAt.GetOr(0.0)
    && forall f :: f in a.clocks.Keys + b.clocks.Keys ==> ClockOf(a, f) == ClockOf(b, f)
  }

  /** What an accepted push leaves in the store: `pending` falls only if nothing changed meanwhile. */
  ghost function Acknowledged(current: LocalRecord, pushed: VersionedRecord): LocalRecord {
    if SameClocks(current.record, pushed) then current.(pending := false) else current
  }

  function Lookup(store: Store, id: Id): Option<LocalRecord> {
    if id in store then Some(store[id]) else None
  }

  class Engine {
    const nodeId: Str
    const clock: HybridClock
    var store: Store

    constructor (nodeId: Str, clock: HybridClock)
      ensures this.nodeId == nodeId && this.clock == clock && store == map[]
    {
      this.nodeId, this.clock, store := nodeId, clock, map[];
    }

    method Create(id: Id, fields: map<Field, Json>, dateNow: int) returns (r: LocalRecord)
      modifies this`store, clock
      ensures clock.last > old(clock.last)
      ensures r == Created(nodeId, id, fields, clock.last as real)
      ensures store == old(store)[id := r]
    {
      var now := clock.Now(dateNow);
      var clocks: map<Field, Stamp> := map[];
      var todo := fields.Keys;
      while todo != {}
        invariant todo <= fields.Keys && clocks.Keys == fields.Keys - todo
        invariant forall f :: f in clocks ==> clocks[f] == now as real
        decreases todo
      {
        var key :| key in todo;
        clocks := clocks[key := now as real];
        todo := todo - {key};
      }
      assert clocks == map f | f in fields :: now as real;
      r := LocalRecord(VersionedRecord(id, fields, clocks, nodeId, None), true);
      store := store[id := r];
    }

    method Mutate(id: Id, patch: Patch, dateNow: int) returns (r: Result<LocalRecord, EngineError>)
      modifies this`store, clock
      ensures id !in old(store) ==>
        r == Failure(DoesNotExist(id)) && store == old(store) && clock.last == old(clock.last)
      ensures id in old(store) ==>
        && clock.last > old(clock.last)
        && r == Success(Mutated(old(store)[id].record, nodeId, patch, clock.last as real))
        && store == old(store)[id := r.value]
    {
      if id !in store {
        return Failure(DoesNotExist(id));
      }
      var existing := store[id].record;
      var now := clock.Now(dateNow);
      var fields, clocks := StampPatch(existing, patch, now as real);
      var updated := LocalRecord(VersionedRecord(existing.id, fields, clocks, nodeId, existing.deletedAt), true);
      store := store[id := updated];
      r := Success(updated);
    }

    /** The loop of `mutate` over the keys of the patch. */
    static method StampPatch(existing: VersionedRecord, patch: Patch, now: Stamp)
      returns (fields: map<Field, Json>, clocks: map<Field, Stamp>)
      ensures fields == Mutated(existing, [], patch, now).record.fields
      ensures clocks == Mutated(existing, [], patch, now).record.clocks
    {
      fields, clocks := existing.fields, existing.clocks;
      var todo := patch.Keys;
      while todo != {}
        invariant todo <= patch.Keys
        invariant Stamped(existing, patch, now, todo, fields, clocks)
        decreases todo
      {
        var key :| key in todo;
        StampedOneMore(existing, patch, now, todo, fields, clocks, key);
        if patch[key].Some? {
          fields, clocks := fields[key := patch[key].value], clocks[key := now];
        }
        todo := todo - {key};
      }
      StampedAll(existing, patch, now, fields, clocks);
    }

    method Remove(id: Id, dateNow: int)
      modifies this`store, clock
      ensures id !in old(store) ==> store == old(store)
      ensures id in old(store) ==>
        && clock.last > old(clock.last)
        && store == old(store)[id := Removed(old(store)[id].record, nodeId, clock.last as real)]
    {
      if id in store {
        var now := clock.Now(dateNow);
        store := store[id := LocalRecord(store[id].record.(deletedAt := Some(now as real), nodeId := nodeId), true)];
      }
    }

    /** `localIsAhead`, with its early return. */
    static method IsAhead(local: VersionedRecord, remote: VersionedRecord) returns (ahead: bool)
      ensures ahead == LocalIsAhead(local, remote)
    {
      var todo := local.clocks.Keys;
      while todo != {}
        invariant todo <= local.clocks.Keys
        invariant forall f :: f in local.clocks && f !in todo ==> local.clocks[f] <= ClockOf(remote, f)
        decreases todo
      {
        var key :| key in todo;
        if local.clocks[key] > ClockOf(remote, key) {
          return true;
        }
        todo := todo - {key};
      }
      ahead := local.deletedAt.GetOr(0.0) > remote.deletedAt.GetOr(0.0);
    }

    /** `applyRemote`: one `getById` and one `put`, atomic with respect to local edits. */
    method ApplyRemote(remote: VersionedRecord) returns (changed: bool)
      requires remote.id in store ==> store[remote.id].record.id == remote.id
      modifies this`store
      ensures store == old(store)[remote.id := Applied(Lookup(old(store), remote.id), remote)]
      ensures changed == (remote.id !in old(store) || Changed(old(store)[remote.id].record, remote))
    {
      if remote.id !in store {
        store := store[remote.id := LocalRecord(remote, false)];
        return true;
      }
      var local := store[remote.id];
      var result := MergeRecord(local.record, remote);
      var ahead := IsAhead(local.record, remote);
      var stillPending := local.pending && ahead;
      if !result.value.changed && stillPending == local.pending {
        assert store == store[remote.id := local];
        return false;
      }
      store := store[remote.id := LocalRecord(result.value.merged, stillPending)];
      changed := result.value.changed;
    }

    /** `sameClocks`. */
    static method ClocksAgree(a: VersionedRecord, b: VersionedRecord) returns (same: bool)
      ensures same == SameClocks(a, b)
    {
      if a.deletedAt.GetOr(0.0) != b.deletedAt.GetOr(0.0) {
        return false;
      }
      var keys := a.clocks.Keys + b.clocks.Keys;
      var todo := keys;
      while todo != {}
        invariant todo <= keys
        invariant forall f :: f in keys && f !in todo ==> ClockOf(a, f) == ClockOf(b, f)
        decreases todo
      {
        var key :| key in todo;
        if ClockOf(a, key) != ClockOf(b, key) {
          return false;
        }
        todo := todo - {key};
      }
      same := true;
    }

    /** What `pushPending` posts: the pending records as they are now. */
    method CollectPending() returns (changes: map<Id, VersionedRecord>)
      ensures changes == map id | id in store && store[id].pending :: store[id].record
    {
      changes := map id | id in store && store[id].pending :: store[id].record;
    }

    /** The loop of `pushPending` over the pushed records, once the accepted ids are back. */
    method Acknowledge(pushed: map<Id, VersionedRecord>, acceptedIds: set<Id>)
      modifies this`store
      ensures store.Keys == old(store).Keys
      ensures forall id :: id in old(store) ==>
        store[id] == if id in pushed && id in acceptedIds then Acknowledged(old(store)[id], pushed[id])
                     else old(store)[id]
    {
      var todo := pushed.Keys;
      while todo != {}
        invariant todo <= pushed.Keys && store.Keys == old(store).Keys
        invariant forall id :: id in old(store) ==>
          store[id] == if id in pushed && id !in todo && id in acceptedIds
                       then Acknowledged(old(store)[id], pushed[id]) else old(store)[id]
        decreases todo
      {
        var id :| id in todo;
        todo := todo - {id};
        if id in acceptedIds && id in store {
          var same := ClocksAgree(store[id].record, pushed[id]);
          if same {
            store := store[id := store[id].(pending := false)];
          }
        }
      }
    }
  }

  // --- what field-level merging is for -----------------------------------------------------

  predicate Touches(patch: Patch, f: Field) {
    f in patch && patch[f].Some?
  }

  lemma MutatedCell(r: VersionedRecord, nodeId: Str, patch: Patch, now: Stamp, f: Field)
    ensures CellAt(Mutated(r, nodeId, patch, now).record, f) ==
      if Touches(patch, f) then Cell(now, patch[f].value) else CellAt(r, f)
  {
  }

  /** The cell that a device has after a patch: its edit, or what the record held. */
  function EditedCell(r: VersionedRecord, patch: Patch, now: Stamp, f: Field): Cell {
    if Touches(patch, f) then Cell(now, patch[f].value) else CellAt(r, f)
  }

  /**
   * Two devices edit one record offline. Each field gets the greater of the two cells: the later
   * edit if both edited it (the greater text on a tie), the one edit if one did and stamped it later
   * than what the record held, else what the record held. Deletion marks are not disturbed.
   */
  lemma OfflineEditsMerge(r: VersionedRecord, d: Str, p: Patch, t: Stamp, e: Str, q: Patch, u: Stamp, f: Field)
    requires NoStray(r)
    ensures var m := Merged(Mutated(r, d, p, t).record, Mutated(r, e, q, u).record);
      && CellAt(m, f) == MaxCell(EditedCell(r, p, t, f), EditedCell(r, q, u, f))
      && m.deletedAt == r.deletedAt
  {
    var a, b := Mutated(r, d, p, t).record, Mutated(r, e, q, u).record;
    MutatedCell(r, d, p, t, f);
    MutatedCell(r, e, q, u, f);
    PrecedesOrder(TextOf(a, f), TextOf(b, f), []);
    PrecedesOrder(TextOf(b, f), TextOf(a, f), []);
    if f in FieldNames(a, b) {
      assert CellAt(Merged(a, b), f) == MergedCell(a, b, f);
    }
  }

  /**
   * Device clocks are not compared with the stamps already in a record. An edit that only one
   * device made is lost, silently, exactly when that device's clock lies behind the stored stamp,
   * or ties with it and its text does not come later.
   */
  lemma SlowEditIsLostIff(r: VersionedRecord, d: Str, p: Patch, t: Stamp, e: Str, q: Patch, u: Stamp, f: Field)
    requires NoStray(r) && Touches(p, f) && !Touches(q, f)
    ensures var m := Merged(Mutated(r, d, p, t).record, Mutated(r, e, q, u).record);
      CellAt(m, f) != Cell(t, p[f].value) <==>
        || t < ClockOf(r, f)
        || (t == ClockOf(r, f) && Precedes(p[f].value, TextOf(r, f)))
  {
    OfflineEditsMerge(r, d, p, t, e, q, u, f);
    PrecedesOrder(p[f].value, TextOf(r, f), []);
    PrecedesOrder(TextOf(r, f), p[f].value, []);
  }

  /** The deletion's stamp, unless the record already held a later one. */
  function LaterTomb(r: VersionedRecord, t: Stamp): Stamp {
    if t >= r.deletedAt.GetOr(0.0) then t else r.deletedAt.GetOr(0.0)
  }

  /**
   * One device deletes, another edits. The record ends deleted exactly if the deletion is not older
   * than the edit, nor than any field of the record, which a slow device's deletion may be.
   */
  lemma DeleteAgainstEdit(r: VersionedRecord, d: Str, t: Stamp, e: Str, q: Patch, u: Stamp, g: Field)
    requires NoStray(r) && Touches(q, g) && t > 0.0
    ensures IsDeleted(Merged(Removed(r, d, t).record, Mutated(r, e, q, u).record)) <==>
      LaterTomb(r, t) >= u && LaterTomb(r, t) >= MaxClock(r.clocks)
  {
    var m, tomb := Merged(Removed(r, d, t).record, Mutated(r, e, q, u).record), LaterTomb(r, t);
    assert m.deletedAt == Some(tomb);
    EditedClocks(r, d, t, e, q, u, g, tomb);
    MaxClockAtMost(m.clocks, tomb);
    MaxClockAtMost(r.clocks, tomb);
  }

  lemma MaxClockAtMost(clocks: map<Field, Stamp>, bound: Stamp)
    requires bound >= 0.0
    ensures MaxClock(clocks) <= bound <==> ClocksAtMost(clocks, bound)
  {
  }

  ghost predicate ClocksAtMost(clocks: map<Field, Stamp>, bound: Stamp) {
    forall f :: f in clocks ==> clocks[f] <= bound
  }

  lemma EditedClock(r: VersionedRecord, d: Str, t: Stamp, e: Str, q: Patch, u: Stamp, f: Field)
    requires NoStray(r)
    ensures var m := Merged(Removed(r, d, t).record, Mutated(r, e, q, u).record);
      && (f in m.clocks <==> f in r.fields || Touches(q, f))
      && (f in m.clocks ==> m.clocks[f] == if Touches(q, f) && u > ClockOf(r, f) then u else ClockOf(r, f))
  {
    var a, b := Removed(r, d, t).record, Mutated(r, e, q, u).record;
    var m := Merged(a, b);
    assert f in m.clocks <==> f in r.fields || Touches(q, f);
    MutatedCell(r, e, q, u, f);
    if f in m.clocks {
      assert m.clocks[f] == MergedCell(a, b, f).clock;
    }
  }

  /** The record's clocks, with those of the edited fields raised to `u`. */
  ghost predicate IsRaised(clocks: map<Field, Stamp>, r: VersionedRecord, q: Patch, u: Stamp) {
    && clocks.Keys >= r.fields.Keys
    && (forall f :: Touches(q, f) ==> f in clocks)
    && forall f :: f in clocks ==> clocks[f] == if Touches(q, f) && u > ClockOf(r, f) then u else ClockOf(r, f)
  }

  lemma RaisedAtMost(clocks: map<Field, Stamp>, r: VersionedRecord, q: Patch, u: Stamp, g: Field, bound: Stamp)
    requires NoStray(r) && Touches(q, g) && bound >= 0.0 && IsRaised(clocks, r, q, u)
    ensures ClocksAtMost(clocks, bound) <==> u <= bound && ClocksAtMost(r.clocks, bound)
  {
    if ClocksAtMost(clocks, bound) {
      assert clocks[g] <= bound;
      forall f | f in r.clocks ensures r.clocks[f] <= bound {
        assert clocks[f] <= bound;
      }
    }
  }

  /** The field clocks after a deletion met an edit are bounded as the record's and the edit's are. */
  lemma EditedClocks(r: VersionedRecord, d: Str, t: Stamp, e: Str, q: Patch, u: Stamp, g: Field, bound: Stamp)
    requires NoStray(r) && Touches(q, g) && bound >= 0.0
    ensures var m := Merged(Removed(r, d, t).record, Mutated(r, e, q, u).record);
      ClocksAtMost(m.clocks, bound) <==> u <= bound && ClocksAtMost(r.clocks, bound)
  {
    var clocks := Merged(Removed(r, d, t).record, Mutated(r, e, q, u).record).clocks;
    forall f
      ensures f in clocks <==> f in r.fields || Touches(q, f)
      ensures f in clocks ==> clocks[f] == if Touches(q, f) && u > ClockOf(r, f) then u else ClockOf(r, f)
    {
      EditedClock(r, d, t, e, q, u, f);
    }
    RaisedAtMost(clocks, r, q, u, g, bound);
  }
}
