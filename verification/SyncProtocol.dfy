/**
 * Phones and server together: any number of devices editing, pulling and pushing one collection
 * over a network that loses, delays, reorders and repeats messages.
 */
module SyncProtocol {
  import opened Wrappers
  import opened Text
  import opened SyncLattice
  import opened MobileMerge
  import opened SyncEngine
  import Server = ServerMerge
  import Endpoint = ServerSync

  type Device = Str

  /** The fields that the phones keep, and those of them that the server syncs. */
  datatype Collection = Collection(names: set<Field>, synced: set<Field>)

  datatype Message =
    | Pull(record: VersionedRecord)                   // a server copy on its way to any device
    | Push(device: Device, record: VersionedRecord)   // a pending record on its way to the server
    | Ack(device: Device, record: VersionedRecord)    // the server's acceptance of that push

  /** One field of one record as written at one time. */
  type FieldWrite = (Id, Field, Stamp)

  /**
   * A message once sent stays on the wire: it may arrive never, once, or many times. `refused` has
   * the field writes that came with an accepted push and were dropped from it.
   */
  datatype World = World(server: map<Id, Server.RecordState>, devices: map<Device, Store>, wire: set<Message>,
                         refused: set<FieldWrite>)

  /**
   * The server decides at each push which fields to drop, and whether and with what to insert an
   * unknown record: that depends on other rows.
   */
  datatype Event =
    | CreateRecord(d: Device, id: Id, fields: map<Field, Json>, now: Stamp)
    | MutateRecord(d: Device, id: Id, patch: Patch, now: Stamp)
    | RemoveRecord(d: Device, id: Id, now: Stamp)
    | SendCopy(id: Id)
    | ReceiveCopy(d: Device, m: Message)
    | SendPush(d: Device, id: Id)
    | HandlePush(m: Message, dropped: set<Field>, inserted: Option<map<Field, Json>>)
    | ReceiveAck(d: Device, m: Message)

  /** The server row as a wire record. */
  function Copy(w: World, id: Id): VersionedRecord
    requires id in w.server
  {
    Server.AsVersioned(id, w.server[id])
  }

  /** The client's side of the merge: the pushed record without the fields that are dropped. */
  function Carried(r: VersionedRecord, kept: set<Field>): Server.RecordState {
    Server.RecordState(
      map f | f in r.fields && f in kept :: r.fields[f],
      map f | f in r.clocks && f in kept :: r.clocks[f],
      Some(r.nodeId), r.deletedAt)
  }

  /** A pushed record as the endpoint receives it. */
  function AsChange(r: VersionedRecord): Endpoint.Change {
    Endpoint.Change(r.id, r.fields, map f | f in r.clocks :: Some(r.clocks[f]), r.nodeId, r.deletedAt)
  }

  /** That is what the endpoint's sanitizer leaves of it. */
  lemma CarriedIsSanitized(strategy: Endpoint.Strategy, r: VersionedRecord)
    requires NoStray(r)
    ensures var dropped := set f | f in r.fields && !strategy.accepts(f, r.fields[f]);
      Carried(r, strategy.syncFields - dropped) == Endpoint.Sanitized(strategy, AsChange(r))
  {
    var dropped := set f | f in r.fields && !strategy.accepts(f, r.fields[f]);
    var a, b := Carried(r, strategy.syncFields - dropped), Endpoint.Sanitized(strategy, AsChange(r));
    assert a.fields == b.fields;
    assert a.clocks == b.clocks;
  }

  /** The row that a first-time insert stores: checked or substituted values, and the clocks as sent. */
  function InsertedRow(r: VersionedRecord, fields: map<Field, Json>): Server.RecordState {
    Server.RecordState(fields, map f | f in r.clocks && f in fields :: r.clocks[f],
                       if r.nodeId == [] then None else Some(r.nodeId), r.deletedAt)
  }

  function Refused(r: VersionedRecord, kept: set<Field>): set<FieldWrite> {
    set f | f in r.clocks && f !in kept :: (r.id, f, r.clocks[f])
  }

  ghost predicate Enabled(c: Collection, w: World, e: Event) {
    match e
    case CreateRecord(d, _, fields, now) => d in w.devices && fields.Keys == c.names && now > 0.0
    case MutateRecord(d, id, patch, now) => d in w.devices && id in w.devices[d] && patch.Keys <= c.names && now > 0.0
    case RemoveRecord(d, id, now) => d in w.devices && id in w.devices[d] && now > 0.0
    case SendCopy(id) => id in w.server
    case ReceiveCopy(d, m) => d in w.devices && m in w.wire && m.Pull?
    case SendPush(d, id) => d in w.devices && id in w.devices[d] && w.devices[d][id].pending
    case HandlePush(m, _, inserted) => m in w.wire && m.Push? && (inserted.Some? ==> inserted.value.Keys == c.synced)
    case ReceiveAck(d, m) => d in w.devices && m in w.wire && m.Ack? && m.device == d
  }

  ghost function WithRecord(w: World, d: Device, id: Id, r: LocalRecord): World
    requires d in w.devices
  {
    w.(devices := w.devices[d := w.devices[d][id := r]])
  }

  /** One atomic step. A push of an unknown id is inserted, or refused and kept pending. */
  ghost function Next(c: Collection, w: World, e: Event): World
    requires Enabled(c, w, e)
  {
    match e
    case CreateRecord(d, id, fields, now) => WithRecord(w, d, id, Created(d, id, fields, now))
    case MutateRecord(d, id, patch, now) => WithRecord(w, d, id, Mutated(w.devices[d][id].record, d, patch, now))
    case RemoveRecord(d, id, now) => WithRecord(w, d, id, Removed(w.devices[d][id].record, d, now))
    case SendCopy(id) => w.(wire := w.wire + {Pull(Copy(w, id))})
    case ReceiveCopy(d, m) =>
      WithRecord(w, d, m.record.id, Applied(Lookup(w.devices[d], m.record.id), m.record))
    case SendPush(d, id) => w.(wire := w.wire + {Push(d, w.devices[d][id].record)})
    case HandlePush(m, dropped, inserted) =>
      if m.record.id in w.server then Merging(w, m, c.synced - dropped)
      else if inserted.Some? then Inserting(w, m, inserted.value)
      else w
    case ReceiveAck(d, m) =>
      if m.record.id in w.devices[d] then
        WithRecord(w, d, m.record.id, Acknowledged(w.devices[d][m.record.id], m.record))
      else w
  }

  ghost function Inserting(w: World, m: Message, fields: map<Field, Json>): World
    requires m.Push?
  {
    World(w.server[m.record.id := InsertedRow(m.record, fields)], w.devices,
          w.wire + {Ack(m.device, m.record)}, w.refused + Refused(m.record, fields.Keys))
  }

  ghost function Merging(w: World, m: Message, kept: set<Field>): World
    requires m.Push? && m.record.id in w.server
  {
    var id := m.record.id;
    var s, k := w.server[id], Carried(m.record, kept);
    var merged := w.(server := w.server[id := Server.Stored(s, k)]);
    if Server.ClientAccepted(s, k) then
      merged.(wire := w.wire + {Ack(m.device, m.record)}, refused := w.refused + Refused(m.record, kept))
    else merged
  }

  /** Handling a push touches one row and sends at most the acknowledgement. */
  lemma MergingTouches(w: World, m: Message, kept: set<Field>)
    requires m.Push? && m.record.id in w.server
    ensures var t := Merging(w, m, kept);
      && t.devices == w.devices && w.refused <= t.refused
      && m.record.id in t.server && t.server == w.server[m.record.id := t.server[m.record.id]]
      && (t.wire == w.wire ||
          (t.wire == w.wire + {Ack(m.device, m.record)} &&
           Server.ClientAccepted(w.server[m.record.id], Carried(m.record, kept))))
  {
  }

  // --- what holds of every record in the system ------------------------------------

  /** The synced fields at least, no stray clock, and stamps that a clock can issue. */
  ghost predicate Shaped(c: Collection, r: VersionedRecord) {
    && c.synced <= r.fields.Keys <= c.names
    && NoStray(r)
    && (forall f :: f in r.clocks ==> r.clocks[f] >= 0.0)
    && (r.deletedAt.Some? ==> r.deletedAt.value > 0.0)
  }

  ghost predicate RowShaped(c: Collection, w: World, id: Id)
    requires id in w.server
  {
    Shaped(c, Copy(w, id)) && w.server[id].fields.Keys == c.synced
  }

  ghost predicate AllShaped(c: Collection, w: World) {
    && c.synced <= c.names
    && (forall id :: id in w.server ==> RowShaped(c, w, id))
    && (forall d, id :: d in w.devices && id in w.devices[d] ==>
          Shaped(c, w.devices[d][id].record) && w.devices[d][id].record.id == id)
    && (forall m :: m in w.wire ==> Shaped(c, m.record))
  }

  /** No field clock and no tombstone of `a` is newer than `b`'s. */
  ghost predicate NotNewer(a: VersionedRecord, b: VersionedRecord) {
    && (forall f :: ClockOf(a, f) <= ClockOf(b, f))
    && a.deletedAt.GetOr(0.0) <= b.deletedAt.GetOr(0.0)
  }

  /** The same, but for field writes that were refused. */
  ghost predicate NotNewerBut(a: VersionedRecord, b: VersionedRecord, refused: set<FieldWrite>) {
    && (forall f :: ClockOf(a, f) <= ClockOf(b, f) || (a.id, f, ClockOf(a, f)) in refused)
    && a.deletedAt.GetOr(0.0) <= b.deletedAt.GetOr(0.0)
  }

  /** The server has the record and is at least as new, but for what it refused. */
  ghost predicate Settled(w: World, r: VersionedRecord) {
    r.id in w.server && NotNewerBut(r, Copy(w, r.id), w.refused)
  }

  /**
   * The heart of the protocol: copies sent out and pushes accepted are settled, and so is every
   * record that a device no longer considers pending.
   */
  ghost predicate Invariant(c: Collection, w: World) {
    && AllShaped(c, w)
    && (forall m :: m in w.wire && !m.Push? ==> Settled(w, m.record))
    && (forall d, id :: d in w.devices && id in w.devices[d] && !w.devices[d][id].pending ==>
          Settled(w, w.devices[d][id].record))
  }

  // --- one record at a time ---------------------------------------------------------

  lemma MergedClock(a: VersionedRecord, b: VersionedRecord, f: Field)
    requires NoStray(a) && NoStray(b)
    ensures ClockOf(Merged(a, b), f) == if ClockOf(a, f) >= ClockOf(b, f) then ClockOf(a, f) else ClockOf(b, f)
  {
    if f in FieldNames(a, b) {
      assert Merged(a, b).clocks[f] == MergedCell(a, b, f).clock;
    } else {
      assert f !in Merged(a, b).clocks && f !in a.clocks && f !in b.clocks;
    }
  }

  lemma MergedIsShaped(c: Collection, a: VersionedRecord, b: VersionedRecord)
    requires Shaped(c, a) && Shaped(c, b)
    ensures Shaped(c, Merged(a, b))
  {
    var m := Merged(a, b);
    assert m.fields.Keys == m.clocks.Keys == FieldNames(a, b);
    forall f | f in m.clocks ensures m.clocks[f] >= 0.0 {
      MergedClock(a, b, f);
      assert ClockOf(m, f) == m.clocks[f];
    }
  }

  /** Whatever two records are not newer than, their merge is not newer than. */
  lemma MergedIsNotNewer(a: VersionedRecord, b: VersionedRecord, s: VersionedRecord, refused: set<FieldWrite>)
    requires NoStray(a) && NoStray(b) && a.id == b.id
    requires NotNewerBut(a, s, refused) && NotNewerBut(b, s, refused)
    ensures NotNewerBut(Merged(a, b), s, refused)
  {
    var m := Merged(a, b);
    forall f ensures ClockOf(m, f) <= ClockOf(s, f) || (m.id, f, ClockOf(m, f)) in refused {
      MergedClock(a, b, f);
    }
  }

  lemma OlderStays(a: VersionedRecord, s: VersionedRecord, t: VersionedRecord,
                   refused: set<FieldWrite>, more: set<FieldWrite>)
    requires NotNewerBut(a, s, refused) && NotNewer(s, t) && refused <= more
    ensures NotNewerBut(a, t, more)
  {
    forall f ensures ClockOf(a, f) <= ClockOf(t, f) || (a.id, f, ClockOf(a, f)) in more {
      assert ClockOf(s, f) <= ClockOf(t, f);
    }
  }

  lemma CreatedIsShaped(c: Collection, d: Device, id: Id, fields: map<Field, Json>, now: Stamp)
    requires c.synced <= fields.Keys == c.names && now > 0.0
    ensures Shaped(c, Created(d, id, fields, now).record)
  {
  }

  lemma MutatedIsShaped(c: Collection, r: VersionedRecord, d: Device, patch: Patch, now: Stamp)
    requires Shaped(c, r) && patch.Keys <= c.names && now > 0.0
    ensures Shaped(c, Mutated(r, d, patch, now).record)
  {
  }

  /** A pulled copy that leaves the record settled on the server leaves the merge settled too. */
  lemma AppliedIsSettled(c: Collection, local: Option<LocalRecord>, remote: VersionedRecord, s: VersionedRecord,
                         refused: set<FieldWrite>)
    requires Shaped(c, remote) && NotNewerBut(remote, s, refused)
    requires local.Some? ==> Shaped(c, local.value.record) && local.value.record.id == remote.id
    requires local.Some? && !local.value.pending ==> NotNewerBut(local.value.record, s, refused)
    ensures Shaped(c, Applied(local, remote).record) && Applied(local, remote).record.id == remote.id
    ensures !Applied(local, remote).pending ==> NotNewerBut(Applied(local, remote).record, s, refused)
  {
    if local.Some? {
      var l := local.value;
      MergedIsShaped(c, l.record, remote);
      if !l.pending {
        MergedIsNotNewer(l.record, remote, s, refused);
      } else if !LocalIsAhead(l.record, remote) {
        MergedIsRemote(l.record, remote, s, refused);
      }
    }
  }

  /** A local record that is not ahead of a copy adds no later stamp to it. */
  lemma MergedIsRemote(l: VersionedRecord, remote: VersionedRecord, s: VersionedRecord, refused: set<FieldWrite>)
    requires NoStray(l) && NoStray(remote) && l.id == remote.id && !LocalIsAhead(l, remote)
    requires forall f :: f in remote.clocks ==> remote.clocks[f] >= 0.0
    requires NotNewerBut(remote, s, refused)
    ensures NotNewerBut(Merged(l, remote), s, refused)
  {
    var m := Merged(l, remote);
    forall f ensures ClockOf(m, f) <= ClockOf(s, f) || (m.id, f, ClockOf(m, f)) in refused {
      MergedClock(l, remote, f);
      assert ClockOf(l, f) <= ClockOf(remote, f);
      assert ClockOf(m, f) == ClockOf(remote, f);
    }
  }

  lemma AcknowledgedIsSettled(current: LocalRecord, pushed: VersionedRecord, s: VersionedRecord,
                              refused: set<FieldWrite>)
    requires current.record.id == pushed.id && NotNewerBut(pushed, s, refused)
    requires !current.pending ==> NotNewerBut(current.record, s, refused)
    ensures !Acknowledged(current, pushed).pending ==> NotNewerBut(current.record, s, refused)
  {
    if SameClocks(current.record, pushed) {
      forall f ensures ClockOf(current.record, f) == ClockOf(pushed, f) {
      }
    }
  }

  // --- handling a push ----------------------------------------------------------------

  /** One field of the row after a merge. */
  lemma StoredCell(s: Server.RecordState, k: Server.RecordState, f: Field)
    requires Server.NoStray(s) && Server.NoStray(k) && k.fields.Keys <= s.fields.Keys && f in s.fields
    requires Server.ClockOf(s, f) >= 0.0
    ensures Server.CellAt(Server.Stored(s, k), f) ==
      if f in k.fields then MaxCell(Server.CellAt(s, f), Server.CellAt(k, f)) else Server.CellAt(s, f)
  {
    if f in k.fields {
      Server.SentFieldIsMerged(s, k, f);
    } else {
      Server.OmittedFieldIsKept(s, k, f);
    }
  }

  lemma MergingClock(c: Collection, w: World, m: Message, kept: set<Field>, f: Field)
    requires m.Push? && Shaped(c, m.record) && kept <= c.synced
    requires m.record.id in w.server && RowShaped(c, w, m.record.id)
    ensures var before, after := Copy(w, m.record.id), Copy(Merging(w, m, kept), m.record.id);
      ClockOf(after, f) ==
        if f in kept && ClockOf(m.record, f) > ClockOf(before, f) then ClockOf(m.record, f) else ClockOf(before, f)
  {
    var s, k := w.server[m.record.id], Carried(m.record, kept);
    Server.StoredShape(s, k);
    if f in c.synced {
      assert ClockOf(Copy(w, m.record.id), f) == Server.ClockOf(s, f) >= 0.0;
      StoredCell(s, k, f);
      assert f in kept ==> Server.ClockOf(k, f) == ClockOf(m.record, f);
    }
  }

  lemma MergingKeepsShape(c: Collection, w: World, m: Message, kept: set<Field>)
    requires m.Push? && Shaped(c, m.record) && kept <= c.synced <= c.names
    requires m.record.id in w.server && RowShaped(c, w, m.record.id)
    ensures RowShaped(c, Merging(w, m, kept), m.record.id)
    ensures NotNewer(Copy(w, m.record.id), Copy(Merging(w, m, kept), m.record.id))
  {
    var id, t := m.record.id, Merging(w, m, kept);
    Server.StoredShape(w.server[id], Carried(m.record, kept));
    forall f
      ensures ClockOf(Copy(w, id), f) <= ClockOf(Copy(t, id), f) && ClockOf(Copy(t, id), f) >= 0.0
    {
      MergingClock(c, w, m, kept, f);
    }
    forall f | f in Copy(t, id).clocks ensures Copy(t, id).clocks[f] >= 0.0 {
      assert ClockOf(Copy(t, id), f) == Copy(t, id).clocks[f];
    }
  }

  /** An accepted push is settled. */
  lemma MergingSettles(c: Collection, w: World, m: Message, kept: set<Field>)
    requires m.Push? && Shaped(c, m.record) && kept <= c.synced <= c.names
    requires m.record.id in w.server && RowShaped(c, w, m.record.id)
    ensures Server.ClientAccepted(w.server[m.record.id], Carried(m.record, kept)) ==>
      Settled(Merging(w, m, kept), m.record)
  {
    var id, t, r := m.record.id, Merging(w, m, kept), m.record;
    if Server.ClientAccepted(w.server[id], Carried(r, kept)) {
      Server.StoredShape(w.server[id], Carried(r, kept));
      forall f ensures ClockOf(r, f) <= ClockOf(Copy(t, id), f) || (r.id, f, ClockOf(r, f)) in t.refused {
        MergingClock(c, w, m, kept, f);
        MergingKeepsShape(c, w, m, kept);
        assert f in r.clocks && f !in kept ==> (r.id, f, r.clocks[f]) in Refused(r, kept);
        assert f !in r.clocks ==> ClockOf(r, f) == 0.0 <= ClockOf(Copy(w, id), f);
      }
    }
  }

  /** An insert is settled but for the fields that the server does not sync. */
  lemma InsertingSettles(c: Collection, w: World, m: Message, fields: map<Field, Json>)
    requires m.Push? && Shaped(c, m.record) && fields.Keys == c.synced <= c.names
    ensures RowShaped(c, Inserting(w, m, fields), m.record.id) && Settled(Inserting(w, m, fields), m.record)
  {
    var t, r := Inserting(w, m, fields), m.record;
    forall f ensures ClockOf(r, f) <= ClockOf(Copy(t, r.id), f) || (r.id, f, ClockOf(r, f)) in t.refused {
      assert f in r.clocks && f !in fields ==> (r.id, f, r.clocks[f]) in Refused(r, fields.Keys);
    }
  }

  /** What handling a push does to the world: rows only get newer, and the acknowledgement is deserved. */
  ghost predicate Grows(c: Collection, w: World, t: World, ack: Message) {
    && t.devices == w.devices && w.refused <= t.refused
    && w.server.Keys <= t.server.Keys
    && (forall id :: id in w.server ==> NotNewer(Copy(w, id), Copy(t, id)))
    && (forall id :: id in t.server ==> RowShaped(c, t, id))
    && (t.wire == w.wire || (t.wire == w.wire + {ack} && Settled(t, ack.record)))
  }

  lemma OneRowGrows(c: Collection, w: World, t: World, ack: Message, id: Id)
    requires AllShaped(c, w) && id in t.server && RowShaped(c, t, id)
    requires t.devices == w.devices && w.refused <= t.refused
    requires t.server == w.server[id := t.server[id]]
    requires id in w.server ==> NotNewer(Copy(w, id), Copy(t, id))
    requires t.wire == w.wire || (t.wire == w.wire + {ack} && Settled(t, ack.record))
    ensures Grows(c, w, t, ack)
  {
    forall i | i in t.server
      ensures RowShaped(c, t, i)
      ensures i in w.server ==> NotNewer(Copy(w, i), Copy(t, i))
    {
      if i != id {
        assert t.server[i] == w.server[i] && RowShaped(c, w, i);
        assert Copy(t, i) == Copy(w, i);
      }
    }
  }

  lemma HandledGrows(c: Collection, w: World, m: Message, dropped: set<Field>, inserted: Option<map<Field, Json>>)
    requires AllShaped(c, w) && Enabled(c, w, HandlePush(m, dropped, inserted))
    ensures Grows(c, w, Next(c, w, HandlePush(m, dropped, inserted)), Ack(m.device, m.record))
  {
    var id, kept, ack := m.record.id, c.synced - dropped, Ack(m.device, m.record);
    if id in w.server {
      assert RowShaped(c, w, id);
      MergingKeepsShape(c, w, m, kept);
      MergingSettles(c, w, m, kept);
      MergingTouches(w, m, kept);
      OneRowGrows(c, w, Merging(w, m, kept), ack, id);
    } else if inserted.Some? {
      InsertingSettles(c, w, m, inserted.value);
      OneRowGrows(c, w, Inserting(w, m, inserted.value), ack, id);
    }
  }

  lemma SettledStays(c: Collection, w: World, t: World, ack: Message, r: VersionedRecord)
    requires Settled(w, r) && Grows(c, w, t, ack)
    ensures Settled(t, r)
  {
    OlderStays(r, Copy(w, r.id), Copy(t, r.id), w.refused, t.refused);
  }

  lemma GrowingKeepsInvariant(c: Collection, w: World, t: World, ack: Message)
    requires Invariant(c, w) && Grows(c, w, t, ack) && ack.Ack? && Shaped(c, ack.record)
    ensures Invariant(c, t)
  {
    forall n | n in t.wire ensures Shaped(c, n.record) && (!n.Push? ==> Settled(t, n.record)) {
      if n in w.wire && !n.Push? {
        SettledStays(c, w, t, ack, n.record);
      }
    }
    forall d, id | d in t.devices && id in t.devices[d] && !t.devices[d][id].pending
      ensures Settled(t, t.devices[d][id].record)
    {
      SettledStays(c, w, t, ack, w.devices[d][id].record);
    }
  }

  // --- every step keeps the invariant ------------------------------------------------

  lemma DeviceStepKeepsInvariant(c: Collection, w: World, d: Device, id: Id, r: LocalRecord)
    requires Invariant(c, w) && d in w.devices
    requires Shaped(c, r.record) && r.record.id == id
    requires !r.pending ==> Settled(w, r.record)
    ensures Invariant(c, WithRecord(w, d, id, r))
  {
    var t := WithRecord(w, d, id, r);
    forall i | i in t.server ensures Copy(t, i) == Copy(w, i) && RowShaped(c, t, i) {
      assert RowShaped(c, w, i);
    }
    forall e, i | e in t.devices && i in t.devices[e]
      ensures t.devices[e][i] == (if e == d && i == id then r else w.devices[e][i]) {}
  }

  lemma SendKeepsInvariant(c: Collection, w: World, m: Message)
    requires Invariant(c, w) && Shaped(c, m.record)
    requires !m.Push? ==> Settled(w, m.record)
    ensures Invariant(c, w.(wire := w.wire + {m}))
  {
    var t := w.(wire := w.wire + {m});
    forall i | i in t.server ensures Copy(t, i) == Copy(w, i) && RowShaped(c, t, i) {
      assert RowShaped(c, w, i);
    }
  }

  lemma StepKeepsInvariant(c: Collection, w: World, e: Event)
    requires Invariant(c, w) && Enabled(c, w, e)
    ensures Invariant(c, Next(c, w, e))
  {
    match e
    case CreateRecord(d, id, fields, now) =>
      CreatedIsShaped(c, d, id, fields, now);
      DeviceStepKeepsInvariant(c, w, d, id, Created(d, id, fields, now));
    case MutateRecord(d, id, patch, now) =>
      MutatedIsShaped(c, w.devices[d][id].record, d, patch, now);
      DeviceStepKeepsInvariant(c, w, d, id, Mutated(w.devices[d][id].record, d, patch, now));
    case RemoveRecord(d, id, now) =>
      DeviceStepKeepsInvariant(c, w, d, id, Removed(w.devices[d][id].record, d, now));
    case SendCopy(id) =>
      assert RowShaped(c, w, id);
      SendKeepsInvariant(c, w, Pull(Copy(w, id)));
    case ReceiveCopy(d, m) =>
      var id := m.record.id;
      AppliedIsSettled(c, Lookup(w.devices[d], id), m.record, Copy(w, id), w.refused);
      DeviceStepKeepsInvariant(c, w, d, id, Applied(Lookup(w.devices[d], id), m.record));
    case SendPush(d, id) =>
      SendKeepsInvariant(c, w, Push(d, w.devices[d][id].record));
    case HandlePush(m, dropped, inserted) =>
      HandledGrows(c, w, m, dropped, inserted);
      GrowingKeepsInvariant(c, w, Next(c, w, e), Ack(m.device, m.record));
    case ReceiveAck(d, m) =>
      var id := m.record.id;
      if id in w.devices[d] {
        AcknowledgedIsSettled(w.devices[d][id], m.record, Copy(w, id), w.refused);
        DeviceStepKeepsInvariant(c, w, d, id, Acknowledged(w.devices[d][id], m.record));
      }
  }

  // --- runs ---------------------------------------------------------------------------

  /** Empty devices, nothing sent, and whatever shaped rows the server started with. */
  ghost predicate Initial(c: Collection, w: World) {
    && c.synced <= c.names
    && w.wire == {} && w.refused == {}
    && (forall d :: d in w.devices ==> w.devices[d] == map[])
    && (forall id :: id in w.server ==> RowShaped(c, w, id))
  }

  ghost predicate IsRun(c: Collection, worlds: seq<World>, events: seq<Event>) {
    && |worlds| == |events| + 1
    && Initial(c, worlds[0])
    && forall k :: 0 <= k < |events| ==>
         Enabled(c, worlds[k], events[k]) && worlds[k + 1] == Next(c, worlds[k], events[k])
  }

  /**
   * In every world that any run reaches, a record that is not pending has no tombstone newer than
   * the server's, and no newer field clock, except of a field write that was dropped from an
   * accepted push.
   */
  lemma {:induction false} RunSettlesAcknowledged(c: Collection, worlds: seq<World>, events: seq<Event>, k: nat)
    requires IsRun(c, worlds, events) && k <= |events|
    ensures Invariant(c, worlds[k])
  {
    if k > 0 {
      RunSettlesAcknowledged(c, worlds, events, k - 1);
      StepKeepsInvariant(c, worlds[k - 1], events[k - 1]);
    }
  }

  /** One field of the pushed record against the row after the merge. */
  lemma FieldStaysNewerIff(c: Collection, w: World, m: Message, kept: set<Field>, f: Field)
    requires m.Push? && Shaped(c, m.record) && kept <= c.synced
    requires m.record.id in w.server && RowShaped(c, w, m.record.id)
    ensures ClockOf(m.record, f) > ClockOf(Copy(Merging(w, m, kept), m.record.id), f) <==>
      f !in kept && f in m.record.clocks && m.record.clocks[f] > ClockOf(Copy(w, m.record.id), f)
  {
    MergingClock(c, w, m, kept, f);
    var row := Copy(w, m.record.id);
    assert f in row.clocks ==> row.clocks[f] >= 0.0;
  }

  lemma MergingTombs(c: Collection, w: World, m: Message, kept: set<Field>)
    requires m.Push? && Shaped(c, m.record) && kept <= c.synced
    requires m.record.id in w.server && RowShaped(c, w, m.record.id)
    ensures m.record.deletedAt.GetOr(0.0) <= Copy(Merging(w, m, kept), m.record.id).deletedAt.GetOr(0.0)
  {
    Server.StoredShape(w.server[m.record.id], Carried(m.record, kept));
  }

  /** No dropped field came with a later clock than the row's. */
  ghost predicate DroppedAreOlder(r: VersionedRecord, row: VersionedRecord, kept: set<Field>) {
    forall f :: f in r.clocks && f !in kept ==> r.clocks[f] <= ClockOf(row, f)
  }

  /**
   * The exception is real, and exact: after a push the server is at least as new as the pushed
   * record if and only if no dropped field came with a later clock than the row's.
   */
  lemma PushIsNotNewerIff(c: Collection, w: World, m: Message, kept: set<Field>)
    requires m.Push? && Shaped(c, m.record) && kept <= c.synced
    requires m.record.id in w.server && RowShaped(c, w, m.record.id)
    ensures NotNewer(m.record, Copy(Merging(w, m, kept), m.record.id)) <==>
      DroppedAreOlder(m.record, Copy(w, m.record.id), kept)
  {
    var r, row, after := m.record, Copy(w, m.record.id), Copy(Merging(w, m, kept), m.record.id);
    MergingTombs(c, w, m, kept);
    forall f
      ensures ClockOf(r, f) > ClockOf(after, f) <==> f !in kept && f in r.clocks && r.clocks[f] > ClockOf(row, f)
    {
      FieldStaysNewerIff(c, w, m, kept, f);
    }
    if NotNewer(r, after) {
      forall f | f in r.clocks && f !in kept ensures r.clocks[f] <= ClockOf(row, f) {
        assert ClockOf(r, f) <= ClockOf(after, f);
      }
    }
  }

  /** Either way an accepted push is acknowledged, and the device stops pushing an unchanged record. */
  lemma AcceptedStopsPushing(w: World, m: Message, kept: set<Field>)
    requires m.Push? && m.record.id in w.server
    requires Server.ClientAccepted(w.server[m.record.id], Carried(m.record, kept))
    ensures Ack(m.device, m.record) in Merging(w, m, kept).wire
    ensures !Acknowledged(LocalRecord(m.record, true), m.record).pending
  {
  }

  // --- when stamps identify values ----------------------------------------------------

  /** What was written to a field at a stamp, when no two different values share one. */
  type Ledger = (Id, Field, Stamp) -> Json

  ghost predicate Truthful(c: Collection, ledger: Ledger, r: VersionedRecord) {
    forall f :: f in c.synced ==> TextOf(r, f) == ledger(r.id, f, ClockOf(r, f))
  }

  /** The local writes of a run, and the server's own values on insert, agree with the ledger. */
  ghost predicate WritesTruthfully(c: Collection, ledger: Ledger, e: Event) {
    match e
    case CreateRecord(_, id, fields, now) =>
      forall f :: f in c.synced && f in fields ==> fields[f] == ledger(id, f, now)
    case MutateRecord(_, id, patch, now) =>
      forall f :: f in c.synced && f in patch && patch[f].Some? ==> patch[f].value == ledger(id, f, now)
    case HandlePush(m, _, inserted) =>
      inserted.Some? ==> forall f :: f in c.synced && f in inserted.value ==>
        inserted.value[f] == ledger(m.record.id, f, ClockOf(m.record, f))
    case _ => true
  }

  ghost predicate AllTruthful(c: Collection, ledger: Ledger, w: World) {
    && (forall id :: id in w.server ==> Truthful(c, ledger, Copy(w, id)))
    && (forall d, id :: d in w.devices && id in w.devices[d] ==> Truthful(c, ledger, w.devices[d][id].record))
    && (forall m :: m in w.wire ==> Truthful(c, ledger, m.record))
  }

  lemma MergedIsTruthful(c: Collection, ledger: Ledger, a: VersionedRecord, b: VersionedRecord)
    requires Shaped(c, a) && Shaped(c, b) && a.id == b.id
    requires Truthful(c, ledger, a) && Truthful(c, ledger, b)
    ensures Truthful(c, ledger, Merged(a, b))
  {
    var m := Merged(a, b);
    forall f | f in c.synced ensures TextOf(m, f) == ledger(m.id, f, ClockOf(m, f)) {
      assert CellAt(m, f) == MergedCell(a, b, f);
    }
  }

  lemma MutatedIsTruthful(c: Collection, ledger: Ledger, r: VersionedRecord, d: Device, patch: Patch, now: Stamp)
    requires Truthful(c, ledger, r)
    requires forall f :: f in c.synced && f in patch && patch[f].Some? ==> patch[f].value == ledger(r.id, f, now)
    ensures Truthful(c, ledger, Mutated(r, d, patch, now).record)
  {
    forall f ensures CellAt(Mutated(r, d, patch, now).record, f) ==
                     if Touches(patch, f) then Cell(now, patch[f].value) else CellAt(r, f) {
      MutatedCell(r, d, patch, now, f);
    }
  }

  lemma AppliedIsTruthful(c: Collection, ledger: Ledger, local: Option<LocalRecord>, remote: VersionedRecord)
    requires Shaped(c, remote) && Truthful(c, ledger, remote)
    requires local.Some? ==>
      && Shaped(c, local.value.record) && local.value.record.id == remote.id
      && Truthful(c, ledger, local.value.record)
    ensures Truthful(c, ledger, Applied(local, remote).record)
  {
    if local.Some? {
      MergedIsTruthful(c, ledger, local.value.record, remote);
    }
  }

  lemma CreatedIsTruthful(c: Collection, ledger: Ledger, d: Device, id: Id, fields: map<Field, Json>, now: Stamp)
    requires c.synced <= fields.Keys
    requires forall f :: f in c.synced && f in fields ==> fields[f] == ledger(id, f, now)
    ensures Truthful(c, ledger, Created(d, id, fields, now).record)
  {
  }

  lemma StepKeepsTruth(c: Collection, ledger: Ledger, w: World, e: Event)
    requires Invariant(c, w) && Enabled(c, w, e)
    requires AllTruthful(c, ledger, w) && WritesTruthfully(c, ledger, e)
    ensures AllTruthful(c, ledger, Next(c, w, e))
  {
    match e
    case CreateRecord(d, id, fields, now) =>
      CreatedIsTruthful(c, ledger, d, id, fields, now);
      DeviceStepKeepsTruth(c, ledger, w, d, id, Created(d, id, fields, now));
    case MutateRecord(d, id, patch, now) =>
      MutatedIsTruthful(c, ledger, w.devices[d][id].record, d, patch, now);
      DeviceStepKeepsTruth(c, ledger, w, d, id, Mutated(w.devices[d][id].record, d, patch, now));
    case RemoveRecord(d, id, now) =>
      DeviceStepKeepsTruth(c, ledger, w, d, id, Removed(w.devices[d][id].record, d, now));
    case SendCopy(id) =>
      SendKeepsTruth(c, ledger, w, Pull(Copy(w, id)));
    case ReceiveCopy(d, m) =>
      var id := m.record.id;
      AppliedIsTruthful(c, ledger, Lookup(w.devices[d], id), m.record);
      DeviceStepKeepsTruth(c, ledger, w, d, id, Applied(Lookup(w.devices[d], id), m.record));
    case SendPush(d, id) =>
      SendKeepsTruth(c, ledger, w, Push(d, w.devices[d][id].record));
    case HandlePush(m, dropped, inserted) =>
      if m.record.id in w.server {
        MergingKeepsTruth(c, ledger, w, m, c.synced - dropped);
      } else if inserted.Some? {
        InsertingKeepsTruth(c, ledger, w, m, inserted.value);
      }
    case ReceiveAck(d, m) =>
      var id := m.record.id;
      if id in w.devices[d] {
        DeviceStepKeepsTruth(c, ledger, w, d, id, Acknowledged(w.devices[d][id], m.record));
      }
  }

  lemma DeviceStepKeepsTruth(c: Collection, ledger: Ledger, w: World, d: Device, id: Id, r: LocalRecord)
    requires AllTruthful(c, ledger, w) && d in w.devices && Truthful(c, ledger, r.record)
    ensures AllTruthful(c, ledger, WithRecord(w, d, id, r))
  {
    var t := WithRecord(w, d, id, r);
    forall i | i in t.server ensures Copy(t, i) == Copy(w, i) {}
    forall e, i | e in t.devices && i in t.devices[e]
      ensures t.devices[e][i] == (if e == d && i == id then r else w.devices[e][i]) {}
  }

  lemma SendKeepsTruth(c: Collection, ledger: Ledger, w: World, m: Message)
    requires AllTruthful(c, ledger, w) && Truthful(c, ledger, m.record)
    ensures AllTruthful(c, ledger, w.(wire := w.wire + {m}))
  {
    var t := w.(wire := w.wire + {m});
    forall i | i in t.server ensures Copy(t, i) == Copy(w, i) {}
  }

  lemma MergingIsTruthful(c: Collection, ledger: Ledger, w: World, m: Message, kept: set<Field>)
    requires m.Push? && Shaped(c, m.record) && kept <= c.synced && Truthful(c, ledger, m.record)
    requires m.record.id in w.server && RowShaped(c, w, m.record.id) && Truthful(c, ledger, Copy(w, m.record.id))
    ensures Truthful(c, ledger, Copy(Merging(w, m, kept), m.record.id))
  {
    var id := m.record.id;
    var s, k := w.server[id], Carried(m.record, kept);
    forall f | f in c.synced
      ensures var r := Copy(Merging(w, m, kept), id); TextOf(r, f) == ledger(id, f, ClockOf(r, f))
    {
      assert ClockOf(Copy(w, id), f) == Server.ClockOf(s, f) >= 0.0;
      StoredCell(s, k, f);
      assert TextOf(Copy(w, id), f) == Server.TextOf(s, f);
      assert f in k.fields ==> Server.CellAt(k, f) == Cell(ClockOf(m.record, f), TextOf(m.record, f));
    }
  }

  lemma InsertingIsTruthful(c: Collection, ledger: Ledger, w: World, m: Message, fields: map<Field, Json>)
    requires m.Push? && fields.Keys == c.synced
    requires forall f :: f in c.synced && f in fields ==> fields[f] == ledger(m.record.id, f, ClockOf(m.record, f))
    ensures Truthful(c, ledger, Copy(Inserting(w, m, fields), m.record.id))
  {
  }

  lemma OneRowKeepsTruth(c: Collection, ledger: Ledger, w: World, t: World, id: Id, r: VersionedRecord)
    requires AllTruthful(c, ledger, w) && Truthful(c, ledger, r)
    requires id in t.server && t.server == w.server[id := t.server[id]] && Truthful(c, ledger, Copy(t, id))
    requires t.devices == w.devices && forall n :: n in t.wire ==> n in w.wire || n.record == r
    ensures AllTruthful(c, ledger, t)
  {
    forall i | i in t.server ensures Truthful(c, ledger, Copy(t, i)) {
      if i != id {
        assert Copy(t, i) == Copy(w, i);
      }
    }
  }

  lemma MergingKeepsTruth(c: Collection, ledger: Ledger, w: World, m: Message, kept: set<Field>)
    requires AllShaped(c, w) && AllTruthful(c, ledger, w) && m in w.wire && m.Push? && kept <= c.synced
    requires m.record.id in w.server
    ensures AllTruthful(c, ledger, Merging(w, m, kept))
  {
    assert RowShaped(c, w, m.record.id);
    MergingIsTruthful(c, ledger, w, m, kept);
    MergingTouches(w, m, kept);
    OneRowKeepsTruth(c, ledger, w, Merging(w, m, kept), m.record.id, m.record);
  }

  lemma InsertingKeepsTruth(c: Collection, ledger: Ledger, w: World, m: Message, fields: map<Field, Json>)
    requires AllTruthful(c, ledger, w) && m in w.wire && m.Push? && fields.Keys == c.synced
    requires forall f :: f in c.synced && f in fields ==> fields[f] == ledger(m.record.id, f, ClockOf(m.record, f))
    ensures AllTruthful(c, ledger, Inserting(w, m, fields))
  {
    InsertingIsTruthful(c, ledger, w, m, fields);
    OneRowKeepsTruth(c, ledger, w, Inserting(w, m, fields), m.record.id, m.record);
  }

  lemma {:induction false} RunIsTruthful(
    c: Collection, ledger: Ledger, worlds: seq<World>, events: seq<Event>, k: nat)
    requires IsRun(c, worlds, events) && k <= |events|
    requires AllTruthful(c, ledger, worlds[0])
    requires forall i :: 0 <= i < |events| ==> WritesTruthfully(c, ledger, events[i])
    ensures AllTruthful(c, ledger, worlds[k])
  {
    if k > 0 {
      RunIsTruthful(c, ledger, worlds, events, k - 1);
      RunSettlesAcknowledged(c, worlds, events, k - 1);
      StepKeepsTruth(c, ledger, worlds[k - 1], events[k - 1]);
    }
  }

  /** Not newer, and truthful to one ledger: at most the other cell in the merge order. */
  lemma NotNewerIsAtMost(c: Collection, ledger: Ledger, a: VersionedRecord, b: VersionedRecord, f: Field)
    requires f in c.synced && a.id == b.id && Truthful(c, ledger, a) && Truthful(c, ledger, b)
    requires ClockOf(a, f) <= ClockOf(b, f)
    ensures CellAtMost(CellAt(a, f), CellAt(b, f))
  {
  }

  /** Pulling a copy that a record's cell is at most leaves the copy's cell. */
  lemma PulledCell(l: LocalRecord, s: VersionedRecord, f: Field)
    requires NoStray(l.record) && NoStray(s) && f in s.fields && CellAtMost(CellAt(l.record, f), CellAt(s, f))
    ensures CellAt(Applied(Some(l), s).record, f) == CellAt(s, f)
  {
    WinnerIsGreater(l.record, s, f);
    MaxCellIsJoin(CellAt(l.record, f), CellAt(s, f), ABSENT);
    assert CellAt(Merged(l.record, s), f) == MergedCell(l.record, s, f);
    if !Changed(l.record, s) {
      assert ReportOf(l.record, s)[f] != Remote;
      CellOrder(CellAt(l.record, f), CellAt(s, f), ABSENT);
    }
  }

  /**
   * If no two different values share a stamp, pulling the server's current copy brings a record
   * that is not pending level with the server: in its tombstone, and in each synced field but those
   * whose last write was dropped from an accepted push.
   */
  lemma SettledRecordsCatchUp(
    c: Collection, ledger: Ledger, worlds: seq<World>, events: seq<Event>, k: nat, d: Device, id: Id)
    requires IsRun(c, worlds, events) && k <= |events|
    requires AllTruthful(c, ledger, worlds[0])
    requires forall i :: 0 <= i < |events| ==> WritesTruthfully(c, ledger, events[i])
    requires d in worlds[k].devices && id in worlds[k].devices[d] && !worlds[k].devices[d][id].pending
    ensures id in worlds[k].server
    ensures var r, s := worlds[k].devices[d][id].record, Copy(worlds[k], id);
      var after := Applied(Some(worlds[k].devices[d][id]), s);
      && !after.pending && after.record.deletedAt == s.deletedAt
      && forall f :: f in c.synced && (id, f, ClockOf(r, f)) !in worlds[k].refused ==>
           CellAtMost(CellAt(r, f), CellAt(s, f)) && CellAt(after.record, f) == CellAt(s, f)
  {
    var w := worlds[k];
    RunSettlesAcknowledged(c, worlds, events, k);
    RunIsTruthful(c, ledger, worlds, events, k);
    var l, s := w.devices[d][id], Copy(w, id);
    assert Settled(w, l.record) && RowShaped(c, w, id);
    PulledTomb(l, s);
    forall f | f in c.synced && (id, f, ClockOf(l.record, f)) !in w.refused
      ensures CellAtMost(CellAt(l.record, f), CellAt(s, f)) && CellAt(Applied(Some(l), s).record, f) == CellAt(s, f)
    {
      NotNewerIsAtMost(c, ledger, l.record, s, f);
      PulledCell(l, s, f);
    }
  }

  lemma PulledTomb(l: LocalRecord, s: VersionedRecord)
    requires l.record.deletedAt.Some? ==> l.record.deletedAt.value > 0.0
    requires l.record.deletedAt.GetOr(0.0) <= s.deletedAt.GetOr(0.0)
    ensures Applied(Some(l), s).record.deletedAt == s.deletedAt
  {
  }
}
