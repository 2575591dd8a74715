/** The mobile client's merge of two versions of a record. */
module MobileMerge {
  import opened Wrappers
  import opened Text
  import opened SyncLattice

  type Id = Str

  datatype VersionedRecord = VersionedRecord(
    id: Id, fields: map<Field, Json>, clocks: map<Field, Stamp>, nodeId: Str, deletedAt: Option<Stamp>)

  datatype Winner = Local | Remote | Equal

  datatype MergeResult = MergeResult(merged: VersionedRecord, report: map<Field, Winner>, changed: bool)

  datatype MergeError = DifferentRecords(local: Id, remote: Id)

  /** `r.clocks[f] ?? 0`. */
  function ClockOf(r: VersionedRecord, f: Field): Stamp {
    if f in r.clocks then r.clocks[f] else 0.0
  }

  /** `JSON.stringify(r.fields[f] ?? null)`. */
  function TextOf(r: VersionedRecord, f: Field): Json {
    if f in r.fields then r.fields[f] else NULL_JSON
  }

  /** `pickField`: the later clock, then the greater JSON text. */
  function PickField(lClock: Stamp, lValue: Json, rClock: Stamp, rValue: Json): Winner {
    if lClock != rClock then (if lClock > rClock then Local else Remote)
    else if lValue == rValue then Equal
    else if Precedes(rValue, lValue) then Local
    else Remote
  }

  function CellAt(r: VersionedRecord, f: Field): Cell {
    Cell(ClockOf(r, f), TextOf(r, f))
  }

  function WinnerOf(l: VersionedRecord, r: VersionedRecord, f: Field): Winner {
    PickField(ClockOf(l, f), TextOf(l, f), ClockOf(r, f), TextOf(r, f))
  }

  /** The value and clock that the merge keeps for one field. */
  function MergedCell(l: VersionedRecord, r: VersionedRecord, f: Field): Cell {
    if WinnerOf(l, r, f) == Remote then CellAt(r, f) else CellAt(l, f)
  }

  function FieldNames(l: VersionedRecord, r: VersionedRecord): set<Field> {
    l.fields.Keys + r.fields.Keys
  }

  ghost function NewestNode(l: VersionedRecord, r: VersionedRecord): Str {
    var lMax, rMax := MaxClock(l.clocks), MaxClock(r.clocks);
    if lMax != rMax then (if lMax > rMax then l.nodeId else r.nodeId)
    else if Precedes(r.nodeId, l.nodeId) then l.nodeId else r.nodeId
  }

  /** The merged record that `mergeRecord` assembles. */
  ghost function Merged(l: VersionedRecord, r: VersionedRecord): VersionedRecord {
    VersionedRecord(
      l.id,
      map f | f in FieldNames(l, r) :: MergedCell(l, r, f).value,
      map f | f in FieldNames(l, r) :: MergedCell(l, r, f).clock,
      NewestNode(l, r),
      MaxTomb(l.deletedAt, r.deletedAt))
  }

  /** Its `changed` flag. */
  ghost predicate Changed(l: VersionedRecord, r: VersionedRecord) {
    || (exists f :: f in ReportOf(l, r) && ReportOf(l, r)[f] == Remote)
    || MaxTomb(l.deletedAt, r.deletedAt) != l.deletedAt
    || NewestNode(l, r) != l.nodeId
  }

  ghost function ReportOf(l: VersionedRecord, r: VersionedRecord): map<Field, Winner> {
    map f | f in FieldNames(l, r) :: WinnerOf(l, r, f)
  }

  /** One turn of the loop. */
  method MergeField(local: VersionedRecord, remote: VersionedRecord, key: Field)
    returns (value: Json, clock: Stamp, winner: Winner)
    requires key in FieldNames(local, remote)
    ensures winner == ReportOf(local, remote)[key]
    ensures value == Merged(local, remote).fields[key] && clock == Merged(local, remote).clocks[key]
  {
    winner := PickField(ClockOf(local, key), TextOf(local, key), ClockOf(remote, key), TextOf(remote, key));
    if winner == Remote {
      value, clock := TextOf(remote, key), ClockOf(remote, key);
    } else {
      value, clock := TextOf(local, key), ClockOf(local, key);
    }
  }

  /** The loop of `mergeRecord` over the union of the field names. */
  method MergeFields(local: VersionedRecord, remote: VersionedRecord)
    returns (fields: map<Field, Json>, clocks: map<Field, Stamp>, report: map<Field, Winner>, changed: bool)
    ensures fields == Merged(local, remote).fields && clocks == Merged(local, remote).clocks
    ensures report == ReportOf(local, remote)
    ensures changed <==> exists f :: f in report && report[f] == Remote
  {
    fields, clocks, report, changed := map[], map[], map[], false;
    ghost var f', c' := Merged(local, remote).fields, Merged(local, remote).clocks;
    ghost var r', done := ReportOf(local, remote), {};
    ghost var names := FieldNames(local, remote);
    assert f'.Keys == names && c'.Keys == names && r'.Keys == names;
    var todo := local.fields.Keys + remote.fields.Keys;
    while todo != {}
      invariant done + todo == names && done !! todo
      invariant FilledFor(fields, f', done) && FilledFor(clocks, c', done) && FilledFor(report, r', done)
      invariant changed <==> exists f :: f in done && r'[f] == Remote
      decreases todo
    {
      var key :| key in todo;
      var value, clock, winner := MergeField(local, remote, key);
      TakeOne(todo, done, key);
      FillOne(fields, f', done, key, value);
      FillOne(clocks, c', done, key, clock);
      FillOne(report, r', done, key, winner);
      fields, clocks, report := fields[key := value], clocks[key := clock], report[key := winner];
      if winner == Remote {
        changed := true;
      }
      todo, done := todo - {key}, done + {key};
    }
    assert done == names;
    FilledAll(fields, f', done);
    FilledAll(clocks, c', done);
    FilledAll(report, r', done);
  }

  method ComputeNewestNode(l: VersionedRecord, r: VersionedRecord) returns (nodeId: Str)
    ensures nodeId == NewestNode(l, r)
  {
    var lMax := ComputeMaxClock(l.clocks);
    var rMax := ComputeMaxClock(r.clocks);
    if lMax != rMax {
      return if lMax > rMax then l.nodeId else r.nodeId;
    }
    nodeId := if Precedes(r.nodeId, l.nodeId) then l.nodeId else r.nodeId;
  }

  /** `mergeRecord` as written. */
  method MergeRecord(local: VersionedRecord, remote: VersionedRecord) returns (r: Result<MergeResult, MergeError>)
    ensures local.id != remote.id ==> r == Failure(DifferentRecords(local.id, remote.id))
    ensures local.id == remote.id ==>
      && r.Success?
      && r.value.merged == Merged(local, remote)
      && r.value.report == ReportOf(local, remote)
      && r.value.changed == Changed(local, remote)
  {
    if local.id != remote.id {
      return Failure(DifferentRecords(local.id, remote.id));
    }
    var fields, clocks, report, changed := MergeFields(local, remote);
    var deletedAt := MaxTomb(local.deletedAt, remote.deletedAt);
    if deletedAt != local.deletedAt {
      changed := true;
    }
    var nodeId := ComputeNewestNode(local, remote);
    if nodeId != local.nodeId {
      changed := true;
    }
    r := Success(MergeResult(VersionedRecord(local.id, fields, clocks, nodeId, deletedAt), report, changed));
  }

  // --- the record as a lattice element ---------------------------------------

  /** No clock without its field: what both ends store and send. */
  predicate NoStray(r: VersionedRecord) {
    r.clocks.Keys <= r.fields.Keys
  }

  /** A clock for each field. */
  predicate Full(r: VersionedRecord) {
    r.clocks.Keys == r.fields.Keys
  }

  function CoreOf(r: VersionedRecord): Core {
    Core(map f | f in r.fields :: CellAt(r, f), r.deletedAt)
  }

  ghost function WriterOf(r: VersionedRecord): Writer {
    Writer(MaxClock(r.clocks), r.nodeId)
  }

  /** A full record is its id, its cells, its tombstone and its writer. */
  lemma FullRecordsEqual(a: VersionedRecord, b: VersionedRecord)
    requires Full(a) && Full(b) && a.id == b.id && a.nodeId == b.nodeId && CoreOf(a) == CoreOf(b)
    ensures a == b
  {
    assert a.fields.Keys == CoreOf(a).cells.Keys == b.fields.Keys;
    forall f | f in a.fields ensures a.fields[f] == b.fields[f] && a.clocks[f] == b.clocks[f] {
      assert CoreOf(a).cells[f] == CoreOf(b).cells[f];
    }
    assert a.fields == b.fields && a.clocks == b.clocks;
  }

  /** `mergeRecord` computes the join of the two records, and of their writers. */
  lemma MergedIsJoin(a: VersionedRecord, b: VersionedRecord)
    requires NoStray(a) && NoStray(b)
    ensures Full(Merged(a, b))
    ensures CoreOf(Merged(a, b)) == Join(CoreOf(a), CoreOf(b))
    ensures WriterOf(Merged(a, b)) == MaxWriter(WriterOf(a), WriterOf(b))
  {
    MergedCells(a, b);
    MergedWriter(a, b);
  }

  /** One field: the winner is the greater cell. */
  lemma WinnerIsGreater(l: VersionedRecord, r: VersionedRecord, f: Field)
    ensures WinnerOf(l, r, f) == Remote <==> CellLess(CellAt(l, f), CellAt(r, f))
    ensures MergedCell(l, r, f) == MaxCell(CellAt(l, f), CellAt(r, f))
  {
    PrecedesOrder(TextOf(l, f), TextOf(r, f), []);
  }

  lemma CellOfCore(r: VersionedRecord, f: Field)
    requires NoStray(r)
    ensures CellOf(CoreOf(r), f) == CellAt(r, f)
  {
  }

  lemma MergedCells(a: VersionedRecord, b: VersionedRecord)
    requires NoStray(a) && NoStray(b)
    ensures CoreOf(Merged(a, b)) == Join(CoreOf(a), CoreOf(b))
  {
    var m, j := CoreOf(Merged(a, b)), Join(CoreOf(a), CoreOf(b));
    assert m.cells.Keys == FieldNames(a, b) == j.cells.Keys;
    forall f | f in FieldNames(a, b) ensures m.cells[f] == j.cells[f] {
      MergedCellIsJoin(a, b, f);
    }
    assert m.cells == j.cells;
  }

  lemma MergedCellIsJoin(a: VersionedRecord, b: VersionedRecord, f: Field)
    requires NoStray(a) && NoStray(b) && f in FieldNames(a, b)
    ensures CoreOf(Merged(a, b)).cells[f] == Join(CoreOf(a), CoreOf(b)).cells[f]
  {
    WinnerIsGreater(a, b, f);
    CellOfCore(a, f);
    CellOfCore(b, f);
    assert CellAt(Merged(a, b), f) == MergedCell(a, b, f);
  }

  lemma MergedWriter(a: VersionedRecord, b: VersionedRecord)
    requires NoStray(a) && NoStray(b)
    ensures WriterOf(Merged(a, b)) == MaxWriter(WriterOf(a), WriterOf(b))
  {
    var m := Merged(a, b);
    forall f | f in m.clocks
      ensures ClockOf(a, f) <= m.clocks[f] && ClockOf(b, f) <= m.clocks[f]
      ensures m.clocks[f] == ClockOf(a, f) || m.clocks[f] == ClockOf(b, f)
    {}
    NewestOfUnion(a, b, m.clocks);
  }

  lemma NewestOfUnion(a: VersionedRecord, b: VersionedRecord, clocks: map<Field, Stamp>)
    requires a.clocks.Keys <= clocks.Keys && b.clocks.Keys <= clocks.Keys
    requires forall f :: f in clocks ==> ClockOf(a, f) <= clocks[f] && ClockOf(b, f) <= clocks[f]
    requires forall f :: f in clocks ==> clocks[f] == ClockOf(a, f) || clocks[f] == ClockOf(b, f)
    ensures var l, r := MaxClock(a.clocks), MaxClock(b.clocks); MaxClock(clocks) == if l > r then l else r
  {
    var l, r, m := MaxClock(a.clocks), MaxClock(b.clocks), MaxClock(clocks);
    assert l <= m by { if l > 0.0 { var f :| f in a.clocks && a.clocks[f] == l; assert ClockOf(a, f) <= clocks[f]; } }
    assert r <= m by { if r > 0.0 { var f :| f in b.clocks && b.clocks[f] == r; assert ClockOf(b, f) <= clocks[f]; } }
    if m > 0.0 {
      var f :| f in clocks && clocks[f] == m;
      assert ClockOf(a, f) <= l && ClockOf(b, f) <= r;
    }
  }

  /**
   * The merge laws on whole records, annotation included: commutative and associative on any two
   * records without stray clocks, idempotent on full ones.
   */
  lemma MergeLaws(a: VersionedRecord, b: VersionedRecord, c: VersionedRecord)
    requires NoStray(a) && NoStray(b) && NoStray(c) && a.id == b.id == c.id
    ensures Merged(a, b) == Merged(b, a)
    ensures Merged(a, Merged(b, c)) == Merged(Merged(a, b), c)
    ensures Full(a) ==> Merged(a, a) == a
  {
    MergedIsJoin(a, b);
    MergedIsJoin(b, a);
    MergedIsJoin(b, c);
    MergedIsJoin(a, a);
    MergedIsJoin(a, Merged(b, c));
    MergedIsJoin(Merged(a, b), c);
    JoinIsJoin(CoreOf(a), CoreOf(b), CoreOf(c));
    MaxWriterIsJoin(WriterOf(a), WriterOf(b), WriterOf(c));
    FullRecordsEqual(Merged(a, b), Merged(b, a));
    FullRecordsEqual(Merged(a, Merged(b, c)), Merged(Merged(a, b), c));
    if Full(a) {
      FullRecordsEqual(Merged(a, a), a);
    }
  }

  /**
   * `changed` says exactly that the local record was missing something, whatever fields the two
   * records have; an absent field counts as an absent value.
   */
  lemma ChangedIffNotBelow(l: VersionedRecord, r: VersionedRecord)
    requires NoStray(l) && NoStray(r)
    ensures Changed(l, r) <==> !(Absorbed(CoreOf(r), CoreOf(l)) && WriterAtMost(WriterOf(r), WriterOf(l)))
    ensures r.fields.Keys <= l.fields.Keys ==> (Absorbed(CoreOf(r), CoreOf(l)) <==> Below(CoreOf(r), CoreOf(l)))
    ensures !Changed(l, r) && Full(l) && r.fields.Keys <= l.fields.Keys ==> Merged(l, r) == l
  {
    ChangedMeansMissing(l, r);
    BelowIsAbsorbed(CoreOf(r), CoreOf(l));
    if !Changed(l, r) && Full(l) && r.fields.Keys <= l.fields.Keys {
      MergedIsJoin(l, r);
      BelowIffJoin(CoreOf(r), CoreOf(l));
      JoinCommutes(CoreOf(l), CoreOf(r));
      FullRecordsEqual(Merged(l, r), l);
    }
  }

  lemma ChangedMeansMissing(l: VersionedRecord, r: VersionedRecord)
    requires NoStray(l) && NoStray(r)
    ensures Changed(l, r) <==> !(Absorbed(CoreOf(r), CoreOf(l)) && WriterAtMost(WriterOf(r), WriterOf(l)))
  {
    RemoteWinsIffMissing(l, r);
    MaxTombIsJoin(l.deletedAt, r.deletedAt, None);
    if forall f :: f in FieldNames(l, r) ==> WinnerOf(l, r, f) != Remote {
      WriterUnmoved(l, r);
    }
  }

  lemma RemoteWinsIffMissing(l: VersionedRecord, r: VersionedRecord)
    requires NoStray(l) && NoStray(r)
    ensures (exists f :: f in ReportOf(l, r) && ReportOf(l, r)[f] == Remote) <==>
            exists f :: f in FieldNames(l, r) && WinnerOf(l, r, f) == Remote
    ensures (exists f :: f in FieldNames(l, r) && WinnerOf(l, r, f) == Remote) <==>
            !forall f :: CellAtMost(CellOf(CoreOf(r), f), CellOf(CoreOf(l), f))
  {
    forall f ensures f in FieldNames(l, r) && WinnerOf(l, r, f) == Remote <==>
                     !CellAtMost(CellOf(CoreOf(r), f), CellOf(CoreOf(l), f)) {
      WinnerIsGreater(l, r, f);
      CellOfCore(l, f);
      CellOfCore(r, f);
      CellOrder(CellAt(l, f), CellAt(r, f), ABSENT);
    }
    if f :| f in FieldNames(l, r) && WinnerOf(l, r, f) == Remote {
      assert ReportOf(l, r)[f] == Remote;
    }
  }

  lemma WriterUnmoved(l: VersionedRecord, r: VersionedRecord)
    requires NoStray(l) && NoStray(r)
    requires forall f :: f in FieldNames(l, r) ==> WinnerOf(l, r, f) != Remote
    ensures MaxClock(r.clocks) <= MaxClock(l.clocks)
    ensures NewestNode(l, r) == l.nodeId <==> WriterAtMost(WriterOf(r), WriterOf(l))
  {
    forall f | f in r.clocks ensures r.clocks[f] <= MaxClock(l.clocks) {
      assert f in FieldNames(l, r) && ClockOf(r, f) <= ClockOf(l, f);
    }
    PrecedesOrder(l.nodeId, r.nodeId, []);
    PrecedesOrder(r.nodeId, l.nodeId, []);
  }
}
