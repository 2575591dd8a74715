/**
 * Replicas that absorb the same versions agree, in whatever order, grouping or repetition; and
 * what that says about deletion, tested alike by the phone, the server and the web reads.
 */
module MergeHistory {
  import opened Wrappers
  import opened SyncLattice
  import opened MobileMerge
  import Server = ServerMerge

  /** How a replica came by its copy: a version, or the merge of two copies. */
  datatype History = Version(record: VersionedRecord) | Merge(left: History, right: History)

  ghost function Replica(h: History): VersionedRecord {
    match h
    case Version(r) => r
    case Merge(l, r) => Merged(Replica(l), Replica(r))
  }

  ghost function Versions(h: History): set<VersionedRecord> {
    match h
    case Version(r) => {r}
    case Merge(l, r) => Versions(l) + Versions(r)
  }

  /** All versions are of record `id`, with a clock for each field. */
  ghost predicate VersionsOf(h: History, id: Id) {
    forall r :: r in Versions(h) ==> r.id == id && Full(r)
  }

  /** A replica holds the least upper bound of the versions it absorbed. */
  lemma {:induction false} ReplicaIsLeastUpperBound(h: History, id: Id)
    requires VersionsOf(h, id)
    ensures Replica(h).id == id && Full(Replica(h))
    ensures forall r :: r in Versions(h) ==> Below(CoreOf(r), CoreOf(Replica(h)))
    ensures forall u :: (forall r :: r in Versions(h) ==> Below(CoreOf(r), u)) ==> Below(CoreOf(Replica(h)), u)
  {
    match h
    case Version(r) =>
      BelowIffJoin(CoreOf(r), CoreOf(r));
      JoinIdempotent(CoreOf(r));
    case Merge(a, b) =>
      ReplicaIsLeastUpperBound(a, id);
      ReplicaIsLeastUpperBound(b, id);
      var x, y := CoreOf(Replica(a)), CoreOf(Replica(b));
      MergedIsJoin(Replica(a), Replica(b));
      assert CoreOf(Replica(h)) == Join(x, y);
      forall r | r in Versions(h) ensures Below(CoreOf(r), Join(x, y)) {
        JoinIsJoin(x, y, x);
        JoinIsJoin(y, x, x);
        JoinIsJoin(CoreOf(r), if r in Versions(a) then x else y, Join(x, y));
      }
      forall u | forall r :: r in Versions(h) ==> Below(CoreOf(r), u) ensures Below(Join(x, y), u) {
        JoinIsJoin(x, y, u);
      }
  }

  lemma {:induction false} ReplicaWriter(h: History, id: Id)
    requires VersionsOf(h, id)
    ensures forall r :: r in Versions(h) ==> WriterAtMost(WriterOf(r), WriterOf(Replica(h)))
    ensures exists r :: r in Versions(h) && WriterOf(r) == WriterOf(Replica(h))
  {
    match h
    case Version(r) =>
      assert r in Versions(h);
      MaxWriterIsJoin(WriterOf(r), WriterOf(r), WriterOf(r));
    case Merge(a, b) =>
      ReplicaWriter(a, id);
      ReplicaWriter(b, id);
      ReplicaIsLeastUpperBound(a, id);
      ReplicaIsLeastUpperBound(b, id);
      MergedIsJoin(Replica(a), Replica(b));
      var x, y := WriterOf(Replica(a)), WriterOf(Replica(b));
      var w := MaxWriter(x, y);
      forall r | r in Versions(h) ensures WriterAtMost(WriterOf(r), w) {
        MaxWriterIsJoin(x, y, w);
        MaxWriterIsJoin(x, x, y);
        MaxWriterIsJoin(y, y, x);
        MaxWriterIsJoin(WriterOf(r), if r in Versions(a) then x else y, w);
      }
      var p :| p in Versions(a) && WriterOf(p) == x;
      var q :| q in Versions(b) && WriterOf(q) == y;
      assert p in Versions(h) && q in Versions(h);
  }

  /**
   * Convergence: two replicas that absorbed the same set of versions hold the same record,
   * annotation included, whatever the order, grouping and repetition of their merges.
   */
  lemma ReplicasConverge(g: History, h: History, id: Id)
    requires VersionsOf(g, id) && Versions(g) == Versions(h)
    ensures Replica(g) == Replica(h)
  {
    ReplicaIsLeastUpperBound(g, id);
    ReplicaIsLeastUpperBound(h, id);
    JoinIsJoin(CoreOf(Replica(g)), CoreOf(Replica(h)), CoreOf(Replica(g)));
    ReplicaWriter(g, id);
    ReplicaWriter(h, id);
    MaxWriterIsJoin(WriterOf(Replica(g)), WriterOf(Replica(h)), WriterOf(Replica(g)));
    FullRecordsEqual(Replica(g), Replica(h));
  }

  // --- deletion ----------------------------------------------------------------

  /** `isDeleted` on the phone. */
  ghost predicate IsDeleted(r: VersionedRecord) {
    r.deletedAt.Some? && r.deletedAt.value >= MaxClock(r.clocks)
  }

  /** `isDeleted` on the server. */
  ghost predicate IsDeletedOnServer(r: Server.RecordState) {
    if r.deletedAt.None? then false
    else
      var newest := MaxClock(r.clocks);
      r.deletedAt.value >= newest
  }

  /** A row as the web reads see it; a clock that is not a finite number is `None`. */
  datatype SyncDeletable = SyncDeletable(syncDeletedAt: Option<Stamp>, syncClocks: Option<map<Field, Option<Stamp>>>)

  function FiniteClocks(row: SyncDeletable): map<Field, Stamp> {
    var raw := row.syncClocks.GetOr(map[]);
    map f | f in raw && raw[f].Some? :: raw[f].value
  }

  /** `isSyncDeleted`. */
  ghost predicate IsSyncDeleted(row: SyncDeletable) {
    row.syncDeletedAt.Some? && row.syncDeletedAt.value >= MaxClock(FiniteClocks(row))
  }

  /** `filterVisible`. */
  ghost function FilterVisible(rows: seq<SyncDeletable>): (visible: seq<SyncDeletable>)
    ensures forall r :: r in visible <==> r in rows && !IsSyncDeleted(r)
  {
    if rows == [] then []
    else if IsSyncDeleted(rows[0]) then FilterVisible(rows[1..])
    else [rows[0]] + FilterVisible(rows[1..])
  }

  /** `part` is what `whole` has at the increasing indices `from`. */
  ghost predicate PicksOf(part: seq<SyncDeletable>, whole: seq<SyncDeletable>, from: seq<nat>) {
    && |from| == |part|
    && (forall i :: 0 <= i < |from| ==> from[i] < |whole| && whole[from[i]] == part[i])
    && (forall i, j :: 0 <= i < j < |from| ==> from[i] < from[j])
  }

  lemma PicksShift(part: seq<SyncDeletable>, whole: seq<SyncDeletable>, from: seq<nat>, head: SyncDeletable)
    returns (shifted: seq<nat>)
    requires PicksOf(part, whole, from)
    ensures PicksOf(part, [head] + whole, shifted) && PicksOf([head] + part, [head] + whole, [0] + shifted)
  {
    shifted := seq(|from|, i requires 0 <= i < |from| => from[i] + 1);
  }

  /** The visible rows come in the order of the read result. */
  lemma {:induction false} FilterVisibleKeepsOrder(rows: seq<SyncDeletable>) returns (from: seq<nat>)
    ensures PicksOf(FilterVisible(rows), rows, from)
  {
    if rows == [] {
      from := [];
    } else {
      var rest := FilterVisibleKeepsOrder(rows[1..]);
      var shifted := PicksShift(FilterVisible(rows[1..]), rows[1..], rest, rows[0]);
      assert rows == [rows[0]] + rows[1..];
      from := if IsSyncDeleted(rows[0]) then shifted else [0] + shifted;
    }
  }

  /** And each as often as it was read. */
  lemma {:induction false} FilterVisibleKeepsCount(rows: seq<SyncDeletable>, r: SyncDeletable)
    ensures multiset(FilterVisible(rows))[r] == if IsSyncDeleted(r) then 0 else multiset(rows)[r]
  {
    if rows != [] {
      FilterVisibleKeepsCount(rows[1..], r);
      assert rows == [rows[0]] + rows[1..];
    }
  }

  /** The row that stores a record: every clock a number, or no clocks column at all. */
  ghost predicate Stores(row: SyncDeletable, r: VersionedRecord) {
    && row.syncDeletedAt == r.deletedAt
    && (if row.syncClocks.None? then r.clocks == map[]
        else row.syncClocks.value == map f | f in r.clocks :: Some(r.clocks[f]))
  }

  lemma DeletionTestsAgree(r: VersionedRecord, s: Server.RecordState, row: SyncDeletable)
    requires Server.AsVersioned(r.id, s).clocks == r.clocks && s.deletedAt == r.deletedAt && Stores(row, r)
    ensures IsDeleted(r) <==> IsDeletedOnServer(s)
    ensures IsDeleted(r) <==> IsSyncDeleted(row)
  {
    assert FiniteClocks(row) == r.clocks;
  }

  ghost predicate NonNegative(h: History) {
    forall r :: r in Versions(h) ==>
      && (r.deletedAt.Some? ==> r.deletedAt.value >= 0.0)
      && (forall f :: f in r.clocks ==> r.clocks[f] >= 0.0)
  }

  lemma {:induction false} ReplicaTombstone(h: History)
    requires NonNegative(h)
    ensures Replica(h).deletedAt.Some? <==> exists r :: r in Versions(h) && r.deletedAt.Some?
    ensures Replica(h).deletedAt.Some? ==>
      && (exists r :: r in Versions(h) && r.deletedAt == Replica(h).deletedAt)
      && Replica(h).deletedAt.value >= 0.0
      && (forall r :: r in Versions(h) && r.deletedAt.Some? ==> r.deletedAt.value <= Replica(h).deletedAt.value)
  {
    match h
    case Version(r) =>
      assert r in Versions(h);
    case Merge(a, b) =>
      ReplicaTombstone(a);
      ReplicaTombstone(b);
      assert forall r :: r in Versions(h) <==> r in Versions(a) || r in Versions(b);
  }

  /**
   * Whatever the merges were, a record is deleted exactly when some version's tombstone is at
   * least as new as every field write of every version.
   */
  lemma DeletedIffTombstoneNewest(h: History, id: Id)
    requires VersionsOf(h, id) && NonNegative(h)
    ensures IsDeleted(Replica(h)) <==>
      exists r :: r in Versions(h) && r.deletedAt.Some? &&
                  forall q, f :: q in Versions(h) && f in q.clocks ==> q.clocks[f] <= r.deletedAt.value
  {
    ReplicaTombstone(h);
    ReplicaWriter(h, id);
    var newest := MaxClock(Replica(h).clocks);
    var w :| w in Versions(h) && WriterOf(w) == WriterOf(Replica(h));
    forall q, f | q in Versions(h) && f in q.clocks ensures q.clocks[f] <= newest {
      assert WriterAtMost(WriterOf(q), WriterOf(Replica(h)));
    }
    if r :| r in Versions(h) && r.deletedAt.Some? &&
            forall q, f :: q in Versions(h) && f in q.clocks ==> q.clocks[f] <= r.deletedAt.value {
      assert MaxClock(w.clocks) <= r.deletedAt.value;
    }
  }
}
