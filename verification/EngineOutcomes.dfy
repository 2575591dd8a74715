/** What a local edit, a removal or a pull leaves on the phone, in terms of stamps and cells. */
module EngineOutcomes {
  import opened Wrappers
  import opened Text
  import opened SyncLattice
  import opened MobileMerge
  import opened MergeHistory
  import opened SyncEngine

  // --- pulls ------------------------------------------------------------------------------

  /** No stamp of `b` is later than that of `a`. */
  ghost predicate AtLeastAsNew(a: VersionedRecord, b: VersionedRecord) {
    && (forall f :: f in b.clocks ==> b.clocks[f] <= ClockOf(a, f))
    && b.deletedAt.GetOr(0.0) <= a.deletedAt.GetOr(0.0)
  }

  lemma PulledCell(l: LocalRecord, remote: VersionedRecord, f: Field)
    requires NoStray(l.record) && NoStray(remote)
    ensures CellAt(Applied(Some(l), remote).record, f) == MaxCell(CellAt(l.record, f), CellAt(remote, f))
  {
    WinnerIsGreater(l.record, remote, f);
    if f in FieldNames(l.record, remote) {
      assert CellAt(Merged(l.record, remote), f) == MergedCell(l.record, remote, f);
      assert Changed(l.record, remote) || ReportOf(l.record, remote)[f] != Remote;
    }
  }

  /**
   * A pull joins the server's copy into a known record, cell by cell and mark by mark, and ends its
   * wait for a push exactly if that copy is at least as new in every stamp; the record is then level
   * with it. An unknown record arrives as the server has it, with nothing to push.
   */
  lemma PullSettlesIff(l: LocalRecord, remote: VersionedRecord, f: Field)
    requires NoStray(l.record) && NoStray(remote)
    ensures var a := Applied(Some(l), remote);
      && (a.pending <==> l.pending && !AtLeastAsNew(remote, l.record))
      && CellAt(a.record, f) == MaxCell(CellAt(l.record, f), CellAt(remote, f))
      && a.record.deletedAt == MaxTomb(l.record.deletedAt, remote.deletedAt)
      && (AtLeastAsNew(remote, l.record) && ClockOf(l.record, f) <= ClockOf(remote, f) ==>
            ClockOf(a.record, f) == ClockOf(remote, f))
    ensures Applied(None, remote) == LocalRecord(remote, false)
  {
    PulledCell(l, remote, f);
  }

  /** A pulled copy is absorbed: merging it once more would change nothing. */
  lemma PulledIsAbsorbed(local: Option<LocalRecord>, remote: VersionedRecord)
    requires NoStray(remote) && (local.Some? ==> NoStray(local.value.record))
    ensures !Changed(Applied(local, remote).record, remote)
  {
    var a := Applied(local, remote).record;
    if local.None? {
      ChangedIffNotBelow(remote, remote);
      MaxWriterIsJoin(WriterOf(remote), WriterOf(remote), WriterOf(remote));
      forall f ensures CellAtMost(CellOf(CoreOf(remote), f), CellOf(CoreOf(remote), f)) {
      }
      MaxTombIsJoin(remote.deletedAt, remote.deletedAt, None);
    } else if a != local.value.record {
      var l := local.value.record;
      MergedIsJoin(l, remote);
      ChangedIffNotBelow(a, remote);
      JoinIsJoin(CoreOf(remote), CoreOf(l), CoreOf(a));
      JoinCommutes(CoreOf(l), CoreOf(remote));
      BelowIsAbsorbed(CoreOf(remote), CoreOf(a));
      MaxWriterIsJoin(WriterOf(l), WriterOf(remote), WriterOf(remote));
    }
  }

  /** A window that is fetched again changes nothing: what a crash before the checkpoint relies on. */
  lemma PullTwiceIsPullOnce(local: Option<LocalRecord>, remote: VersionedRecord)
    requires NoStray(remote) && (local.Some? ==> NoStray(local.value.record))
    ensures Applied(Some(Applied(local, remote)), remote) == Applied(local, remote)
  {
    PulledIsAbsorbed(local, remote);
    var a := Applied(local, remote);
    if a.pending {
      var l := local.value.record;
      assert a.pending ==> LocalIsAhead(l, remote);
      if f :| f in l.clocks && l.clocks[f] > ClockOf(remote, f) {
        PulledCell(local.value, remote, f);
        assert f in a.record.clocks && a.record.clocks[f] > ClockOf(remote, f);
      }
      assert LocalIsAhead(a.record, remote);
    }
  }

  // --- edits and removals -----------------------------------------------------------------

  /** A created record wins in all its fields against any copy that is older, and carries its author. */
  lemma CreatedWins(nodeId: Str, id: Id, fields: map<Field, Json>, now: Stamp, other: VersionedRecord, f: Field)
    requires NoStray(other) && f in fields && now > 0.0
    requires forall g :: g in other.clocks ==> other.clocks[g] < now
    requires other.deletedAt.GetOr(0.0) < now
    ensures var c := Created(nodeId, id, fields, now);
      var m := Merged(c.record, other);
      && c.pending && Full(c.record) && c.record.id == id
      && f in m.fields && m.fields[f] == fields[f] && m.clocks[f] == now
      && m.nodeId == nodeId && !IsDeleted(m)
  {
    var c := Created(nodeId, id, fields, now).record;
    var m := Merged(c, other);
    MergedIsJoin(c, other);
    WinnerIsGreater(c, other, f);
    assert CellAt(m, f) == MergedCell(c, other, f);
    assert c.clocks[f] == now && MaxClock(c.clocks) == now;
  }

  /** Two devices edit one record offline: the later edit's device signs the merge, the greater id on a tie. */
  lemma LaterDeviceSigns(r: VersionedRecord, d: Str, p: Patch, t: Stamp, f: Field, e: Str, q: Patch, u: Stamp, g: Field)
    requires NoStray(r) && Touches(p, f) && Touches(q, g) && t > MaxClock(r.clocks) && u > MaxClock(r.clocks)
    ensures var a, b := Mutated(r, d, p, t), Mutated(r, e, q, u);
      var m := Merged(a.record, b.record);
      && a.pending && b.pending && m.id == r.id
      && m.nodeId == (if t > u || (t == u && Precedes(e, d)) then d else e)
  {
    var a, b := Mutated(r, d, p, t).record, Mutated(r, e, q, u).record;
    assert a.clocks[f] == t && b.clocks[g] == u;
    assert MaxClock(a.clocks) == t;
    assert MaxClock(b.clocks) == u;
  }

  lemma RemovalKeepsCells(r: VersionedRecord, d: Str, t: Stamp, f: Field)
    requires NoStray(r)
    ensures CellAt(Merged(r, Removed(r, d, t).record), f) == CellAt(r, f)
  {
    var removed := Removed(r, d, t).record;
    WinnerIsGreater(r, removed, f);
    if f in r.fields {
      assert CellAt(Merged(r, removed), f) == MergedCell(r, removed, f);
    }
  }

  /**
   * A removal that meets the record as it was deletes it, unless the device's clock lies behind a
   * stamp of the record; it touches no field, and on the tie of field clocks the greater id signs.
   */
  lemma RemovalMeetsOriginal(r: VersionedRecord, d: Str, t: Stamp, f: Field)
    requires NoStray(r) && t > 0.0
    ensures var m := Merged(r, Removed(r, d, t).record);
      && Removed(r, d, t).pending
      && (IsDeleted(m) <==> LaterTomb(r, t) >= MaxClock(r.clocks))
      && CellAt(m, f) == CellAt(r, f)
      && m.nodeId == (if Precedes(d, r.nodeId) then r.nodeId else d)
  {
    var removed := Removed(r, d, t).record;
    RemovalKeepsCells(r, d, t, f);
    MergedWriter(r, removed);
    assert Merged(r, removed).deletedAt == Some(LaterTomb(r, t));
  }
}
