/**
 * What the change loop of `/sync` answers: which ids it accepts, which records it sends back, and
 * which rows it inserts.
 */
module SyncResponses {
  import opened Wrappers
  import opened Text
  import opened SyncLattice
  import opened ServerMerge
  import opened ServerSync
  import opened ChangeAbsorption
  import Protocol = SyncProtocol

  const NO_RESPONSE := Response([], [])

  // --- one change against one row ---------------------------------------------------------

  /** The stored cell of a field ranks below an absent one. */
  predicate BelowAbsent(s: RecordState, f: Field) {
    ClockOf(s, f) < 0.0 || (ClockOf(s, f) == 0.0 && Precedes(TextOf(s, f), NULL_JSON))
  }

  /** The change carries a greater cell or a later tombstone, or omits a field that ranks below an absent one. */
  ghost predicate BringsNews(s: RecordState, k: RecordState) {
    || (exists f :: f in k.fields && CellLess(CellAt(s, f), CellAt(k, f)))
    || (exists f :: f in s.fields && f !in k.fields && BelowAbsent(s, f))
    || k.deletedAt.GetOr(0.0) > s.deletedAt.GetOr(0.0)
  }

  /** Some stamp of the row is later than the change's, an absent clock or tombstone being 0. */
  ghost predicate RowIsLater(s: RecordState, k: RecordState) {
    || (exists f :: f in s.fields && ClockOf(s, f) > ClockOf(k, f))
    || s.deletedAt.GetOr(0.0) > k.deletedAt.GetOr(0.0)
  }

  lemma AcceptedIffNews(s: RecordState, k: RecordState)
    requires NoStray(k)
    ensures ClientAccepted(s, k) <==> BringsNews(s, k)
  {
    forall f | f in FieldNames(s, k)
      ensures ReportOf(s, k)[f] == FieldWinner.Client <==>
        if f in k.fields then CellLess(CellAt(s, f), CellAt(k, f)) else BelowAbsent(s, f)
    {
      FieldOfMerged(s, k, f);
      StaleFieldTies(s, k, f);
      if f !in k.fields {
        OmittedFieldWinsIff(s, k, f);
      }
    }
    if ClientWins(s, k) {
      var f :| f in ReportOf(s, k) && ReportOf(s, k)[f] == FieldWinner.Client;
      assert f in FieldNames(s, k);
    }
    if f :| f in k.fields && CellLess(CellAt(s, f), CellAt(k, f)) {
      assert ReportOf(s, k)[f] == FieldWinner.Client;
    }
    if f :| f in s.fields && f !in k.fields && BelowAbsent(s, f) {
      assert ReportOf(s, k)[f] == FieldWinner.Client;
    }
  }

  /** What goes back: each field that the change carries joined in, the others as stored. */
  ghost predicate IsEcho(s: RecordState, k: RecordState, sent: RecordState) {
    && (forall f :: f in sent.fields <==> f in s.fields && (f in k.fields || !BelowAbsent(s, f)))
    && (forall f :: f in sent.fields ==>
          CellAt(sent, f) == if f in k.fields then MaxCell(CellAt(s, f), CellAt(k, f)) else CellAt(s, f))
    && sent.deletedAt == MaxTomb(s.deletedAt, k.deletedAt) && sent.nodeId == NewestNode(s, k)
  }

  lemma SentIsEcho(s: RecordState, k: RecordState)
    requires NoStray(k) && k.fields.Keys <= s.fields.Keys
    ensures IsEcho(s, k, Sent(s, k))
  {
    forall f
      ensures f in Sent(s, k).fields <==> f in s.fields && (f in k.fields || !BelowAbsent(s, f))
      ensures f in Sent(s, k).fields ==>
        CellAt(Sent(s, k), f) == if f in k.fields then MaxCell(CellAt(s, f), CellAt(k, f)) else CellAt(s, f)
    {
      if f in s.fields {
        FieldOfMerged(s, k, f);
        StaleFieldTies(s, k, f);
        if f !in k.fields {
          OmittedFieldWinsIff(s, k, f);
        }
      }
    }
  }

  /** So a record sent back agrees with the row as it is then stored. */
  lemma EchoIsStored(s: RecordState, k: RecordState, f: Field)
    requires NoStray(s) && NoStray(k) && k.fields.Keys <= s.fields.Keys && f in Sent(s, k).fields
    ensures CellAt(Sent(s, k), f) == CellAt(Stored(s, k), f)
    ensures Sent(s, k).deletedAt == Stored(s, k).deletedAt
    ensures ServerChanged(s, k) ==> Sent(s, k).nodeId == Stored(s, k).nodeId
  {
    SentIsEcho(s, k);
    StoredShape(s, k);
    if f in k.fields {
      SentFieldIsMerged(s, k, f);
    } else {
      OmittedFieldIsKept(s, k, f);
    }
  }

  // --- the loop ---------------------------------------------------------------------------

  /** At its turn, the change is inserted or brings news to its row. */
  ghost predicate TurnAccepts(strategy: Strategy, rows: Rows, c: Change) {
    var row := strategy.rowOf(c.id);
    if row in rows then BringsNews(rows[row], Sanitized(strategy, c)) else strategy.tryInsert(c).Some?
  }

  ghost predicate TurnEchoes(strategy: Strategy, rows: Rows, c: Change) {
    var row := strategy.rowOf(c.id);
    row in rows && RowIsLater(rows[row], Sanitized(strategy, c))
  }

  /** The ids of the accepting turns, in order. */
  ghost predicate AcceptedAre(strategy: Strategy, o: Outcome, changes: seq<Change>, ids: seq<Id>) {
    if changes == [] then ids == []
    else
      var rest, c := changes[..|changes| - 1], changes[|changes| - 1];
      if TurnAccepts(strategy, HandleAll(strategy, o, rest).rows, c)
      then ids != [] && ids[|ids| - 1] == c.id && AcceptedAre(strategy, o, rest, ids[..|ids| - 1])
      else AcceptedAre(strategy, o, rest, ids)
  }

  /** One echo per turn against a later row, in order. */
  ghost predicate EchoesAre(strategy: Strategy, o: Outcome, changes: seq<Change>, echoes: seq<Echo>) {
    if changes == [] then echoes == []
    else
      var rest, c := changes[..|changes| - 1], changes[|changes| - 1];
      var rows := HandleAll(strategy, o, rest).rows;
      if TurnEchoes(strategy, rows, c)
      then
        && echoes != [] && echoes[|echoes| - 1].id == c.id
        && IsEcho(rows[strategy.rowOf(c.id)], Sanitized(strategy, c), echoes[|echoes| - 1].state)
        && EchoesAre(strategy, o, rest, echoes[..|echoes| - 1])
      else EchoesAre(strategy, o, rest, echoes)
  }

  lemma TurnAnswers(strategy: Strategy, o: Outcome, c: Change)
    requires RowsCarry(strategy, o.rows)
    ensures var t := Handle(strategy, o, c).response;
      && t.acceptedIds == o.response.acceptedIds + (if TurnAccepts(strategy, o.rows, c) then [c.id] else [])
      && (if TurnEchoes(strategy, o.rows, c) then
            && |t.changes| == |o.response.changes| + 1 && t.changes[..|o.response.changes|] == o.response.changes
            && t.changes[|o.response.changes|].id == c.id
            && IsEcho(o.rows[strategy.rowOf(c.id)], Sanitized(strategy, c), t.changes[|o.response.changes|].state)
          else t.changes == o.response.changes)
  {
    var row := strategy.rowOf(c.id);
    if row in o.rows {
      SanitizedShape(strategy, c);
      AcceptedIffNews(o.rows[row], Sanitized(strategy, c));
      SentIsEcho(o.rows[row], Sanitized(strategy, c));
    }
  }

  lemma {:induction false} LoopKeepsCarry(strategy: Strategy, o: Outcome, changes: seq<Change>)
    requires RowsCarry(strategy, o.rows) && InsertsCarry(strategy)
    ensures RowsCarry(strategy, HandleAll(strategy, o, changes).rows)
    decreases |changes|
  {
    if changes != [] {
      LoopKeepsCarry(strategy, o, changes[..|changes| - 1]);
    }
  }

  /** Over every loop: exactly the accepting turns are accepted, and exactly those against later rows echoed. */
  lemma {:induction false} LoopAnswers(strategy: Strategy, rows: Rows, changes: seq<Change>)
    requires RowsCarry(strategy, rows) && InsertsCarry(strategy)
    ensures var start := Outcome(rows, NO_RESPONSE);
      var r := HandleAll(strategy, start, changes).response;
      AcceptedAre(strategy, start, changes, r.acceptedIds) && EchoesAre(strategy, start, changes, r.changes)
    decreases |changes|
  {
    var start := Outcome(rows, NO_RESPONSE);
    if changes != [] {
      var rest, c := changes[..|changes| - 1], changes[|changes| - 1];
      LoopAnswers(strategy, rows, rest);
      LoopKeepsCarry(strategy, start, rest);
      var mid, r := HandleAll(strategy, start, rest), HandleAll(strategy, start, changes).response;
      TurnAnswers(strategy, mid, c);
      assert TurnAccepts(strategy, mid.rows, c) ==> r.acceptedIds[..|r.acceptedIds| - 1] == mid.response.acceptedIds;
    }
  }

  /** Change `i` has this id, and is accepted on the rows that it meets. */
  ghost predicate AcceptedAt(strategy: Strategy, o: Outcome, changes: seq<Change>, i: nat, id: Id) {
    && i < |changes| && changes[i].id == id
    && TurnAccepts(strategy, HandleAll(strategy, o, changes[..i]).rows, changes[i])
  }

  lemma {:induction false} AcceptedTurns(strategy: Strategy, o: Outcome, changes: seq<Change>, ids: seq<Id>, id: Id)
    requires AcceptedAre(strategy, o, changes, ids)
    ensures id in ids <==> exists i: nat :: AcceptedAt(strategy, o, changes, i, id)
    decreases |changes|
  {
    if changes != [] {
      var n := |changes| - 1;
      var rest, c := changes[..n], changes[n];
      var accepts := TurnAccepts(strategy, HandleAll(strategy, o, rest).rows, c);
      AcceptedTurns(strategy, o, rest, if accepts then ids[..|ids| - 1] else ids, id);
      forall i: nat | i < n ensures AcceptedAt(strategy, o, rest, i, id) <==> AcceptedAt(strategy, o, changes, i, id) {
        assert rest[..i] == changes[..i];
      }
      assert AcceptedAt(strategy, o, changes, n, id) <==> c.id == id && accepts;
      if accepts {
        assert ids == ids[..|ids| - 1] + [c.id];
      }
    }
  }

  /** An id is accepted exactly if some change with it was inserted or brought news at its turn. */
  lemma AcceptedIff(strategy: Strategy, rows: Rows, changes: seq<Change>, id: Id)
    requires RowsCarry(strategy, rows) && InsertsCarry(strategy)
    ensures var start := Outcome(rows, NO_RESPONSE);
      id in HandleAll(strategy, start, changes).response.acceptedIds <==>
      exists i: nat :: AcceptedAt(strategy, start, changes, i, id)
  {
    var start := Outcome(rows, NO_RESPONSE);
    LoopAnswers(strategy, rows, changes);
    AcceptedTurns(strategy, start, changes, HandleAll(strategy, start, changes).response.acceptedIds, id);
  }

  // --- inserted rows ----------------------------------------------------------------------

  /** Turn `i` is the first that names the unseen row and inserts it. */
  ghost predicate FirstInsert(strategy: Strategy, changes: seq<Change>, row: RowId, i: nat) {
    && i < |changes| && strategy.rowOf(changes[i].id) == row && strategy.tryInsert(changes[i]).Some?
    && forall j :: 0 <= j < i && strategy.rowOf(changes[j].id) == row ==> strategy.tryInsert(changes[j]).None?
  }

  lemma {:induction false} UninsertedStaysUnseen(strategy: Strategy, o: Outcome, changes: seq<Change>, row: RowId)
    requires row !in o.rows
    requires forall c :: c in changes && strategy.rowOf(c.id) == row ==> strategy.tryInsert(c).None?
    ensures row !in HandleAll(strategy, o, changes).rows
    decreases |changes|
  {
    if changes != [] {
      UninsertedStaysUnseen(strategy, o, changes[..|changes| - 1], row);
    }
  }

  lemma {:induction false} HandleAllConcat(strategy: Strategy, o: Outcome, xs: seq<Change>, ys: seq<Change>)
    ensures HandleAll(strategy, o, xs + ys) == HandleAll(strategy, HandleAll(strategy, o, xs), ys)
    decreases |ys|
  {
    if ys == [] {
      assert xs + ys == xs;
    } else {
      var all, rest := xs + ys, ys[..|ys| - 1];
      assert all[..|all| - 1] == xs + rest && all[|all| - 1] == ys[|ys| - 1];
      HandleAllConcat(strategy, o, xs, rest);
    }
  }

  /** An unseen row appears exactly if some change inserts it, and then the later changes are merged into it. */
  lemma UnseenRowIsInserted(strategy: Strategy, o: Outcome, changes: seq<Change>, row: RowId, i: nat)
    requires row !in o.rows && FirstInsert(strategy, changes, row, i)
    ensures var after := HandleAll(strategy, o, changes).rows;
      && row in after
      && after[row] == Processed(strategy, strategy.tryInsert(changes[i]).value, changes[i + 1..], row)
  {
    var before, later := changes[..i], changes[i + 1..];
    UninsertedStaysUnseen(strategy, o, before, row);
    assert changes == before + [changes[i]] + later;
    HandleAllConcat(strategy, o, before + [changes[i]], later);
    assert (before + [changes[i]])[..i] == before;
    LoopProcesses(strategy, HandleAll(strategy, o, before + [changes[i]]), later, row);
  }

  // --- the protocol's acknowledgement -------------------------------------------------------

  /** The step that the protocol takes for a push is what the loop does with it, and answers. */
  lemma PushIsAnswered(c: Protocol.Collection, strategy: Strategy, w: Protocol.World, m: Protocol.Message,
                       inserted: Option<map<Field, Json>>)
    requires m.Push? && Mobile.NoStray(m.record) && strategy.syncFields == c.synced
    requires strategy.rowOf(m.record.id) == m.record.id
    requires strategy.tryInsert(Protocol.AsChange(m.record)) ==
      if inserted.Some? then Some(Protocol.InsertedRow(m.record, inserted.value)) else None
    requires var dropped := set f | f in m.record.fields && !strategy.accepts(f, m.record.fields[f]);
      Protocol.Enabled(c, w, Protocol.HandlePush(m, dropped, inserted))
    ensures var dropped := set f | f in m.record.fields && !strategy.accepts(f, m.record.fields[f]);
      var t := Protocol.Next(c, w, Protocol.HandlePush(m, dropped, inserted));
      var o := HandleAll(strategy, Outcome(w.server, NO_RESPONSE), [Protocol.AsChange(m.record)]);
      && t.server == o.rows
      && t.wire == w.wire + (if m.record.id in o.response.acceptedIds then {Protocol.Ack(m.device, m.record)} else {})
  {
    var change, start := Protocol.AsChange(m.record), Outcome(w.server, NO_RESPONSE);
    Protocol.CarriedIsSanitized(strategy, m.record);
    assert [change][..0] == [];
    assert HandleAll(strategy, start, [change]) == Handle(strategy, start, change);
  }
}
