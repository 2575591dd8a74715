/** The server's merge of a client change into its row, and its agreement with the mobile merge. */
module ServerMerge {
  import opened Wrappers
  import opened Text
  import opened SyncLattice
  import Mobile = MobileMerge

  datatype RecordState = RecordState(
    fields: map<Field, Json>, clocks: map<Field, Stamp>, nodeId: Option<Str>, deletedAt: Option<Stamp>)

  datatype FieldWinner = Server | Client | Equal

  datatype ServerMergeResult = ServerMergeResult(
    merged: RecordState, report: map<Field, FieldWinner>,
    serverChanged: bool, clientAccepted: bool, serverAhead: bool)

  function ClockOf(r: RecordState, f: Field): Stamp {
    if f in r.clocks then r.clocks[f] else 0.0
  }

  function TextOf(r: RecordState, f: Field): Json {
    if f in r.fields then r.fields[f] else NULL_JSON
  }

  function PickField(sClock: Stamp, sValue: Json, cClock: Stamp, cValue: Json): FieldWinner {
    if sClock != cClock then (if sClock > cClock then Server else Client)
    else if sValue == cValue then Equal
    else if Precedes(cValue, sValue) then Server
    else Client
  }

  function WinnerOf(s: RecordState, c: RecordState, f: Field): FieldWinner {
    PickField(ClockOf(s, f), TextOf(s, f), ClockOf(c, f), TextOf(c, f))
  }

  function CellAt(r: RecordState, f: Field): Cell {
    Cell(ClockOf(r, f), TextOf(r, f))
  }

  function MergedCell(s: RecordState, c: RecordState, f: Field): Cell {
    if WinnerOf(s, c, f) == Client then CellAt(c, f) else CellAt(s, f)
  }

  function FieldNames(s: RecordState, c: RecordState): set<Field> {
    s.fields.Keys + c.fields.Keys
  }

  ghost function NewestNode(s: RecordState, c: RecordState): Option<Str> {
    var sMax, cMax := MaxClock(s.clocks), MaxClock(c.clocks);
    if sMax != cMax then (if sMax > cMax then s.nodeId else c.nodeId)
    else if Precedes(s.nodeId.GetOr([]), c.nodeId.GetOr([])) then c.nodeId else s.nodeId
  }

  /** The row that `mergeServerRecord` proposes to write. */
  ghost function Merged(s: RecordState, c: RecordState): RecordState {
    RecordState(
      map f | f in FieldNames(s, c) :: MergedCell(s, c, f).value,
      map f | f in FieldNames(s, c) :: MergedCell(s, c, f).clock,
      NewestNode(s, c),
      MaxTomb(s.deletedAt, c.deletedAt))
  }

  ghost function ReportOf(s: RecordState, c: RecordState): map<Field, FieldWinner> {
    map f | f in FieldNames(s, c) :: WinnerOf(s, c, f)
  }

  ghost predicate ClientWins(s: RecordState, c: RecordState) {
    exists f :: f in ReportOf(s, c) && ReportOf(s, c)[f] == Client
  }

  ghost predicate ServerChanged(s: RecordState, c: RecordState) {
    ClientWins(s, c) || MaxTomb(s.deletedAt, c.deletedAt) != s.deletedAt
  }

  ghost predicate ClientAccepted(s: RecordState, c: RecordState) {
    ClientWins(s, c) || c.deletedAt.GetOr(0.0) > s.deletedAt.GetOr(0.0)
  }

  ghost predicate ServerAhead(s: RecordState, c: RecordState) {
    || (exists f :: f in s.fields && ClockOf(s, f) > ClockOf(c, f))
    || s.deletedAt.GetOr(0.0) > c.deletedAt.GetOr(0.0)
  }

  method MergeField(server: RecordState, client: RecordState, key: Field)
    returns (value: Json, clock: Stamp, winner: FieldWinner)
    requires key in FieldNames(server, client)
    ensures winner == ReportOf(server, client)[key]
    ensures value == Merged(server, client).fields[key] && clock == Merged(server, client).clocks[key]
  {
    winner := PickField(ClockOf(server, key), TextOf(server, key), ClockOf(client, key), TextOf(client, key));
    if winner == Client {
      value, clock := TextOf(client, key), ClockOf(client, key);
    } else {
      value, clock := TextOf(server, key), ClockOf(server, key);
    }
  }

  /** The loop of `mergeServerRecord` over the union of the field names. */
  method MergeFields(server: RecordState, client: RecordState)
    returns (fields: map<Field, Json>, clocks: map<Field, Stamp>, report: map<Field, FieldWinner>, clientWon: bool)
    ensures fields == Merged(server, client).fields && clocks == Merged(server, client).clocks
    ensures report == ReportOf(server, client)
    ensures clientWon == ClientWins(server, client)
  {
    fields, clocks, report, clientWon := map[], map[], map[], false;
    ghost var f', c' := Merged(server, client).fields, Merged(server, client).clocks;
    ghost var r', done := ReportOf(server, client), {};
    ghost var names := FieldNames(server, client);
    assert f'.Keys == names && c'.Keys == names && r'.Keys == names;
    var todo := server.fields.Keys + client.fields.Keys;
    while todo != {}
      invariant done + todo == names && done !! todo
      invariant FilledFor(fields, f', done) && FilledFor(clocks, c', done) && FilledFor(report, r', done)
      invariant clientWon <==> exists f :: f in done && r'[f] == Client
      decreases todo
    {
      var key :| key in todo;
      var value, clock, winner := MergeField(server, client, key);
      TakeOne(todo, done, key);
      FillOne(fields, f', done, key, value);
      FillOne(clocks, c', done, key, clock);
      FillOne(report, r', done, key, winner);
      fields, clocks, report := fields[key := value], clocks[key := clock], report[key := winner];
      if winner == Client {
        clientWon := true;
      }
      todo, done := todo - {key}, done + {key};
    }
    assert done == names;
    FilledAll(fields, f', done);
    FilledAll(clocks, c', done);
    FilledAll(report, r', done);
  }

  method ComputeNewestNode(s: RecordState, c: RecordState) returns (nodeId: Option<Str>)
    ensures nodeId == NewestNode(s, c)
  {
    var sMax := ComputeMaxClock(s.clocks);
    var cMax := ComputeMaxClock(c.clocks);
    if sMax != cMax {
      return if sMax > cMax then s.nodeId else c.nodeId;
    }
    nodeId := if Precedes(s.nodeId.GetOr([]), c.nodeId.GetOr([])) then c.nodeId else s.nodeId;
  }

  /** `isServerAhead`, with its early return. */
  method IsServerAhead(s: RecordState, c: RecordState) returns (ahead: bool)
    ensures ahead == ServerAhead(s, c)
  {
    var todo := s.fields.Keys;
    while todo != {}
      invariant todo <= s.fields.Keys
      invariant forall f :: f in s.fields && f !in todo ==> ClockOf(s, f) <= ClockOf(c, f)
      decreases todo
    {
      var key :| key in todo;
      if ClockOf(s, key) > ClockOf(c, key) {
        return true;
      }
      todo := todo - {key};
    }
    ahead := s.deletedAt.GetOr(0.0) > c.deletedAt.GetOr(0.0);
  }

  /** `mergeServerRecord` as written. */
  method MergeServerRecord(server: RecordState, client: RecordState) returns (r: ServerMergeResult)
    ensures r.merged == Merged(server, client) && r.report == ReportOf(server, client)
    ensures r.serverChanged == ServerChanged(server, client)
    ensures r.clientAccepted == ClientAccepted(server, client)
    ensures r.serverAhead == ServerAhead(server, client)
  {
    var fields, clocks, report, clientWon := MergeFields(server, client);
    var serverChanged, clientAccepted := clientWon, clientWon;
    var deletedAt := MaxTomb(server.deletedAt, client.deletedAt);
    if deletedAt != server.deletedAt {
      serverChanged := true;
    }
    if client.deletedAt.GetOr(0.0) > server.deletedAt.GetOr(0.0) {
      clientAccepted := true;
    }
    var nodeId := ComputeNewestNode(server, client);
    var serverAhead := IsServerAhead(server, client);
    r := ServerMergeResult(RecordState(fields, clocks, nodeId, deletedAt), report,
                           serverChanged, clientAccepted, serverAhead);
  }

  // --- agreement with the client ------------------------------------------------

  /** The same state as the mobile client holds it; `null` node ids read as empty. */
  function AsVersioned(id: Mobile.Id, r: RecordState): Mobile.VersionedRecord {
    Mobile.VersionedRecord(id, r.fields, r.clocks, r.nodeId.GetOr([]), r.deletedAt)
  }

  predicate NoStray(r: RecordState) {
    r.clocks.Keys <= r.fields.Keys
  }

  function CoreOf(r: RecordState): Core {
    Core(map f | f in r.fields :: CellAt(r, f), r.deletedAt)
  }

  lemma CoreOfVersioned(id: Mobile.Id, r: RecordState)
    ensures Mobile.CoreOf(AsVersioned(id, r)) == CoreOf(r)
  {
    forall f ensures Mobile.CellAt(AsVersioned(id, r), f) == CellAt(r, f) {}
    assert Mobile.CoreOf(AsVersioned(id, r)).cells == CoreOf(r).cells;
  }

  /** The two merges, written twice, compute the same record, whichever side runs them. */
  lemma ServerAgreesWithMobile(id: Mobile.Id, s: RecordState, c: RecordState)
    ensures AsVersioned(id, Merged(s, c)) == Mobile.Merged(AsVersioned(id, s), AsVersioned(id, c))
    ensures AsVersioned(id, Merged(s, c)) == Mobile.Merged(AsVersioned(id, c), AsVersioned(id, s))
  {
    var vs, vc := AsVersioned(id, s), AsVersioned(id, c);
    SameFields(id, s, c);
    SameFieldsSwapped(id, s, c);
    PrecedesOrder(vs.nodeId, vc.nodeId, []);
    PrecedesOrder(vc.nodeId, vs.nodeId, []);
    MaxTombIsJoin(s.deletedAt, c.deletedAt, None);
  }

  lemma SameCell(id: Mobile.Id, s: RecordState, c: RecordState, f: Field)
    ensures var vs, vc := AsVersioned(id, s), AsVersioned(id, c);
      Mobile.MergedCell(vs, vc, f) == MergedCell(s, c, f) == Mobile.MergedCell(vc, vs, f)
  {
    PrecedesOrder(TextOf(s, f), TextOf(c, f), []);
    PrecedesOrder(TextOf(c, f), TextOf(s, f), []);
  }

  lemma SameFields(id: Mobile.Id, s: RecordState, c: RecordState)
    ensures var vs, vc := AsVersioned(id, s), AsVersioned(id, c);
      && Mobile.Merged(vs, vc).fields == Merged(s, c).fields
      && Mobile.Merged(vs, vc).clocks == Merged(s, c).clocks
  {
    var vs, vc := AsVersioned(id, s), AsVersioned(id, c);
    assert Mobile.FieldNames(vs, vc) == FieldNames(s, c);
    var l, r := Mobile.Merged(vs, vc), Merged(s, c);
    forall f | f in FieldNames(s, c) ensures l.fields[f] == r.fields[f] && l.clocks[f] == r.clocks[f] {
      SameCell(id, s, c, f);
    }
    assert l.fields == r.fields && l.clocks == r.clocks;
  }

  lemma SameFieldsSwapped(id: Mobile.Id, s: RecordState, c: RecordState)
    ensures var vs, vc := AsVersioned(id, s), AsVersioned(id, c);
      && Mobile.Merged(vc, vs).fields == Merged(s, c).fields
      && Mobile.Merged(vc, vs).clocks == Merged(s, c).clocks
  {
    var vs, vc := AsVersioned(id, s), AsVersioned(id, c);
    assert Mobile.FieldNames(vc, vs) == FieldNames(s, c);
    var l, r := Mobile.Merged(vc, vs), Merged(s, c);
    forall f | f in FieldNames(s, c) ensures l.fields[f] == r.fields[f] && l.clocks[f] == r.clocks[f] {
      SameCell(id, s, c, f);
    }
    assert l.fields == r.fields && l.clocks == r.clocks;
  }

  /** The server's merge is the join as well, so everything proved of the join holds of it. */
  lemma MergedIsJoin(s: RecordState, c: RecordState)
    requires NoStray(s) && NoStray(c)
    ensures CoreOf(Merged(s, c)) == Join(CoreOf(s), CoreOf(c))
    ensures Merged(s, c).clocks.Keys == Merged(s, c).fields.Keys == s.fields.Keys + c.fields.Keys
  {
    ServerAgreesWithMobile([], s, c);
    Mobile.MergedIsJoin(AsVersioned([], s), AsVersioned([], c));
    CoreOfVersioned([], s);
    CoreOfVersioned([], c);
    CoreOfVersioned([], Merged(s, c));
  }

  // --- what the flags mean --------------------------------------------------------

  /**
   * The flag says exactly that the change brings something new, whatever fields it names; for a
   * change within the row's fields, that the merge differs from the row.
   */
  lemma ServerChangedIffNotBelow(s: RecordState, c: RecordState)
    requires NoStray(s) && NoStray(c)
    ensures ServerChanged(s, c) <==> !Absorbed(CoreOf(c), CoreOf(s))
    ensures c.fields.Keys <= s.fields.Keys ==>
      (ServerChanged(s, c) <==> CoreOf(Merged(s, c)) != CoreOf(s))
  {
    ClientWinsIffMissing(s, c);
    MaxTombIsJoin(s.deletedAt, c.deletedAt, None);
    if c.fields.Keys <= s.fields.Keys {
      MergedIsJoin(s, c);
      BelowIsAbsorbed(CoreOf(c), CoreOf(s));
      BelowIffJoin(CoreOf(c), CoreOf(s));
      JoinCommutes(CoreOf(s), CoreOf(c));
    }
  }

  lemma ClientWinsIffMissing(s: RecordState, c: RecordState)
    requires NoStray(s) && NoStray(c)
    ensures ClientWins(s, c) <==> !forall f :: CellAtMost(CellOf(CoreOf(c), f), CellOf(CoreOf(s), f))
  {
    forall f ensures f in FieldNames(s, c) && WinnerOf(s, c, f) == Client <==>
                     !CellAtMost(CellOf(CoreOf(c), f), CellOf(CoreOf(s), f)) {
      ClientWinsField(s, c, f);
      CellOrder(CellAt(s, f), CellAt(c, f), ABSENT);
    }
    if f :| f in FieldNames(s, c) && WinnerOf(s, c, f) == Client {
      assert ReportOf(s, c)[f] == Client;
    }
  }

  lemma ClientWinsField(s: RecordState, c: RecordState, f: Field)
    requires NoStray(s) && NoStray(c)
    ensures CellOf(CoreOf(s), f) == CellAt(s, f) && CellOf(CoreOf(c), f) == CellAt(c, f)
    ensures WinnerOf(s, c, f) == Client <==> CellLess(CellAt(s, f), CellAt(c, f))
    ensures WinnerOf(s, c, f) == Client <==> MaxCell(CellAt(s, f), CellAt(c, f)) != CellAt(s, f)
  {
    PrecedesOrder(TextOf(s, f), TextOf(c, f), []);
    PrecedesOrder(TextOf(c, f), TextOf(s, f), []);
  }

  /**
   * After the merge, the client holds nothing that the server lacks; and unless the server is
   * ahead, the server holds no newer stamp than the client's.
   */
  lemma MergeDominatesClient(s: RecordState, c: RecordState)
    requires NoStray(s) && NoStray(c)
    ensures Below(CoreOf(c), CoreOf(Merged(s, c))) && Below(CoreOf(s), CoreOf(Merged(s, c)))
    ensures !ServerAhead(s, c) ==>
      && (forall f :: f in s.fields ==> ClockOf(Merged(s, c), f) == ClockOf(c, f))
      && Merged(s, c).deletedAt.GetOr(0.0) == c.deletedAt.GetOr(0.0)
  {
    MergedIsJoin(s, c);
    JoinIsJoin(CoreOf(s), CoreOf(c), CoreOf(s));
    JoinIsJoin(CoreOf(c), CoreOf(s), CoreOf(s));
    if !ServerAhead(s, c) {
      forall f | f in s.fields ensures ClockOf(Merged(s, c), f) == ClockOf(c, f) {
        assert Merged(s, c).clocks[f] == MergedCell(s, c, f).clock;
      }
    }
  }

  // --- changes the server loses ---------------------------------------------------

  /** No cell of the change beats the row's, and the row's stamps are no later than the change's. */
  ghost predicate HeldBack(s: RecordState, c: RecordState) {
    && (forall f :: f in s.fields ==> ClockOf(s, f) == ClockOf(c, f) && !Precedes(TextOf(s, f), TextOf(c, f)))
    && (forall f :: f in c.fields && f !in s.fields ==> !CellLess(CellAt(s, f), CellAt(c, f)))
    && s.deletedAt.GetOr(0.0) == c.deletedAt.GetOr(0.0)
  }

  /** The row holds back the change, and differs from it in a field that was sent. */
  ghost predicate LostTie(s: RecordState, c: RecordState) {
    HeldBack(s, c) && exists f :: f in c.fields && CellAt(s, f) != CellAt(c, f)
  }

  /** The server neither takes the change nor answers it, although it keeps something else. */
  ghost predicate SilentlyLost(s: RecordState, c: RecordState) {
    && !ClientAccepted(s, c) && !ServerAhead(s, c)
    && exists f :: f in c.fields && CellAt(Merged(s, c), f) != CellAt(c, f)
  }

  /**
   * The blind spot of the flags: on a clock tie that the server's value wins, the change is
   * neither accepted nor answered, so the client learns nothing. Exactly the ties do this.
   */
  lemma SilentLossIffTie(s: RecordState, c: RecordState)
    ensures SilentlyLost(s, c) <==> LostTie(s, c)
  {
    HeldBackIffSilent(s, c);
    if HeldBack(s, c) {
      forall f | f in c.fields ensures CellAt(Merged(s, c), f) == CellAt(s, f) {
        FieldOfMerged(s, c, f);
        StaleFieldTies(s, c, f);
      }
    }
  }

  lemma HeldBackIffSilent(s: RecordState, c: RecordState)
    ensures HeldBack(s, c) <==> !ClientAccepted(s, c) && !ServerAhead(s, c)
  {
    forall f | f in FieldNames(s, c)
      ensures ReportOf(s, c)[f] == Client <==> CellLess(CellAt(s, f), CellAt(c, f))
      ensures f in s.fields ==>
        (ReportOf(s, c)[f] != Client && ClockOf(s, f) <= ClockOf(c, f) <==>
         ClockOf(s, f) == ClockOf(c, f) && !Precedes(TextOf(s, f), TextOf(c, f)))
    {
      FieldOfMerged(s, c, f);
      StaleFieldTies(s, c, f);
    }
    if HeldBack(s, c) {
      assert forall f :: f in ReportOf(s, c) ==> ReportOf(s, c)[f] != Client;
    }
  }

  lemma FieldOfMerged(s: RecordState, c: RecordState, f: Field)
    requires f in FieldNames(s, c)
    ensures CellAt(Merged(s, c), f) == MergedCell(s, c, f) && ReportOf(s, c)[f] == WinnerOf(s, c, f)
  {
  }

  lemma StaleFieldTies(s: RecordState, c: RecordState, f: Field)
    ensures WinnerOf(s, c, f) == Client <==> CellLess(CellAt(s, f), CellAt(c, f))
    ensures WinnerOf(s, c, f) != Client && ClockOf(s, f) <= ClockOf(c, f) <==>
            ClockOf(s, f) == ClockOf(c, f) && !Precedes(TextOf(s, f), TextOf(c, f))
  {
    PrecedesOrder(TextOf(s, f), TextOf(c, f), []);
    PrecedesOrder(TextOf(c, f), TextOf(s, f), []);
  }

  const TITLE := Field([116, 105, 116, 108, 101])
  const POSITION := Field([112, 111, 115, 105, 116, 105, 111, 110, 73, 100, 120])

  /** The JSON text of a one-letter string. */
  function Quoted(letter: CodeUnit): Json {
    [34, letter, 34]
  }

  /**
   * Two devices set the title in the same millisecond, so to the same stamp; the server already
   * has "b" and now gets "a".
   */
  lemma SameMillisecondIsLost(stamp: Stamp, phone: Str, other: Str)
    requires stamp > 0.0
    ensures SilentlyLost(
      RecordState(map[TITLE := Quoted(98)], map[TITLE := stamp], Some(other), None),
      RecordState(map[TITLE := Quoted(97)], map[TITLE := stamp], Some(phone), None))
  {
    var s := RecordState(map[TITLE := Quoted(98)], map[TITLE := stamp], Some(other), None);
    var c := RecordState(map[TITLE := Quoted(97)], map[TITLE := stamp], Some(phone), None);
    assert SplitsAt(Quoted(97), Quoted(98), 1);
    PrecedesOrder(Quoted(97), Quoted(98), []);
    assert TITLE in c.fields && CellAt(s, TITLE) != CellAt(c, TITLE);
    SilentLossIffTie(s, c);
  }

  // --- the write-back -------------------------------------------------------------

  /** The merged value is `undefined`: the client wins a field that it did not send. */
  predicate Undefined(s: RecordState, c: RecordState, f: Field) {
    WinnerOf(s, c, f) == Client && f !in c.fields
  }

  /** The row after the targeted update, which leaves the column of an undefined value alone. */
  ghost function Stored(s: RecordState, c: RecordState): RecordState {
    if !ServerChanged(s, c) then s
    else
      var m := Merged(s, c);
      RecordState(map f | f in s.fields :: if Undefined(s, c, f) then s.fields[f] else m.fields[f],
                  m.clocks, m.nodeId, m.deletedAt)
  }

  /** The merged record as it travels back: undefined values have no place in JSON. */
  ghost function Sent(s: RecordState, c: RecordState): RecordState {
    var m := Merged(s, c);
    m.(fields := map f | f in m.fields && !Undefined(s, c, f) :: m.fields[f])
  }

  /** An omitted or dropped field wins the merge exactly when its stored cell is below an absent one. */
  lemma OmittedFieldWinsIff(s: RecordState, c: RecordState, f: Field)
    requires NoStray(c) && f in s.fields && f !in c.fields
    ensures Undefined(s, c, f) <==> ClockOf(s, f) < 0.0 || (ClockOf(s, f) == 0.0 && Precedes(TextOf(s, f), NULL_JSON))
  {
    StaleFieldTies(s, c, f);
  }

  /** All the same it is never written: at most a stamp below zero is lifted to zero. */
  lemma OmittedFieldIsKept(s: RecordState, c: RecordState, f: Field)
    requires NoStray(c) && f in s.fields && f !in c.fields
    ensures f in Stored(s, c).fields && TextOf(Stored(s, c), f) == TextOf(s, f)
    ensures ClockOf(Stored(s, c), f) == if ClockOf(s, f) < 0.0 then 0.0 else ClockOf(s, f)
  {
    StaleFieldTies(s, c, f);
    FieldOfMerged(s, c, f);
    if ClockOf(s, f) < 0.0 {
      assert ReportOf(s, c)[f] == Client;
    }
  }

  lemma SentFieldIsMerged(s: RecordState, c: RecordState, f: Field)
    requires c.fields.Keys <= s.fields.Keys && f in c.fields
    ensures f in Stored(s, c).fields && CellAt(Stored(s, c), f) == MaxCell(CellAt(s, f), CellAt(c, f))
  {
    StaleFieldTies(s, c, f);
    FieldOfMerged(s, c, f);
  }

  /** The row keeps its shape, and each of its fields has its clock once a change was written. */
  lemma StoredShape(s: RecordState, c: RecordState)
    requires NoStray(s) && c.fields.Keys <= s.fields.Keys
    ensures Stored(s, c).fields.Keys == s.fields.Keys && NoStray(Stored(s, c))
    ensures Stored(s, c).deletedAt == MaxTomb(s.deletedAt, c.deletedAt)
  {
  }

  /** What a merge leaves in the row: each field that was sent is joined in, the others are lifted. */
  lemma StoredIsPatched(s: RecordState, c: RecordState)
    requires NoStray(s) && NoStray(c) && c.fields.Keys <= s.fields.Keys
    ensures CoreOf(Stored(s, c)) == Patched(CoreOf(s), CoreOf(c))
  {
    StoredShape(s, c);
    var t, p := CoreOf(Stored(s, c)), Patched(CoreOf(s), CoreOf(c));
    forall f | f in s.fields ensures t.cells[f] == p.cells[f] {
      if f in c.fields {
        SentFieldIsMerged(s, c, f);
      } else {
        OmittedFieldIsKept(s, c, f);
      }
    }
    assert t.cells == p.cells;
  }

  /** The others just stay, unless one of them has a stamp below zero, and exactly then. */
  lemma StoredIsOverlayIff(s: RecordState, c: RecordState)
    requires NoStray(s) && NoStray(c) && c.fields.Keys <= s.fields.Keys
    ensures CoreOf(Stored(s, c)) == Overlay(CoreOf(s), CoreOf(c)) <==>
            forall f :: f in s.fields && f !in c.fields ==> ClockOf(s, f) >= 0.0
  {
    StoredIsPatched(s, c);
    PatchedIsOverlayIff(CoreOf(s), CoreOf(c));
    assert forall f :: f in s.fields ==> CoreOf(s).cells[f].clock == ClockOf(s, f);
  }

  /** The row is the full join only if no omitted field ranks below an absent one, unless it is null. */
  lemma StoredIsJoinIff(s: RecordState, c: RecordState)
    requires NoStray(s) && NoStray(c) && c.fields.Keys <= s.fields.Keys
    ensures CoreOf(Stored(s, c)) == Join(CoreOf(s), CoreOf(c)) <==>
            forall f :: f in s.fields && f !in c.fields ==>
              !(ClockOf(s, f) < 0.0 || (ClockOf(s, f) == 0.0 && Precedes(TextOf(s, f), NULL_JSON)))
              || TextOf(s, f) == NULL_JSON
  {
    StoredShape(s, c);
    var t, j := CoreOf(Stored(s, c)), Join(CoreOf(s), CoreOf(c));
    assert t.cells.Keys == j.cells.Keys;
    forall f | f in s.fields
      ensures t.cells[f] == j.cells[f] <==>
        || f in c.fields || TextOf(s, f) == NULL_JSON
        || !(ClockOf(s, f) < 0.0 || (ClockOf(s, f) == 0.0 && Precedes(TextOf(s, f), NULL_JSON)))
    {
      if f in c.fields {
        SentFieldIsMerged(s, c, f);
      } else {
        OmittedFieldIsKept(s, c, f);
      }
    }
    if t.cells == j.cells {
      assert forall f :: f in s.fields ==> t.cells[f] == j.cells[f];
    }
  }

  /**
   * A card made on the web, never synced, and a phone that sends only its title: the position is
   * "won" by the client, the flags report a change, and the row keeps its position.
   */
  lemma TitleOnlyChangeOnWebCard(phone: Str)
    ensures var s := RecordState(map[TITLE := Quoted(97), POSITION := Quoted(77)], map[], None, None);
      var c := RecordState(map[TITLE := Quoted(97)], map[], Some(phone), None);
      && Undefined(s, c, POSITION) && ServerChanged(s, c) && ClientAccepted(s, c)
      && Stored(s, c).fields == s.fields
      && CoreOf(Stored(s, c)) != Join(CoreOf(s), CoreOf(c))
  {
    var s := RecordState(map[TITLE := Quoted(97), POSITION := Quoted(77)], map[], None, None);
    var c := RecordState(map[TITLE := Quoted(97)], map[], Some(phone), None);
    assert SplitsAt(Quoted(77), NULL_JSON, 0);
    OmittedFieldWinsIff(s, c, POSITION);
    assert ReportOf(s, c)[POSITION] == Client;
    SentFieldIsMerged(s, c, TITLE);
    OmittedFieldIsKept(s, c, POSITION);
    StoredShape(s, c);
    assert Stored(s, c).fields == s.fields;
    StoredIsJoinIff(s, c);
  }

  /**
   * With a stamp below zero, the order of changes matters: lifted to zero by a change that omits
   * the field, the old value beats the edit that it would otherwise have lost to.
   */
  lemma NegativeStampDependsOnOrder(phone: Str)
    ensures var s := RecordState(map[TITLE := Quoted(97)], map[TITLE := -5.0], None, None);
      var edit := RecordState(map[TITLE := Quoted(98)], map[TITLE := -3.0], Some(phone), None);
      var other := RecordState(map[], map[], Some(phone), None);
      && TextOf(Stored(Stored(s, edit), other), TITLE) == Quoted(98)
      && TextOf(Stored(Stored(s, other), edit), TITLE) == Quoted(97)
  {
    var s := RecordState(map[TITLE := Quoted(97)], map[TITLE := -5.0], None, None);
    var edit := RecordState(map[TITLE := Quoted(98)], map[TITLE := -3.0], Some(phone), None);
    var other := RecordState(map[], map[], Some(phone), None);
    SentFieldIsMerged(s, edit, TITLE);
    OmittedFieldIsKept(Stored(s, edit), other, TITLE);
    OmittedFieldIsKept(s, other, TITLE);
    SentFieldIsMerged(Stored(s, other), edit, TITLE);
  }
}
