/**
 * What processing changes amounts to. A row ends as its old state with every change to it joined
 * in, whatever their order, except where a change omits a field stored with a stamp below zero.
 */
module ChangeAbsorption {
  import opened Text
  import opened SyncLattice
  import opened ServerMerge
  import opened ServerSync

  /** All synced fields, and no stray clock. */
  ghost predicate Shaped(strategy: Strategy, r: RecordState) {
    r.fields.Keys == strategy.syncFields && NoStray(r)
  }

  ghost predicate RowsShaped(strategy: Strategy, rows: Rows) {
    forall row :: row in rows ==> Shaped(strategy, rows[row])
  }

  /** A row after the changes that name it, merged and written back one after the other. */
  ghost function Processed(strategy: Strategy, s: RecordState, changes: seq<Change>, row: RowId): RecordState {
    if changes == [] then s
    else
      var c := changes[|changes| - 1];
      var rest := Processed(strategy, s, changes[..|changes| - 1], row);
      if strategy.rowOf(c.id) == row then Stored(rest, Sanitized(strategy, c)) else rest
  }

  /** The loop treats every row by itself. */
  lemma {:induction false} LoopProcesses(strategy: Strategy, o: Outcome, changes: seq<Change>, row: RowId)
    requires row in o.rows
    ensures var after := HandleAll(strategy, o, changes).rows;
      row in after && after[row] == Processed(strategy, o.rows[row], changes, row)
    decreases |changes|
  {
    if changes != [] {
      LoopProcesses(strategy, o, changes[..|changes| - 1], row);
    }
  }

  lemma {:induction false} ProcessedConcat(
    strategy: Strategy, s: RecordState, xs: seq<Change>, ys: seq<Change>, row: RowId)
    ensures Processed(strategy, s, xs + ys, row) == Processed(strategy, Processed(strategy, s, xs, row), ys, row)
    decreases |ys|
  {
    if ys == [] {
      assert xs + ys == xs;
    } else {
      var all, rest := xs + ys, ys[..|ys| - 1];
      assert all[..|all| - 1] == xs + rest && all[|all| - 1] == ys[|ys| - 1];
      ProcessedConcat(strategy, s, xs, rest, row);
    }
  }

  lemma {:induction false} ProcessedKeepsShape(strategy: Strategy, s: RecordState, changes: seq<Change>, row: RowId)
    requires Shaped(strategy, s)
    ensures Shaped(strategy, Processed(strategy, s, changes, row))
    decreases |changes|
  {
    if changes != [] {
      var rest, c := changes[..|changes| - 1], changes[|changes| - 1];
      ProcessedKeepsShape(strategy, s, rest, row);
      SanitizedShape(strategy, c);
      StoredShape(Processed(strategy, s, rest, row), Sanitized(strategy, c));
    }
  }

  /** One merge, written or skipped. */
  lemma ProcessedOneMore(strategy: Strategy, s: RecordState, rest: seq<Change>, c: Change, row: RowId)
    requires Shaped(strategy, s)
    ensures CoreOf(Processed(strategy, s, rest + [c], row)) ==
      if strategy.rowOf(c.id) == row
      then Patched(CoreOf(Processed(strategy, s, rest, row)), CoreOf(Sanitized(strategy, c)))
      else CoreOf(Processed(strategy, s, rest, row))
  {
    assert (rest + [c])[..|rest|] == rest;
    ProcessedKeepsShape(strategy, s, rest, row);
    SanitizedShape(strategy, c);
    if strategy.rowOf(c.id) == row {
      StoredIsPatched(Processed(strategy, s, rest, row), Sanitized(strategy, c));
    }
  }

  // --- absorbing ------------------------------------------------------------------------

  /** A starting state with every change to `row` laid over it, each in the fields it carries. */
  ghost function Absorb(strategy: Strategy, start: Core, changes: seq<Change>, row: RowId): Core {
    if changes == [] then start
    else
      var c := changes[|changes| - 1];
      var rest := Absorb(strategy, start, changes[..|changes| - 1], row);
      if strategy.rowOf(c.id) == row then Overlay(rest, CoreOf(Sanitized(strategy, c))) else rest
  }

  lemma AbsorbKeepsFields(strategy: Strategy, start: Core, changes: seq<Change>, row: RowId)
    ensures Absorb(strategy, start, changes, row).cells.Keys == start.cells.Keys
  {
    if changes != [] {
      AbsorbKeepsFields(strategy, start, changes[..|changes| - 1], row);
    }
  }

  /** `u` has the starting state and every change to `row`, in the fields each carries. */
  ghost predicate HasAll(strategy: Strategy, start: Core, changes: seq<Change>, row: RowId, u: Core) {
    && Within(start, u)
    && forall c: Change :: c in changes && strategy.rowOf(c.id) == row ==> Within(CoreOf(Sanitized(strategy, c)), u)
  }

  lemma HasAllMore(strategy: Strategy, start: Core, rest: seq<Change>, c: Change, row: RowId, u: Core)
    ensures HasAll(strategy, start, rest + [c], row, u) <==>
      && HasAll(strategy, start, rest, row, u)
      && (strategy.rowOf(c.id) == row ==> Within(CoreOf(Sanitized(strategy, c)), u))
  {
    assert forall d: Change :: d in rest + [c] <==> d in rest || d == c;
  }

  lemma HasAllAbove(strategy: Strategy, start: Core, changes: seq<Change>, row: RowId, u: Core, v: Core)
    requires HasAll(strategy, start, changes, row, u) && Within(u, v)
    ensures HasAll(strategy, start, changes, row, v)
  {
    WithinIsOrder(start, u, v);
    forall c: Change | c in changes && strategy.rowOf(c.id) == row ensures Within(CoreOf(Sanitized(strategy, c)), v) {
      WithinIsOrder(CoreOf(Sanitized(strategy, c)), u, v);
    }
  }

  /** Absorbing is a least upper bound, so it forgets order and repetition. */
  lemma {:induction false} AbsorbIsLeastUpperBound(strategy: Strategy, start: Core, changes: seq<Change>, row: RowId)
    requires start.cells.Keys == strategy.syncFields
    ensures var r := Absorb(strategy, start, changes, row);
      && HasAll(strategy, start, changes, row, r)
      && forall u :: HasAll(strategy, start, changes, row, u) ==> Within(r, u)
    decreases |changes|
  {
    if changes == [] {
      WithinIsOrder(start, start, start);
    } else {
      var rest, c := changes[..|changes| - 1], changes[|changes| - 1];
      assert changes == rest + [c];
      AbsorbIsLeastUpperBound(strategy, start, rest, row);
      AbsorbKeepsFields(strategy, start, rest, row);
      var p, q := Absorb(strategy, start, rest, row), CoreOf(Sanitized(strategy, c));
      var r := Absorb(strategy, start, changes, row);
      if strategy.rowOf(c.id) == row {
        OverlayIsLeastUpperBound(p, q, p);
        HasAllAbove(strategy, start, rest, row, p, r);
      }
      HasAllMore(strategy, start, rest, c, row, r);
      forall u | HasAll(strategy, start, changes, row, u) ensures Within(r, u) {
        HasAllMore(strategy, start, rest, c, row, u);
        OverlayIsLeastUpperBound(p, q, u);
      }
    }
  }

  /** Two change logs with the same changes to `row` absorb to the same state. */
  lemma AbsorbForgetsOrder(strategy: Strategy, start: Core, xs: seq<Change>, ys: seq<Change>, row: RowId)
    requires start.cells.Keys == strategy.syncFields
    requires forall c: Change :: strategy.rowOf(c.id) == row ==> (c in xs <==> c in ys)
    ensures Absorb(strategy, start, xs, row) == Absorb(strategy, start, ys, row)
  {
    AbsorbIsLeastUpperBound(strategy, start, xs, row);
    AbsorbIsLeastUpperBound(strategy, start, ys, row);
    var a, b := Absorb(strategy, start, xs, row), Absorb(strategy, start, ys, row);
    assert HasAll(strategy, start, ys, row, a) && HasAll(strategy, start, xs, row, b);
    WithinIsOrder(a, b, a);
  }

  /** When every change carries every synced field, absorbing is joining. */
  lemma {:induction false} AbsorbOfFull(strategy: Strategy, start: Core, changes: seq<Change>, row: RowId, c: Change)
    requires start.cells.Keys == strategy.syncFields
    requires Sanitized(strategy, c).fields.Keys == strategy.syncFields
    ensures Absorb(strategy, start, changes + [c], row) ==
      if strategy.rowOf(c.id) == row then Join(Absorb(strategy, start, changes, row), CoreOf(Sanitized(strategy, c)))
      else Absorb(strategy, start, changes, row)
  {
    assert (changes + [c])[..|changes|] == changes;
    AbsorbKeepsFields(strategy, start, changes, row);
    OverlayOfFull(Absorb(strategy, start, changes, row), CoreOf(Sanitized(strategy, c)));
  }

  // --- one field at a time -----------------------------------------------------------------

  ghost predicate Carries(strategy: Strategy, c: Change, row: RowId, f: Field) {
    strategy.rowOf(c.id) == row && f in Sanitized(strategy, c).fields
  }

  /** The change names the row, but leaves the field out, or the sanitizer drops it. */
  ghost predicate Omits(strategy: Strategy, c: Change, row: RowId, f: Field) {
    strategy.rowOf(c.id) == row && f !in Sanitized(strategy, c).fields
  }

  ghost function AbsorbedCell(strategy: Strategy, x: Cell, changes: seq<Change>, row: RowId, f: Field): Cell {
    if changes == [] then x
    else
      var c := changes[|changes| - 1];
      var rest := AbsorbedCell(strategy, x, changes[..|changes| - 1], row, f);
      if Carries(strategy, c, row, f) then MaxCell(rest, CellAt(Sanitized(strategy, c), f)) else rest
  }

  lemma {:induction false} AbsorbsByCell(strategy: Strategy, start: Core, changes: seq<Change>, row: RowId, f: Field)
    requires f in start.cells
    ensures f in Absorb(strategy, start, changes, row).cells
    ensures Absorb(strategy, start, changes, row).cells[f] == AbsorbedCell(strategy, start.cells[f], changes, row, f)
    decreases |changes|
  {
    if changes != [] {
      AbsorbsByCell(strategy, start, changes[..|changes| - 1], row, f);
    }
  }

  lemma {:induction false} AbsorbsTombs(strategy: Strategy, a: Core, b: Core, changes: seq<Change>, row: RowId)
    requires a.tomb == b.tomb
    ensures Absorb(strategy, a, changes, row).tomb == Absorb(strategy, b, changes, row).tomb
    decreases |changes|
  {
    if changes != [] {
      AbsorbsTombs(strategy, a, b, changes[..|changes| - 1], row);
    }
  }

  /** Joining `y` before or after lifting `x` makes a difference. */
  predicate Clashes(x: Cell, y: Cell) {
    && x.clock < 0.0
    && ((y.clock == 0.0 && Precedes(y.value, x.value)) ||
        (y.clock < 0.0 && CellLess(x, y) && y.value != x.value))
  }

  lemma ClashesIff(x: Cell, y: Cell)
    ensures Clashes(x, y) <==> Lifted(MaxCell(x, y)) != MaxCell(Lifted(x), y)
  {
    PrecedesOrder(x.value, y.value, []);
    PrecedesOrder(y.value, x.value, []);
  }

  /** No change that carries the field clashes with the cell. */
  ghost predicate NoClash(strategy: Strategy, x: Cell, changes: seq<Change>, row: RowId, f: Field) {
    forall d :: d in changes && Carries(strategy, d, row, f) ==> !Clashes(x, CellAt(Sanitized(strategy, d), f))
  }

  /** Without a clash, a lift may as well come first. */
  lemma {:induction false} LiftComesFirst(strategy: Strategy, x: Cell, changes: seq<Change>, row: RowId, f: Field)
    requires NoClash(strategy, x, changes, row, f)
    ensures var z := AbsorbedCell(strategy, x, changes, row, f);
      && Lifted(z) == AbsorbedCell(strategy, Lifted(x), changes, row, f)
      && CellAtMost(x, z) && (z.clock < 0.0 ==> z.value == x.value)
    decreases |changes|
  {
    if changes != [] {
      var rest, c := changes[..|changes| - 1], changes[|changes| - 1];
      assert forall d :: d in rest ==> d in changes;
      LiftComesFirst(strategy, x, rest, row, f);
      if Carries(strategy, c, row, f) {
        var z, y := AbsorbedCell(strategy, x, rest, row, f), CellAt(Sanitized(strategy, c), f);
        assert !Clashes(x, y) by {
          assert c in changes;
        }
        MaxCellIsJoin(z, y, x);
        CellOrder(x, z, y);
        CellOrder(x, z, MaxCell(z, y));
        ClashesIff(z, y);
      }
    }
  }

  // --- the lifts of a whole log ---------------------------------------------------------------

  ghost predicate OmittedBy(strategy: Strategy, changes: seq<Change>, row: RowId, f: Field) {
    exists c :: c in changes && Omits(strategy, c, row, f)
  }

  /** The starting state with each field lifted that some change omits. */
  ghost function LiftedStart(strategy: Strategy, start: Core, changes: seq<Change>, row: RowId): Core {
    start.(cells := map f | f in start.cells ::
      if OmittedBy(strategy, changes, row, f) then Lifted(start.cells[f]) else start.cells[f])
  }

  /** No change omits a field of `start` while another carries it and clashes with what is stored. */
  ghost predicate OrderFree(strategy: Strategy, start: Core, changes: seq<Change>, row: RowId) {
    forall f :: f in start.cells && OmittedBy(strategy, changes, row, f) ==>
      NoClash(strategy, start.cells[f], changes, row, f)
  }

  lemma OmittedByMore(strategy: Strategy, rest: seq<Change>, c: Change, row: RowId, f: Field)
    ensures OmittedBy(strategy, rest + [c], row, f) <==>
      OmittedBy(strategy, rest, row, f) || Omits(strategy, c, row, f)
  {
    assert forall d :: d in rest + [c] <==> d in rest || d == c;
    if Omits(strategy, c, row, f) {
      assert c in rest + [c];
    }
  }

  /** One field, one more change. */
  lemma CellOneMore(strategy: Strategy, start: Core, rest: seq<Change>, c: Change, row: RowId, f: Field)
    requires OrderFree(strategy, start, rest + [c], row) && f in start.cells && strategy.rowOf(c.id) == row
    ensures var before := AbsorbedCell(strategy, LiftedStart(strategy, start, rest, row).cells[f], rest, row, f);
      AbsorbedCell(strategy, LiftedStart(strategy, start, rest + [c], row).cells[f], rest + [c], row, f) ==
        if f in Sanitized(strategy, c).fields then MaxCell(before, CellAt(Sanitized(strategy, c), f))
        else Lifted(before)
  {
    assert (rest + [c])[..|rest|] == rest;
    OmittedByMore(strategy, rest, c, row, f);
    if f !in Sanitized(strategy, c).fields {
      assert Omits(strategy, c, row, f);
      var x := start.cells[f];
      assert NoClash(strategy, x, rest, row, f) by {
        assert NoClash(strategy, x, rest + [c], row, f);
        assert forall d :: d in rest ==> d in rest + [c];
      }
      LiftComesFirst(strategy, x, rest, row, f);
      LiftComesFirst(strategy, Lifted(x), rest, row, f);
    }
  }

  lemma OrderFreePrefix(strategy: Strategy, start: Core, rest: seq<Change>, c: Change, row: RowId)
    requires OrderFree(strategy, start, rest + [c], row)
    ensures OrderFree(strategy, start, rest, row)
  {
    assert forall d :: d in rest ==> d in rest + [c];
    forall f | f in start.cells && OmittedBy(strategy, rest, row, f)
      ensures NoClash(strategy, start.cells[f], rest, row, f)
    {
      OmittedByMore(strategy, rest, c, row, f);
      assert NoClash(strategy, start.cells[f], rest + [c], row, f);
    }
  }

  /** Then processing is absorbing, once the omitted fields are lifted. */
  lemma {:induction false} ProcessedIsAbsorbed(strategy: Strategy, s: RecordState, changes: seq<Change>, row: RowId)
    requires Shaped(strategy, s) && OrderFree(strategy, CoreOf(s), changes, row)
    ensures CoreOf(Processed(strategy, s, changes, row)) ==
      Absorb(strategy, LiftedStart(strategy, CoreOf(s), changes, row), changes, row)
    decreases |changes|
  {
    var start := CoreOf(s);
    if changes == [] {
      assert LiftedStart(strategy, start, changes, row).cells == start.cells;
    } else {
      var rest, c := changes[..|changes| - 1], changes[|changes| - 1];
      assert changes == rest + [c];
      OrderFreePrefix(strategy, start, rest, c, row);
      ProcessedIsAbsorbed(strategy, s, rest, row);
      ProcessedOneMore(strategy, s, rest, c, row);
      AbsorbedOneMore(strategy, start, rest, c, row);
    }
  }

  lemma AbsorbedOneMore(strategy: Strategy, start: Core, rest: seq<Change>, c: Change, row: RowId)
    requires OrderFree(strategy, start, rest + [c], row) && start.cells.Keys == strategy.syncFields
    ensures var before := Absorb(strategy, LiftedStart(strategy, start, rest, row), rest, row);
      Absorb(strategy, LiftedStart(strategy, start, rest + [c], row), rest + [c], row) ==
        if strategy.rowOf(c.id) == row then Patched(before, CoreOf(Sanitized(strategy, c))) else before
  {
    var all := rest + [c];
    var p, q := LiftedStart(strategy, start, rest, row), LiftedStart(strategy, start, all, row);
    assert all[..|rest|] == rest;
    if strategy.rowOf(c.id) == row {
      var l := Absorb(strategy, q, all, row);
      var r := Patched(Absorb(strategy, p, rest, row), CoreOf(Sanitized(strategy, c)));
      AbsorbKeepsFields(strategy, q, all, row);
      AbsorbKeepsFields(strategy, p, rest, row);
      AbsorbsTombs(strategy, p, q, rest, row);
      forall f | f in start.cells ensures l.cells[f] == r.cells[f] {
        AbsorbsByCell(strategy, q, all, row, f);
        AbsorbsByCell(strategy, p, rest, row, f);
        CellOneMore(strategy, start, rest, c, row, f);
      }
      assert l.cells == r.cells;
    } else {
      forall f | f in start.cells ensures OmittedBy(strategy, all, row, f) <==> OmittedBy(strategy, rest, row, f) {
        OmittedByMore(strategy, rest, c, row, f);
      }
      assert p.cells == q.cells;
    }
  }

  // --- exactly when rows absorb their changes -------------------------------------------------

  /** The change omits a field that the row stores with a stamp below zero. */
  ghost predicate OmitsNegative(strategy: Strategy, s: RecordState, c: Change, row: RowId) {
    exists f :: f in s.fields && ClockOf(s, f) < 0.0 && Omits(strategy, c, row, f)
  }

  lemma RowsAbsorbChanges(strategy: Strategy, s: RecordState, changes: seq<Change>, row: RowId)
    requires Shaped(strategy, s) && forall c :: c in changes ==> !OmitsNegative(strategy, s, c, row)
    ensures CoreOf(Processed(strategy, s, changes, row)) == Absorb(strategy, CoreOf(s), changes, row)
  {
    var start := CoreOf(s);
    forall f | f in start.cells && OmittedBy(strategy, changes, row, f)
      ensures start.cells[f].clock >= 0.0
      ensures NoClash(strategy, start.cells[f], changes, row, f)
    {
      var c :| c in changes && Omits(strategy, c, row, f);
      assert !OmitsNegative(strategy, s, c, row);
      assert ClockOf(s, f) == start.cells[f].clock;
    }
    ProcessedIsAbsorbed(strategy, s, changes, row);
    assert LiftedStart(strategy, start, changes, row).cells == start.cells;
  }

  lemma OmissionBreaksAbsorbing(strategy: Strategy, s: RecordState, c: Change, row: RowId)
    requires Shaped(strategy, s) && OmitsNegative(strategy, s, c, row)
    ensures CoreOf(Processed(strategy, s, [c], row)) != Absorb(strategy, CoreOf(s), [c], row)
  {
    var k := Sanitized(strategy, c);
    assert [c][..0] == [];
    assert Processed(strategy, s, [c], row) == Stored(s, k);
    assert Absorb(strategy, CoreOf(s), [c], row) == Overlay(CoreOf(s), CoreOf(k));
    SanitizedShape(strategy, c);
    StoredIsOverlayIff(s, k);
  }

  ghost predicate OnlyOf(changes: seq<Change>, allowed: iset<Change>) {
    forall c :: c in changes ==> c in allowed
  }

  ghost predicate RowAbsorbs(strategy: Strategy, o: Outcome, changes: seq<Change>, row: RowId)
    requires row in o.rows
  {
    var after := HandleAll(strategy, o, changes).rows;
    row in after && CoreOf(after[row]) == Absorb(strategy, CoreOf(o.rows[row]), changes, row)
  }

  /**
   * Over every loop with changes from a given set: each row ends as its old state with every change
   * to it joined in, in the fields it carries, if and only if none of the changes omits a field
   * that the row stores with a stamp below zero.
   */
  lemma RowsAbsorbIff(strategy: Strategy, o: Outcome, row: RowId, allowed: iset<Change>)
    requires row in o.rows && Shaped(strategy, o.rows[row])
    ensures (forall changes :: OnlyOf(changes, allowed) ==> RowAbsorbs(strategy, o, changes, row)) <==>
            (forall c :: c in allowed ==> !OmitsNegative(strategy, o.rows[row], c, row))
  {
    var s := o.rows[row];
    if forall c :: c in allowed ==> !OmitsNegative(strategy, s, c, row) {
      forall changes | OnlyOf(changes, allowed) ensures RowAbsorbs(strategy, o, changes, row) {
        LoopProcesses(strategy, o, changes, row);
        RowsAbsorbChanges(strategy, s, changes, row);
      }
    } else {
      var c :| c in allowed && OmitsNegative(strategy, s, c, row);
      LoopProcesses(strategy, o, [c], row);
      OmissionBreaksAbsorbing(strategy, s, c, row);
      assert OnlyOf([c], allowed) && !RowAbsorbs(strategy, o, [c], row);
    }
  }

  // --- exactly when their order is irrelevant -------------------------------------------------

  /** One change omits a field while the other brings a value that clashes with the stored one. */
  ghost predicate Disagree(strategy: Strategy, s: RecordState, c: Change, d: Change, row: RowId) {
    exists f :: f in s.fields && Omits(strategy, c, row, f) && Carries(strategy, d, row, f) &&
                Clashes(CellAt(s, f), CellAt(Sanitized(strategy, d), f))
  }

  ghost predicate EndAlike(strategy: Strategy, o: Outcome, xs: seq<Change>, ys: seq<Change>, row: RowId) {
    var a, b := HandleAll(strategy, o, xs).rows, HandleAll(strategy, o, ys).rows;
    row in a && row in b && CoreOf(a[row]) == CoreOf(b[row])
  }

  lemma SameChangesEndAlike(strategy: Strategy, o: Outcome, xs: seq<Change>, ys: seq<Change>, row: RowId)
    requires row in o.rows && Shaped(strategy, o.rows[row]) && forall c: Change :: c in xs <==> c in ys
    requires OrderFree(strategy, CoreOf(o.rows[row]), xs, row)
    ensures EndAlike(strategy, o, xs, ys, row)
  {
    var s := o.rows[row];
    var start := CoreOf(s);
    forall f ensures OmittedBy(strategy, xs, row, f) <==> OmittedBy(strategy, ys, row, f) {
    }
    forall f | f in start.cells && OmittedBy(strategy, ys, row, f)
      ensures NoClash(strategy, start.cells[f], ys, row, f)
    {
      assert NoClash(strategy, start.cells[f], xs, row, f);
    }
    assert LiftedStart(strategy, start, xs, row).cells == LiftedStart(strategy, start, ys, row).cells;
    LoopProcesses(strategy, o, xs, row);
    LoopProcesses(strategy, o, ys, row);
    ProcessedIsAbsorbed(strategy, s, xs, row);
    ProcessedIsAbsorbed(strategy, s, ys, row);
    AbsorbForgetsOrder(strategy, LiftedStart(strategy, start, xs, row), xs, ys, row);
  }

  lemma AgreeingIsOrderFree(strategy: Strategy, s: RecordState, xs: seq<Change>, row: RowId)
    requires forall c, d :: c in xs && d in xs ==> !Disagree(strategy, s, c, d, row)
    ensures OrderFree(strategy, CoreOf(s), xs, row)
  {
    var start := CoreOf(s);
    forall f | f in start.cells && OmittedBy(strategy, xs, row, f)
      ensures NoClash(strategy, start.cells[f], xs, row, f)
    {
      var c :| c in xs && Omits(strategy, c, row, f);
      forall d | d in xs && Carries(strategy, d, row, f)
        ensures !Clashes(start.cells[f], CellAt(Sanitized(strategy, d), f))
      {
        assert !Disagree(strategy, s, c, d, row);
      }
    }
  }

  lemma PermutationsEndAlike(strategy: Strategy, o: Outcome, xs: seq<Change>, ys: seq<Change>, row: RowId)
    requires row in o.rows && Shaped(strategy, o.rows[row]) && multiset(xs) == multiset(ys)
    requires forall c, d :: c in xs && d in xs ==> !Disagree(strategy, o.rows[row], c, d, row)
    ensures EndAlike(strategy, o, xs, ys, row)
  {
    AgreeingIsOrderFree(strategy, o.rows[row], xs, row);
    forall c: Change ensures c in xs <==> c in ys {
      assert c in xs <==> c in multiset(xs);
      assert c in ys <==> c in multiset(ys);
    }
    SameChangesEndAlike(strategy, o, xs, ys, row);
  }

  lemma DisagreementDependsOnOrder(strategy: Strategy, o: Outcome, c: Change, d: Change, row: RowId)
    requires row in o.rows && Shaped(strategy, o.rows[row]) && Disagree(strategy, o.rows[row], c, d, row)
    ensures !EndAlike(strategy, o, [c, d], [d, c], row)
  {
    var s := o.rows[row];
    var f :| f in s.fields && Omits(strategy, c, row, f) && Carries(strategy, d, row, f) &&
             Clashes(CellAt(s, f), CellAt(Sanitized(strategy, d), f));
    LoopProcesses(strategy, o, [c, d], row);
    LoopProcesses(strategy, o, [d, c], row);
    CellOfPair(strategy, s, c, d, row, f);
    CellOfPair(strategy, s, d, c, row, f);
    ClashesIff(CellAt(s, f), CellAt(Sanitized(strategy, d), f));
  }

  /** A field after two changes. */
  lemma CellOfPair(strategy: Strategy, s: RecordState, c: Change, d: Change, row: RowId, f: Field)
    requires Shaped(strategy, s) && f in s.fields && strategy.rowOf(c.id) == row && strategy.rowOf(d.id) == row
    ensures var t := CoreOf(Processed(strategy, s, [c, d], row));
      var x, p, q := CellAt(s, f), Sanitized(strategy, c), Sanitized(strategy, d);
      var y := if f in p.fields then MaxCell(x, CellAt(p, f)) else Lifted(x);
      f in t.cells && t.cells[f] == if f in q.fields then MaxCell(y, CellAt(q, f)) else Lifted(y)
  {
    assert [] + [c] == [c] && [c] + [d] == [c, d];
    ProcessedOneMore(strategy, s, [], c, row);
    ProcessedOneMore(strategy, s, [c], d, row);
  }

  /** A row ends alike in whatever order changes from the set are processed. */
  ghost predicate OrderNeverMatters(strategy: Strategy, o: Outcome, row: RowId, allowed: iset<Change>) {
    forall xs, ys :: OnlyOf(xs, allowed) && multiset(xs) == multiset(ys) ==> EndAlike(strategy, o, xs, ys, row)
  }

  ghost predicate NoneDisagree(strategy: Strategy, s: RecordState, row: RowId, allowed: iset<Change>) {
    forall c, d :: c in allowed && d in allowed ==> !Disagree(strategy, s, c, d, row)
  }

  /**
   * Sorting the changes to order the locks is harmless: a row ends as if the changes had been
   * processed in the order they were sent, or in any other. That is so for all changes from a given
   * set if and only if no two of them disagree over a field stored with a stamp below zero.
   */
  lemma ProcessingOrderIsIrrelevantIff(strategy: Strategy, o: Outcome, row: RowId, allowed: iset<Change>)
    requires row in o.rows && Shaped(strategy, o.rows[row])
    ensures OrderNeverMatters(strategy, o, row, allowed) <==> NoneDisagree(strategy, o.rows[row], row, allowed)
  {
    if NoneDisagree(strategy, o.rows[row], row, allowed) {
      forall xs, ys | OnlyOf(xs, allowed) && multiset(xs) == multiset(ys) ensures EndAlike(strategy, o, xs, ys, row) {
        PermutationsEndAlike(strategy, o, xs, ys, row);
      }
    } else {
      var c, d :| c in allowed && d in allowed && Disagree(strategy, o.rows[row], c, d, row);
      DisagreementDependsOnOrder(strategy, o, c, d, row);
      assert multiset([c, d]) == multiset([d, c]) && OnlyOf([c, d], allowed);
    }
  }

  /** In particular for the order that the loop uses. */
  lemma SortingIsHarmless(strategy: Strategy, o: Outcome, changes: seq<Change>, row: RowId)
    requires row in o.rows && Shaped(strategy, o.rows[row])
    requires forall c, d :: c in changes && d in changes ==> !Disagree(strategy, o.rows[row], c, d, row)
    ensures EndAlike(strategy, o, SortById(changes), changes, row)
  {
    SortByIdSorts(changes);
    PermutationsEndAlike(strategy, o, changes, SortById(changes), row);
  }

  /** So it is whatever the changes when every stored stamp is one that a device clock can issue. */
  lemma IssuedStampsNeverDisagree(strategy: Strategy, s: RecordState, c: Change, d: Change, row: RowId)
    requires forall f :: f in s.fields ==> ClockOf(s, f) >= 0.0
    ensures !OmitsNegative(strategy, s, c, row) && !Disagree(strategy, s, c, d, row)
  {
  }
}
