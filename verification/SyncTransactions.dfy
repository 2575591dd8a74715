/**
 * Concurrent `/sync` transactions over shared rows, each keeping its row locks until it ends: they
 * leave the rows as if the requests had been processed one after the other.
 */
module SyncTransactions {
  import opened Wrappers
  import opened ServerMerge
  import opened ServerSync
  import opened ChangeAbsorption

  type TxId = nat

  /**
   * A running transaction: the request, what it has processed and still has to, the row it has
   * locked and read but not merged yet, and its uncommitted writes.
   */
  datatype Tx = Tx(changes: seq<Change>, done: seq<Change>, todo: seq<Change>, read: Option<RecordState>, written: Rows)

  /** Committed rows, lock owners and running transactions; `log` is every change committed so far, as processed. */
  datatype Db = Db(rows: Rows, owner: map<RowId, TxId>, running: map<TxId, Tx>, log: seq<Change>)

  datatype Event =
    | Begin(t: TxId, changes: seq<Change>)
    | Skip(t: TxId)
    | Lock(t: TxId)
    | Write(t: TxId)
    | Commit(t: TxId)
    | Abort(t: TxId)

  /** The row that the next change names. */
  function NextRow(strategy: Strategy, tx: Tx): RowId
    requires tx.todo != []
  {
    strategy.rowOf(tx.todo[0].id)
  }

  /** What a transaction sees: its own writes over the committed rows. */
  function View(rows: Rows, tx: Tx, row: RowId): RecordState
    requires row in rows
  {
    if row in tx.written then tx.written[row] else rows[row]
  }

  ghost predicate Idle(db: Db, t: TxId) {
    t in db.running && db.running[t].read.None?
  }

  /** The next row is locked by another transaction. */
  ghost predicate Waits(strategy: Strategy, db: Db, t: TxId) {
    && Idle(db, t) && db.running[t].todo != []
    && var row := NextRow(strategy, db.running[t]);
      row in db.rows && row in db.owner && db.owner[row] != t
  }

  ghost predicate Enabled(strategy: Strategy, db: Db, e: Event) {
    match e
    case Begin(t, _) => t !in db.running
    case Skip(t) => Idle(db, t) && db.running[t].todo != [] && NextRow(strategy, db.running[t]) !in db.rows
    case Lock(t) =>
      Idle(db, t) && db.running[t].todo != [] && NextRow(strategy, db.running[t]) in db.rows && !Waits(strategy, db, t)
    case Write(t) => t in db.running && db.running[t].read.Some? && db.running[t].todo != []
    case Commit(t) => Idle(db, t) && db.running[t].todo == []
    case Abort(t) => t in db.running
  }

  function Released(owner: map<RowId, TxId>, t: TxId): map<RowId, TxId> {
    map row | row in owner && owner[row] != t :: owner[row]
  }

  ghost function Written(strategy: Strategy, tx: Tx): Rows
    requires tx.read.Some? && tx.todo != []
  {
    var s, k := tx.read.value, Sanitized(strategy, tx.todo[0]);
    if ServerChanged(s, k) then tx.written[NextRow(strategy, tx) := Stored(s, k)] else tx.written
  }

  /** The transaction after its own step. */
  ghost function Advanced(strategy: Strategy, db: Db, e: Event): Tx
    requires Enabled(strategy, db, e) && (e.Skip? || e.Lock? || e.Write?)
  {
    var tx := db.running[e.t];
    match e
    case Lock(t) => tx.(read := Some(View(db.rows, tx, NextRow(strategy, tx))))
    case Skip(t) => tx.(done := tx.done + [tx.todo[0]], todo := tx.todo[1..])
    case Write(t) => Tx(tx.changes, tx.done + [tx.todo[0]], tx.todo[1..], None, Written(strategy, tx))
  }

  ghost function Next(strategy: Strategy, db: Db, e: Event): Db
    requires Enabled(strategy, db, e)
  {
    match e
    case Begin(t, changes) => db.(running := db.running[t := Tx(changes, [], SortById(changes), None, map[])])
    case Skip(t) => db.(running := db.running[t := Advanced(strategy, db, e)])
    case Lock(t) =>
      db.(owner := db.owner[NextRow(strategy, db.running[t]) := t],
          running := db.running[t := Advanced(strategy, db, e)])
    case Write(t) => db.(running := db.running[t := Advanced(strategy, db, e)])
    case Commit(t) =>
      Db(db.rows + db.running[t].written, Released(db.owner, t), db.running - {t},
         db.log + SortById(db.running[t].changes))
    case Abort(t) => db.(owner := Released(db.owner, t), running := db.running - {t})
  }

  /** A run from committed rows with nothing in progress, each event enabled when it happens. */
  ghost predicate IsRun(strategy: Strategy, start: Rows, run: seq<Event>)
    decreases |run|, 0
  {
    run == [] || (IsRun(strategy, start, run[..|run| - 1]) &&
                  Enabled(strategy, After(strategy, start, run[..|run| - 1]), run[|run| - 1]))
  }

  ghost function After(strategy: Strategy, start: Rows, run: seq<Event>): Db
    requires IsRun(strategy, start, run)
    decreases |run|, 1
  {
    if run == [] then Db(start, map[], map[], [])
    else Next(strategy, After(strategy, start, run[..|run| - 1]), run[|run| - 1])
  }

  // --- the invariant ---------------------------------------------------------------

  ghost predicate Owns(db: Db, t: TxId, row: RowId) {
    row in db.owner && db.owner[row] == t
  }

  ghost predicate Mentions(strategy: Strategy, changes: seq<Change>, row: RowId) {
    exists c :: c in changes && strategy.rowOf(c.id) == row
  }

  /** Locks cover exactly what was processed, plus the row in hand. */
  ghost predicate LocksFit(strategy: Strategy, db: Db, t: TxId, tx: Tx) {
    && tx.done + tx.todo == SortById(tx.changes)
    && tx.written.Keys <= db.rows.Keys
    && (forall row :: row in tx.written ==> Owns(db, t, row))
    && (forall row :: Mentions(strategy, tx.done, row) && row in db.rows ==> Owns(db, t, row))
    && (forall row :: Owns(db, t, row) ==>
          Mentions(strategy, tx.done, row) || (tx.read.Some? && tx.todo != [] && row == NextRow(strategy, tx)))
    && (tx.read.Some? ==>
          && tx.todo != [] && NextRow(strategy, tx) in db.rows && Owns(db, t, NextRow(strategy, tx))
          && tx.read.value == View(db.rows, tx, NextRow(strategy, tx)))
  }

  /** What a transaction sees of a row: the committed state after what it processed itself. */
  ghost predicate SeesOwnWork(strategy: Strategy, rows: Rows, tx: Tx, row: RowId)
    requires row in rows
  {
    View(rows, tx, row) == Processed(strategy, rows[row], tx.done, row)
  }

  ghost predicate TxFits(strategy: Strategy, db: Db, t: TxId)
    requires t in db.running
  {
    && LocksFit(strategy, db, t, db.running[t])
    && forall row :: row in db.rows ==> SeesOwnWork(strategy, db.rows, db.running[t], row)
  }

  /** The rows are what processing the committed changes one after the other makes of the initial ones. */
  ghost predicate Serial(strategy: Strategy, start: Rows, db: Db) {
    && db.rows.Keys == start.Keys
    && forall row :: row in start ==> db.rows[row] == Processed(strategy, start[row], db.log, row)
  }

  ghost predicate OwnersRun(db: Db) {
    forall row :: row in db.owner ==> db.owner[row] in db.running
  }

  ghost predicate Invariant(strategy: Strategy, start: Rows, db: Db) {
    && Serial(strategy, start, db)
    && OwnersRun(db)
    && (forall t :: t in db.running ==> TxFits(strategy, db, t))
  }

  // --- each step keeps it ------------------------------------------------------------

  lemma MentionsMore(strategy: Strategy, done: seq<Change>, c: Change, row: RowId)
    ensures Mentions(strategy, done + [c], row) <==> Mentions(strategy, done, row) || strategy.rowOf(c.id) == row
  {
    assert forall d :: d in done + [c] <==> d in done || d == c;
    if strategy.rowOf(c.id) == row {
      assert c in done + [c];
    }
  }

  lemma {:induction false} ProcessedUnmentioned(
    strategy: Strategy, s: RecordState, changes: seq<Change>, row: RowId)
    requires !Mentions(strategy, changes, row)
    ensures Processed(strategy, s, changes, row) == s
  {
    if changes != [] {
      assert changes[|changes| - 1] in changes;
      ProcessedUnmentioned(strategy, s, changes[..|changes| - 1], row);
    }
  }

  /** Another transaction's step over rows it owns leaves this one alone. */
  lemma OthersUndisturbed(strategy: Strategy, db: Db, db': Db, u: TxId)
    requires u in db.running && TxFits(strategy, db, u)
    requires u in db'.running && db'.running[u] == db.running[u]
    requires db'.rows.Keys == db.rows.Keys
    requires forall row :: Owns(db, u, row) <==> Owns(db', u, row)
    requires forall row :: row in db.rows && Owns(db, u, row) ==> db'.rows[row] == db.rows[row]
    ensures TxFits(strategy, db', u)
  {
    var tx := db.running[u];
    forall row | row in db'.rows ensures SeesOwnWork(strategy, db'.rows, tx, row) {
      assert SeesOwnWork(strategy, db.rows, tx, row);
      if !Owns(db, u, row) {
        ProcessedUnmentioned(strategy, db'.rows[row], tx.done, row);
      }
    }
  }

  lemma BeginFits(strategy: Strategy, start: Rows, db: Db, t: TxId, changes: seq<Change>)
    requires Invariant(strategy, start, db) && t !in db.running
    ensures TxFits(strategy, Next(strategy, db, Begin(t, changes)), t)
  {
    var db' := Next(strategy, db, Begin(t, changes));
    var tx := db'.running[t];
    assert tx.done + tx.todo == SortById(changes);
    forall row | row in db'.rows ensures SeesOwnWork(strategy, db'.rows, tx, row) {
    }
  }

  lemma SkipFits(strategy: Strategy, db: Db, t: TxId)
    requires Enabled(strategy, db, Skip(t)) && TxFits(strategy, db, t)
    ensures TxFits(strategy, Next(strategy, db, Skip(t)), t)
  {
    var tx, tx' := db.running[t], Advanced(strategy, db, Skip(t));
    var c := tx.todo[0];
    assert tx'.done + tx'.todo == tx.done + tx.todo;
    forall row
      ensures Mentions(strategy, tx'.done, row) <==> Mentions(strategy, tx.done, row) || strategy.rowOf(c.id) == row
    {
      MentionsMore(strategy, tx.done, c, row);
    }
    forall row | row in db.rows ensures SeesOwnWork(strategy, db.rows, tx', row) {
      assert SeesOwnWork(strategy, db.rows, tx, row);
      assert tx'.done[..|tx'.done| - 1] == tx.done;
    }
  }

  lemma LockFits(strategy: Strategy, db: Db, t: TxId)
    requires Enabled(strategy, db, Lock(t)) && TxFits(strategy, db, t)
    ensures TxFits(strategy, Next(strategy, db, Lock(t)), t)
  {
    var tx, tx', db' := db.running[t], Advanced(strategy, db, Lock(t)), Next(strategy, db, Lock(t));
    forall row ensures Owns(db', t, row) <==> Owns(db, t, row) || row == NextRow(strategy, tx) {
    }
    forall row | row in db.rows ensures SeesOwnWork(strategy, db.rows, tx', row) {
      assert SeesOwnWork(strategy, db.rows, tx, row);
    }
  }

  lemma WriteSees(strategy: Strategy, db: Db, t: TxId, row: RowId)
    requires Enabled(strategy, db, Write(t)) && TxFits(strategy, db, t) && row in db.rows
    ensures SeesOwnWork(strategy, db.rows, Advanced(strategy, db, Write(t)), row)
  {
    var tx, tx' := db.running[t], Advanced(strategy, db, Write(t));
    var c := tx.todo[0];
    assert SeesOwnWork(strategy, db.rows, tx, row);
    assert tx'.done[..|tx'.done| - 1] == tx.done;
  }

  lemma WriteFits(strategy: Strategy, db: Db, t: TxId)
    requires Enabled(strategy, db, Write(t)) && TxFits(strategy, db, t)
    ensures TxFits(strategy, Next(strategy, db, Write(t)), t)
  {
    var tx, tx' := db.running[t], Advanced(strategy, db, Write(t));
    var c := tx.todo[0];
    assert tx'.done + tx'.todo == tx.done + tx.todo;
    forall row
      ensures Mentions(strategy, tx'.done, row) <==> Mentions(strategy, tx.done, row) || strategy.rowOf(c.id) == row
    {
      MentionsMore(strategy, tx.done, c, row);
    }
    forall row | row in db.rows ensures SeesOwnWork(strategy, db.rows, tx', row) {
      WriteSees(strategy, db, t, row);
    }
  }

  /** The committed rows are the views of the committing transaction. */
  lemma ViewsPublished(strategy: Strategy, db: Db, t: TxId, row: RowId)
    requires Enabled(strategy, db, Commit(t)) && row in db.rows
    ensures row in Next(strategy, db, Commit(t)).rows
    ensures Next(strategy, db, Commit(t)).rows[row] == View(db.rows, db.running[t], row)
  {
  }

  lemma CommittedRow(strategy: Strategy, s: RecordState, rows: Rows, log: seq<Change>, tx: Tx, row: RowId)
    requires row in rows && SeesOwnWork(strategy, rows, tx, row) && rows[row] == Processed(strategy, s, log, row)
    ensures View(rows, tx, row) == Processed(strategy, s, log + tx.done, row)
  {
    ProcessedConcat(strategy, s, log, tx.done, row);
  }

  /** Committing publishes exactly what processing the request makes of the committed rows. */
  lemma CommitPublishes(strategy: Strategy, start: Rows, db: Db, t: TxId)
    requires Serial(strategy, start, db) && Enabled(strategy, db, Commit(t)) && TxFits(strategy, db, t)
    ensures Serial(strategy, start, Next(strategy, db, Commit(t)))
  {
    var tx, db' := db.running[t], Next(strategy, db, Commit(t));
    assert tx.done == SortById(tx.changes) by {
      assert tx.done == tx.done + tx.todo;
    }
    assert db'.rows.Keys == db.rows.Keys;
    forall row | row in start ensures db'.rows[row] == Processed(strategy, start[row], db'.log, row) {
      assert SeesOwnWork(strategy, db.rows, tx, row);
      CommittedRow(strategy, start[row], db.rows, db.log, tx, row);
      ViewsPublished(strategy, db, t, row);
    }
  }

  /** The stepping transaction still fits, unless the step ends it. */
  lemma OwnStepFits(strategy: Strategy, start: Rows, db: Db, e: Event)
    requires Invariant(strategy, start, db) && Enabled(strategy, db, e)
    ensures !e.Commit? && !e.Abort? ==>
      e.t in Next(strategy, db, e).running && TxFits(strategy, Next(strategy, db, e), e.t)
  {
    assert e.t in db.running ==> TxFits(strategy, db, e.t);
    match e
    case Begin(t, changes) => BeginFits(strategy, start, db, t, changes);
    case Skip(t) => SkipFits(strategy, db, t);
    case Lock(t) => LockFits(strategy, db, t);
    case Write(t) => WriteFits(strategy, db, t);
    case Commit(t) =>
    case Abort(t) =>
  }

  /** A commit writes only rows that it owns. */
  lemma CommitWritesOwn(strategy: Strategy, db: Db, t: TxId, u: TxId, row: RowId)
    requires Enabled(strategy, db, Commit(t)) && LocksFit(strategy, db, t, db.running[t])
    requires u != t && row in db.rows && Owns(db, u, row)
    ensures row in Next(strategy, db, Commit(t)).rows && Next(strategy, db, Commit(t)).rows[row] == db.rows[row]
  {
  }

  lemma RowsAfterStep(strategy: Strategy, start: Rows, db: Db, e: Event)
    requires Invariant(strategy, start, db) && Enabled(strategy, db, e)
    ensures Serial(strategy, start, Next(strategy, db, e))
  {
    if e.Commit? {
      assert TxFits(strategy, db, e.t);
      CommitPublishes(strategy, start, db, e.t);
    } else {
      assert Next(strategy, db, e).rows == db.rows && Next(strategy, db, e).log == db.log;
    }
  }

  lemma ReleaseLeavesOthers(owner: map<RowId, TxId>, t: TxId)
    ensures var owner' := Released(owner, t);
      forall row ::
        (row in owner' <==> row in owner && owner[row] != t) && (row in owner' ==> owner'[row] == owner[row])
  {
  }

  lemma LockTakesFree(strategy: Strategy, db: Db, t: TxId)
    requires Enabled(strategy, db, Lock(t))
    ensures var db' := Next(strategy, db, Lock(t));
      forall u, row :: u != t ==> (Owns(db, u, row) <==> Owns(db', u, row))
  {
  }

  lemma OwnersAfterStep(strategy: Strategy, db: Db, e: Event)
    requires OwnersRun(db) && Enabled(strategy, db, e)
    ensures var db' := Next(strategy, db, e);
      && OwnersRun(db')
      && (forall u, row :: u != e.t ==> (Owns(db, u, row) <==> Owns(db', u, row)))
      && (forall u :: u != e.t ==> (u in db'.running <==> u in db.running))
      && (forall u :: u != e.t && u in db.running ==> db'.running[u] == db.running[u])
  {
    match e
    case Begin(t, changes) =>
    case Skip(t) =>
    case Lock(t) => LockTakesFree(strategy, db, t);
    case Write(t) =>
    case Commit(t) => ReleaseLeavesOthers(db.owner, t);
    case Abort(t) => ReleaseLeavesOthers(db.owner, t);
  }

  lemma OthersRowsStay(strategy: Strategy, start: Rows, db: Db, e: Event, u: TxId)
    requires Invariant(strategy, start, db) && Enabled(strategy, db, e)
    requires u != e.t && u in db.running
    ensures forall row :: row in db.rows && Owns(db, u, row) ==>
      row in Next(strategy, db, e).rows && Next(strategy, db, e).rows[row] == db.rows[row]
  {
    if e.Commit? {
      assert TxFits(strategy, db, e.t);
      forall row | row in db.rows && Owns(db, u, row)
        ensures row in Next(strategy, db, e).rows && Next(strategy, db, e).rows[row] == db.rows[row]
      {
        CommitWritesOwn(strategy, db, e.t, u, row);
      }
    }
  }

  lemma OtherStillFits(strategy: Strategy, start: Rows, db: Db, e: Event, u: TxId)
    requires Invariant(strategy, start, db) && Enabled(strategy, db, e)
    requires u != e.t && u in db.running
    ensures u in Next(strategy, db, e).running && TxFits(strategy, Next(strategy, db, e), u)
  {
    RowsAfterStep(strategy, start, db, e);
    OwnersAfterStep(strategy, db, e);
    OthersRowsStay(strategy, start, db, e, u);
    OthersUndisturbed(strategy, db, Next(strategy, db, e), u);
  }

  lemma StepKeepsInvariant(strategy: Strategy, start: Rows, db: Db, e: Event)
    requires Invariant(strategy, start, db) && Enabled(strategy, db, e)
    ensures Invariant(strategy, start, Next(strategy, db, e))
  {
    var db' := Next(strategy, db, e);
    RowsAfterStep(strategy, start, db, e);
    OwnersAfterStep(strategy, db, e);
    OwnStepFits(strategy, start, db, e);
    forall u | u in db'.running ensures TxFits(strategy, db', u) {
      if u != e.t {
        OtherStillFits(strategy, start, db, e, u);
      }
    }
  }

  // --- runs ---------------------------------------------------------------------------

  lemma {:induction false} RunKeepsInvariant(strategy: Strategy, start: Rows, run: seq<Event>)
    requires IsRun(strategy, start, run)
    ensures Invariant(strategy, start, After(strategy, start, run))
    decreases |run|
  {
    if run != [] {
      RunKeepsInvariant(strategy, start, run[..|run| - 1]);
      StepKeepsInvariant(strategy, start, After(strategy, start, run[..|run| - 1]), run[|run| - 1]);
    }
  }

  /**
   * Serialisability: however the transactions interleave, wait or abort, each row always is what
   * the change loop makes of it from the committed requests alone, one after the other in the order
   * of their commits.
   */
  lemma RunsAreSerial(strategy: Strategy, start: Rows, run: seq<Event>, row: RowId)
    requires IsRun(strategy, start, run) && row in start
    ensures var db, serial := After(strategy, start, run),
                              HandleAll(strategy, Outcome(start, Response([], [])), After(strategy, start, run).log);
      row in db.rows && row in serial.rows && db.rows[row] == serial.rows[row]
  {
    RunKeepsInvariant(strategy, start, run);
    LoopProcesses(strategy, Outcome(start, Response([], [])), After(strategy, start, run).log, row);
  }

  lemma Extended(strategy: Strategy, start: Rows, run: seq<Event>, e: Event)
    requires IsRun(strategy, start, run) && Enabled(strategy, After(strategy, start, run), e)
    ensures IsRun(strategy, start, run + [e])
    ensures After(strategy, start, run + [e]) == Next(strategy, After(strategy, start, run), e)
  {
    var full := run + [e];
    assert full[..|full| - 1] == run && full[|full| - 1] == e;
  }

  /** Each request of the run sends changes from the given set. */
  ghost predicate Requests(run: seq<Event>, allowed: iset<Change>) {
    forall i :: 0 <= i < |run| && run[i].Begin? ==> OnlyOf(run[i].changes, allowed)
  }

  ghost predicate UsesOnly(db: Db, allowed: iset<Change>) {
    OnlyOf(db.log, allowed) && forall t :: t in db.running ==> OnlyOf(db.running[t].changes, allowed)
  }

  lemma StepUsesOnly(strategy: Strategy, db: Db, e: Event, allowed: iset<Change>)
    requires Enabled(strategy, db, e) && UsesOnly(db, allowed) && (e.Begin? ==> OnlyOf(e.changes, allowed))
    ensures UsesOnly(Next(strategy, db, e), allowed)
  {
    if e.Commit? {
      var changes := db.running[e.t].changes;
      SortByIdSorts(changes);
      assert forall c: Change :: c in SortById(changes) ==> c in multiset(changes);
    }
  }

  lemma {:induction false} RunUsesOnly(strategy: Strategy, start: Rows, run: seq<Event>, allowed: iset<Change>)
    requires IsRun(strategy, start, run) && Requests(run, allowed)
    ensures UsesOnly(After(strategy, start, run), allowed)
    decreases |run|
  {
    if run != [] {
      var rest, e := run[..|run| - 1], run[|run| - 1];
      assert forall i :: 0 <= i < |rest| ==> rest[i] == run[i];
      RunUsesOnly(strategy, start, rest, allowed);
      StepUsesOnly(strategy, After(strategy, start, rest), e, allowed);
    }
  }

  /** Each row is its initial state with every committed change to it joined in, in the fields it carries. */
  ghost predicate NothingLost(strategy: Strategy, start: Rows, db: Db) {
    && db.rows.Keys == start.Keys
    && forall row :: row in start ==> CoreOf(db.rows[row]) == Absorb(strategy, CoreOf(start[row]), db.log, row)
  }

  /** None of the changes omits a field that its row stores with a stamp below zero. */
  ghost predicate NoneOmitsNegative(strategy: Strategy, rows: Rows, allowed: iset<Change>) {
    forall row, c :: row in rows && c in allowed ==> !OmitsNegative(strategy, rows[row], c, row)
  }

  /** One request with one change, all alone. */
  function LoneRun(c: Change): seq<Event> {
    [Begin(0, [c])] + [Lock(0)] + [Write(0)] + [Commit(0)]
  }

  /** A transaction with one change, right after it began. */
  function LoneTx(c: Change): Tx {
    Tx([c], [], [c], None, map[])
  }

  lemma LoneTxBegins(strategy: Strategy, start: Rows, c: Change)
    ensures IsRun(strategy, start, [Begin(0, [c])])
    ensures After(strategy, start, [Begin(0, [c])]) == Db(start, map[], map[0 := LoneTx(c)], [])
  {
    assert SortById([c]) == [c] by {
      assert [c][1..] == [];
    }
    assert [] + [Begin(0, [c])] == [Begin(0, [c])];
    Extended(strategy, start, [], Begin(0, [c]));
  }

  lemma LoneTxWrites(strategy: Strategy, start: Rows, c: Change, run: seq<Event>)
    requires strategy.rowOf(c.id) in start && IsRun(strategy, start, run)
    requires After(strategy, start, run) == Db(start, map[], map[0 := LoneTx(c)], [])
    ensures IsRun(strategy, start, run + [Lock(0)] + [Write(0)])
    ensures var db := After(strategy, start, run + [Lock(0)] + [Write(0)]);
      && Enabled(strategy, db, Commit(0)) && db.log == [] && db.running[0].changes == [c]
  {
    Extended(strategy, start, run, Lock(0));
    Extended(strategy, start, run + [Lock(0)], Write(0));
  }

  lemma LoneRunCommits(strategy: Strategy, start: Rows, c: Change)
    requires strategy.rowOf(c.id) in start
    ensures IsRun(strategy, start, LoneRun(c)) && After(strategy, start, LoneRun(c)).log == [c]
  {
    LoneTxBegins(strategy, start, c);
    LoneTxWrites(strategy, start, c, [Begin(0, [c])]);
    Extended(strategy, start, [Begin(0, [c])] + [Lock(0)] + [Write(0)], Commit(0));
    assert SortById([c]) == [c] by {
      assert [c][1..] == [];
    }
  }

  lemma LoneRunRequests(c: Change, allowed: iset<Change>)
    requires c in allowed
    ensures Requests(LoneRun(c), allowed)
  {
    assert LoneRun(c) == [Begin(0, [c]), Lock(0), Write(0), Commit(0)];
  }

  lemma NoUpdateIsLost(strategy: Strategy, start: Rows, run: seq<Event>, allowed: iset<Change>)
    requires RowsShaped(strategy, start) && NoneOmitsNegative(strategy, start, allowed)
    requires IsRun(strategy, start, run) && Requests(run, allowed)
    ensures NothingLost(strategy, start, After(strategy, start, run))
  {
    RunKeepsInvariant(strategy, start, run);
    RunUsesOnly(strategy, start, run, allowed);
    forall row | row in start
      ensures CoreOf(After(strategy, start, run).rows[row]) ==
        Absorb(strategy, CoreOf(start[row]), After(strategy, start, run).log, row)
    {
      RowsAbsorbChanges(strategy, start[row], After(strategy, start, run).log, row);
    }
  }

  /**
   * No lost update, for the changes that requests may send: in every run each row is its initial
   * state with every committed change to it joined in, field by field, if and only if none of the
   * changes omits a field that its row stores with a stamp below zero.
   */
  lemma NoUpdateIsLostIff(strategy: Strategy, start: Rows, allowed: iset<Change>)
    requires RowsShaped(strategy, start)
    ensures NoneOmitsNegative(strategy, start, allowed) <==>
      forall run :: IsRun(strategy, start, run) && Requests(run, allowed) ==>
        NothingLost(strategy, start, After(strategy, start, run))
  {
    if NoneOmitsNegative(strategy, start, allowed) {
      forall run | IsRun(strategy, start, run) && Requests(run, allowed)
        ensures NothingLost(strategy, start, After(strategy, start, run))
      {
        NoUpdateIsLost(strategy, start, run, allowed);
      }
    } else {
      var row, c :| row in start && c in allowed && OmitsNegative(strategy, start[row], c, row);
      LoneRunCommits(strategy, start, c);
      LoneRunRequests(c, allowed);
      RunKeepsInvariant(strategy, start, LoneRun(c));
      OmissionBreaksAbsorbing(strategy, start[row], c, row);
      assert !NothingLost(strategy, start, After(strategy, start, LoneRun(c)));
    }
  }
}
