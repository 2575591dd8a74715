/**
 * Whether `/sync` transactions can block each other for ever. They lock rows in the order of the
 * ids as the clients spelled them, which is safe exactly as far as that order is one of the rows.
 */
module SyncDeadlock {
  import opened Wrappers
  import opened Text
  import opened ServerSync
  import opened SyncTransactions

  /** The ids that requests of the run may use. */
  ghost predicate Sends(run: seq<Event>, allowed: iset<Id>) {
    forall i, c :: 0 <= i < |run| && run[i].Begin? && c in run[i].changes ==> c.id in allowed
  }

  /** Two rows compare alike whichever of their spellings are compared. */
  ghost predicate OrdersAgree(strategy: Strategy, rows: set<RowId>, allowed: iset<Id>) {
    forall a, b, c, d ::
      && a in allowed && b in allowed && c in allowed && d in allowed
      && SameRow(strategy, rows, a, c) && SameRow(strategy, rows, b, d)
      && strategy.rowOf(a) != strategy.rowOf(b) && Precedes(a, b)
      ==> Precedes(c, d)
  }

  ghost predicate SameRow(strategy: Strategy, rows: set<RowId>, a: Id, b: Id) {
    strategy.rowOf(a) in rows && strategy.rowOf(b) == strategy.rowOf(a)
  }

  /** The row a transaction waits for, and the id it knows it by. */
  ghost function Wanted(strategy: Strategy, db: Db, t: TxId): RowId
    requires Waits(strategy, db, t)
  {
    NextRow(strategy, db.running[t])
  }

  ghost function WantedId(strategy: Strategy, db: Db, t: TxId): Id
    requires Waits(strategy, db, t)
  {
    db.running[t].todo[0].id
  }

  ghost predicate WaitsWithin(strategy: Strategy, db: Db, t: TxId, stuck: set<TxId>) {
    Waits(strategy, db, t) && db.owner[Wanted(strategy, db, t)] in stuck
  }

  /** Some transactions each wait for a row that another of them holds. */
  ghost predicate IsStuck(strategy: Strategy, db: Db, stuck: set<TxId>) {
    forall t {:trigger WaitsWithin(strategy, db, t, stuck)} :: t in stuck ==> WaitsWithin(strategy, db, t, stuck)
  }

  ghost predicate Deadlocked(strategy: Strategy, db: Db) {
    exists stuck :: stuck != {} && IsStuck(strategy, db, stuck)
  }

  // --- agreeing orders exclude deadlock -------------------------------------------------

  ghost predicate NamesOnly(db: Db, allowed: iset<Id>) {
    forall t, c :: t in db.running && (c in db.running[t].done || c in db.running[t].todo) ==> c.id in allowed
  }

  lemma StepNamesOnly(strategy: Strategy, db: Db, e: Event, allowed: iset<Id>)
    requires Enabled(strategy, db, e) && NamesOnly(db, allowed)
    requires e.Begin? ==> forall c :: c in e.changes ==> c.id in allowed
    ensures NamesOnly(Next(strategy, db, e), allowed)
  {
    if e.Begin? {
      SortByIdSorts(e.changes);
      assert forall c: Change :: c in SortById(e.changes) ==> c in multiset(e.changes);
    }
  }

  lemma {:induction false} RunNamesOnly(strategy: Strategy, start: Rows, run: seq<Event>, allowed: iset<Id>)
    requires IsRun(strategy, start, run) && Sends(run, allowed)
    ensures NamesOnly(After(strategy, start, run), allowed)
    decreases |run|
  {
    if run != [] {
      var rest, e := run[..|run| - 1], run[|run| - 1];
      assert forall i :: 0 <= i < |rest| ==> rest[i] == run[i];
      RunNamesOnly(strategy, start, rest, allowed);
      StepNamesOnly(strategy, After(strategy, start, rest), e, allowed);
    }
  }

  /** A waiting transaction holds its rows under ids before the one it waits for. */
  lemma HeldBeforeWanted(strategy: Strategy, start: Rows, db: Db, row: RowId) returns (held: Id)
    requires Invariant(strategy, start, db) && row in db.owner && Waits(strategy, db, db.owner[row])
    ensures strategy.rowOf(held) == row && Precedes(held, WantedId(strategy, db, db.owner[row]))
    ensures exists c :: c in db.running[db.owner[row]].done && c.id == held
  {
    var u := db.owner[row];
    var holder := db.running[u];
    assert TxFits(strategy, db, u) && Owns(db, u, row);
    assert Mentions(strategy, holder.done, row);
    held := DoneComesFirst(strategy, holder, row);
    assert row != Wanted(strategy, db, u);
  }

  lemma DoneComesFirst(strategy: Strategy, tx: Tx, row: RowId) returns (done: Id)
    requires tx.done + tx.todo == SortById(tx.changes) && tx.todo != [] && Mentions(strategy, tx.done, row)
    ensures strategy.rowOf(done) == row && (done == tx.todo[0].id || Precedes(done, tx.todo[0].id))
    ensures exists c :: c in tx.done && c.id == done
  {
    var c :| c in tx.done && strategy.rowOf(c.id) == row;
    done := c.id;
    var k :| 0 <= k < |tx.done| && tx.done[k] == c;
    var all := SortById(tx.changes);
    SortByIdSorts(tx.changes);
    assert all[k] == c && all[|tx.done|] == tx.todo[0];
    PrecedesOrder(done, tx.todo[0].id, []);
  }

  /** Whoever holds what `t` waits for, if it waits too, waits for a later id. */
  ghost predicate LocksClimb(strategy: Strategy, db: Db) {
    forall t :: Waits(strategy, db, t) && Waits(strategy, db, db.owner[Wanted(strategy, db, t)]) ==>
      Less(WantedId(strategy, db, t), WantedId(strategy, db, db.owner[Wanted(strategy, db, t)]))
  }

  lemma HolderWantsLater(strategy: Strategy, start: Rows, db: Db, allowed: iset<Id>, t: TxId)
    requires Invariant(strategy, start, db) && NamesOnly(db, allowed)
    requires OrdersAgree(strategy, start.Keys, allowed)
    requires Waits(strategy, db, t) && Waits(strategy, db, db.owner[Wanted(strategy, db, t)])
    ensures Less(WantedId(strategy, db, t), WantedId(strategy, db, db.owner[Wanted(strategy, db, t)]))
  {
    var row := Wanted(strategy, db, t);
    var u := db.owner[row];
    var held := HeldBeforeWanted(strategy, start, db, row);
    var mine, theirs := WantedId(strategy, db, t), WantedId(strategy, db, u);
    assert db.running[t].todo[0] in db.running[t].todo && db.running[u].todo[0] in db.running[u].todo;
    assert SameRow(strategy, start.Keys, held, mine) && SameRow(strategy, start.Keys, theirs, theirs);
    assert strategy.rowOf(theirs) != row by {
      assert Waits(strategy, db, u);
    }
    PrecedesIsLess(mine, theirs);
  }

  /** Following holders cannot climb for ever within a finite set. */
  lemma NoEndlessClimb(stuck: set<TxId>, wanted: map<TxId, Id>, holder: map<TxId, TxId>)
    requires stuck <= wanted.Keys && stuck <= holder.Keys
    requires forall t {:trigger holder[t]} :: t in stuck ==> holder[t] in stuck && Less(wanted[t], wanted[holder[t]])
    ensures stuck == {}
  {
    if stuck != {} {
      var all := set t | t in stuck :: wanted[t];
      var t0 :| t0 in stuck;
      assert wanted[t0] in all;
      var last := GreatestExists(all);
      var t :| t in stuck && wanted[t] == last;
      assert wanted[holder[t]] in all;
      LessAsymmetric(last, wanted[holder[t]]);
    }
  }

  lemma NoneStuck(strategy: Strategy, db: Db, stuck: set<TxId>)
    requires LocksClimb(strategy, db) && IsStuck(strategy, db, stuck)
    ensures stuck == {}
  {
    var wanted := map t | t in stuck && WaitsWithin(strategy, db, t, stuck) :: WantedId(strategy, db, t);
    var holder := map t | t in stuck && WaitsWithin(strategy, db, t, stuck) :: db.owner[Wanted(strategy, db, t)];
    forall t | t in stuck ensures t in wanted && t in holder {
      assert WaitsWithin(strategy, db, t, stuck);
    }
    forall t | t in stuck ensures holder[t] in stuck && Less(wanted[t], wanted[holder[t]]) {
      assert WaitsWithin(strategy, db, t, stuck) && WaitsWithin(strategy, db, holder[t], stuck);
    }
    NoEndlessClimb(stuck, wanted, holder);
  }

  lemma AgreedOrdersNeverDeadlock(strategy: Strategy, start: Rows, run: seq<Event>, allowed: iset<Id>)
    requires IsRun(strategy, start, run)
    requires Sends(run, allowed) && OrdersAgree(strategy, start.Keys, allowed)
    ensures !Deadlocked(strategy, After(strategy, start, run))
  {
    var db := After(strategy, start, run);
    RunKeepsInvariant(strategy, start, run);
    RunNamesOnly(strategy, start, run, allowed);
    forall t | Waits(strategy, db, t) && Waits(strategy, db, db.owner[Wanted(strategy, db, t)])
      ensures Less(WantedId(strategy, db, t), WantedId(strategy, db, db.owner[Wanted(strategy, db, t)]))
    {
      HolderWantsLater(strategy, start, db, allowed, t);
    }
    ClimbingIsNotDeadlocked(strategy, db);
  }

  lemma ClimbingIsNotDeadlocked(strategy: Strategy, db: Db)
    requires LocksClimb(strategy, db)
    ensures !Deadlocked(strategy, db)
  {
    forall stuck | IsStuck(strategy, db, stuck) ensures stuck == {} {
      NoneStuck(strategy, db, stuck);
    }
  }

  // --- disagreeing orders reach one -----------------------------------------------------

  function Bare(id: Id): Change {
    Change(id, map[], map[], [], None)
  }

  lemma InOrderPair(a: Id, b: Id)
    requires Precedes(a, b)
    ensures SortById([Bare(a), Bare(b)]) == [Bare(a), Bare(b)]
  {
    PrecedesOrder(a, b, []);
    assert [Bare(a), Bare(b)][1..] == [Bare(b)];
    assert [Bare(b)][1..] == [];
    assert SortById([Bare(b)]) == [Bare(b)];
  }

  /** Two transactions: `first` then `second`, and the other way round under other spellings. */
  function CrossingRequests(a: Id, b: Id, c: Id, d: Id): seq<Event> {
    [Begin(0, [Bare(a), Bare(b)]), Begin(1, [Bare(d), Bare(c)])]
  }

  function CrossingRun(a: Id, b: Id, c: Id, d: Id): seq<Event> {
    CrossingRequests(a, b, c, d) + [Lock(0), Write(0)] + [Lock(1), Write(1)]
  }

  lemma CrossingBegins(strategy: Strategy, start: Rows, a: Id, b: Id, c: Id, d: Id)
    requires Precedes(a, b) && Precedes(d, c)
    ensures IsRun(strategy, start, CrossingRequests(a, b, c, d))
    ensures After(strategy, start, CrossingRequests(a, b, c, d)) ==
      Db(start, map[],
         map[0 := Tx([Bare(a), Bare(b)], [], [Bare(a), Bare(b)], None, map[]),
             1 := Tx([Bare(d), Bare(c)], [], [Bare(d), Bare(c)], None, map[])], [])
  {
    InOrderPair(a, b);
    InOrderPair(d, c);
    Extended(strategy, start, [], Begin(0, [Bare(a), Bare(b)]));
    assert [] + [Begin(0, [Bare(a), Bare(b)])] == [Begin(0, [Bare(a), Bare(b)])];
    Extended(strategy, start, [Begin(0, [Bare(a), Bare(b)])], Begin(1, [Bare(d), Bare(c)]));
    assert [Begin(0, [Bare(a), Bare(b)])] + [Begin(1, [Bare(d), Bare(c)])] == CrossingRequests(a, b, c, d);
  }

  /** A transaction locks and merges its first row, if it is free. */
  lemma TakesFirst(strategy: Strategy, start: Rows, run: seq<Event>, t: TxId)
    requires IsRun(strategy, start, run)
    requires var db := After(strategy, start, run);
      && Idle(db, t) && |db.running[t].todo| == 2
      && NextRow(strategy, db.running[t]) in db.rows && NextRow(strategy, db.running[t]) !in db.owner
    ensures IsRun(strategy, start, run + [Lock(t), Write(t)])
    ensures var db, after := After(strategy, start, run), After(strategy, start, run + [Lock(t), Write(t)]);
      && after.rows == db.rows
      && after.owner == db.owner[NextRow(strategy, db.running[t]) := t]
      && after.running.Keys == db.running.Keys
      && (forall u :: u in db.running && u != t ==> after.running[u] == db.running[u])
      && Idle(after, t) && after.running[t].todo == db.running[t].todo[1..]
  {
    var db := After(strategy, start, run);
    Extended(strategy, start, run, Lock(t));
    Extended(strategy, start, run + [Lock(t)], Write(t));
    assert run + [Lock(t)] + [Write(t)] == run + [Lock(t), Write(t)];
  }

  /** Each of two transactions waits for a row that the other holds. */
  lemma MutualWaitIsStuck(strategy: Strategy, db: Db)
    requires Waits(strategy, db, 0) && db.owner[Wanted(strategy, db, 0)] == 1
    requires Waits(strategy, db, 1) && db.owner[Wanted(strategy, db, 1)] == 0
    ensures IsStuck(strategy, db, {0, 1})
  {
    assert WaitsWithin(strategy, db, 0, {0, 1}) && WaitsWithin(strategy, db, 1, {0, 1});
  }

  lemma CrossingDeadlocks(strategy: Strategy, start: Rows, a: Id, b: Id, c: Id, d: Id)
    requires Precedes(a, b) && Precedes(d, c) && strategy.rowOf(a) != strategy.rowOf(b)
    requires SameRow(strategy, start.Keys, a, c) && SameRow(strategy, start.Keys, b, d)
    ensures IsRun(strategy, start, CrossingRun(a, b, c, d))
    ensures IsStuck(strategy, After(strategy, start, CrossingRun(a, b, c, d)), {0, 1})
  {
    var run := CrossingRequests(a, b, c, d);
    CrossingBegins(strategy, start, a, b, c, d);
    TakesFirst(strategy, start, run, 0);
    TakesFirst(strategy, start, run + [Lock(0), Write(0)], 1);
    var db := After(strategy, start, CrossingRun(a, b, c, d));
    assert db.running[0].todo == [Bare(b)] && db.running[1].todo == [Bare(c)];
    MutualWaitIsStuck(strategy, db);
  }

  lemma CrossingSends(a: Id, b: Id, c: Id, d: Id, allowed: iset<Id>)
    requires a in allowed && b in allowed && c in allowed && d in allowed
    ensures Sends(CrossingRun(a, b, c, d), allowed)
  {
    var run := CrossingRun(a, b, c, d);
    assert run == [Begin(0, [Bare(a), Bare(b)]), Begin(1, [Bare(d), Bare(c)]), Lock(0), Write(0), Lock(1), Write(1)];
  }

  /**
   * Exactly when concurrent `/sync` requests cannot deadlock on row locks, for the ids they may
   * use: raw string order must not depend on how a row's id is spelled.
   */
  lemma NoDeadlockIffOrdersAgree(strategy: Strategy, start: Rows, allowed: iset<Id>)
    ensures OrdersAgree(strategy, start.Keys, allowed) <==>
      forall run :: IsRun(strategy, start, run) && Sends(run, allowed) ==>
        !Deadlocked(strategy, After(strategy, start, run))
  {
    if OrdersAgree(strategy, start.Keys, allowed) {
      forall run | IsRun(strategy, start, run) && Sends(run, allowed)
        ensures !Deadlocked(strategy, After(strategy, start, run))
      {
        AgreedOrdersNeverDeadlock(strategy, start, run, allowed);
      }
    } else {
      var a, b, c, d :|
        && a in allowed && b in allowed && c in allowed && d in allowed
        && SameRow(strategy, start.Keys, a, c) && SameRow(strategy, start.Keys, b, d)
        && strategy.rowOf(a) != strategy.rowOf(b) && Precedes(a, b) && !Precedes(c, d);
      PrecedesOrder(c, d, []);
      CrossingDeadlocks(strategy, start, a, b, c, d);
      CrossingSends(a, b, c, d, allowed);
      assert Deadlocked(strategy, After(strategy, start, CrossingRun(a, b, c, d)));
    }
  }

  /** Ids in the database's own spelling are safe. */
  lemma CanonicalIdsAgree(strategy: Strategy, rows: set<RowId>, allowed: iset<Id>)
    requires forall id :: id in allowed ==> strategy.rowOf(id) == id
    ensures OrdersAgree(strategy, rows, allowed)
  {
  }

  /**
   * Upper-case ids are not: one phone sends "A…" and "b…", another "B…" and "a…", with the same
   * rest of the UUIDs, and each ends up waiting for the other.
   */
  lemma UpperCaseIdsDeadlock(strategy: Strategy, start: Rows, u: Str, v: Str)
    requires forall id :: strategy.rowOf(id) == FoldCase(id)
    requires FoldCase([97] + u) in start && FoldCase([98] + v) in start
    ensures var run := CrossingRun([65] + u, [98] + v, [97] + u, [66] + v);
      IsRun(strategy, start, run) && Deadlocked(strategy, After(strategy, start, run))
  {
    var a, b, c, d := [65] + u, [98] + v, [97] + u, [66] + v;
    assert SplitsAt(a, b, 0) && SplitsAt(d, c, 0);
    assert FoldCase(a) == FoldCase(c) && FoldCase(b) == FoldCase(d);
    assert FoldCase(a)[0] == 97 && FoldCase(b)[0] == 98;
    CrossingDeadlocks(strategy, start, a, b, c, d);
    assert 0 in {0, 1};
  }

  /** While anything runs and the orders agree, some transaction can take a step other than aborting. */
  lemma SomeoneProceeds(strategy: Strategy, start: Rows, run: seq<Event>, allowed: iset<Id>)
    requires IsRun(strategy, start, run)
    requires Sends(run, allowed) && OrdersAgree(strategy, start.Keys, allowed)
    requires After(strategy, start, run).running != map[]
    ensures exists e :: Enabled(strategy, After(strategy, start, run), e) && !e.Begin? && !e.Abort?
  {
    var db := After(strategy, start, run);
    RunKeepsInvariant(strategy, start, run);
    AgreedOrdersNeverDeadlock(strategy, start, run, allowed);
    assert db.running.Keys != {} && !IsStuck(strategy, db, db.running.Keys);
    var t :| t in db.running.Keys && !WaitsWithin(strategy, db, t, db.running.Keys);
    ProceedsUnlessWaiting(strategy, start, db, t);
  }

  lemma ProceedsUnlessWaiting(strategy: Strategy, start: Rows, db: Db, t: TxId)
    requires Invariant(strategy, start, db) && t in db.running
    requires !WaitsWithin(strategy, db, t, db.running.Keys)
    ensures exists e :: Enabled(strategy, db, e) && !e.Begin? && !e.Abort?
  {
    assert OwnersRun(db);
    assert TxFits(strategy, db, t);
    CanProceed(strategy, db, t);
  }

  lemma CanProceed(strategy: Strategy, db: Db, t: TxId)
    requires t in db.running && LocksFit(strategy, db, t, db.running[t]) && !Waits(strategy, db, t)
    ensures exists e :: Enabled(strategy, db, e) && !e.Begin? && !e.Abort?
  {
    var tx := db.running[t];
    if tx.read.Some? {
      assert Enabled(strategy, db, Write(t));
    } else if tx.todo == [] {
      assert Enabled(strategy, db, Commit(t));
    } else if NextRow(strategy, tx) !in db.rows {
      assert Enabled(strategy, db, Skip(t));
    } else {
      assert Enabled(strategy, db, Lock(t));
    }
  }
}
