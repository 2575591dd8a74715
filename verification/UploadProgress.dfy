/** That upload passes get somewhere: what a pass takes on, that it ends, and what is sent by then. */
module UploadProgress {
  import opened UploadPool
  import opened UploadRuns
  import opened UploadRetries

  // --- what a pass takes on ---------------------------------------------------------------

  /** A pass that begins asks for the list, unless the device may not upload now. */
  ghost predicate AsksForList(p: Pool) {
    p.phase == if p.stopped || !p.suitable then Returning else Listing
  }

  /** A call starts a pass, or has the drain that is on take another one; no drain ends before. */
  lemma CallsStartPasses(w: World, config: Config)
    requires Invariant(w, config)
    ensures var called := Next(w, Process, config);
      && called.pool.draining && (!w.pool.draining ==> AsksForList(called.pool))
      && (w.pool.draining ==> called.pool == w.pool.(rerun := true))
    ensures Enabled(w, ReturnFromPass) ==>
      var returned := Next(w, ReturnFromPass, config);
      && (w.pool.rerun ==> AsksForList(returned.pool) && !returned.pool.rerun)
      && (returned.pool.draining <==> w.pool.rerun)
  {
  }

  function Fewer(a: nat, b: nat): nat {
    if a < b then a else b
  }

  /** Nothing that was listed is left out, and as many workers start as there are items, up to the cap. */
  lemma PassTakesWholeListing(store: map<Id, Record>, suitable: bool, run: seq<Event>, config: Config)
    requires StartsWell(store, config) && IsRun(store, suitable, run, config)
    requires Enabled(After(store, suitable, run, config), Receive)
    ensures var w := After(store, suitable, run, config);
      var rows, p := w.pool.phase.rows, Next(w, Receive, config).pool.phase;
      if rows == [] then p == Returning
      else p == Working(rows, 0, seq(Fewer(|rows|, AtLeastOne(config.maxConcurrent)), _ => Ready))
  {
    RunKeepsInvariant(store, suitable, run, config);
    RunnableKeepsQueued(After(store, suitable, run, config).pool.phase.rows);
  }

  // --- that it ends -----------------------------------------------------------------------

  predicate IsWorkerStep(e: Event) {
    e.Claim? || e.MarkUploading? || e.UploadSettled? || e.Save?
  }

  /** What a worker still has to do with its item. */
  function Weight(w: Worker): nat {
    match w
    case Ready => 1
    case Staging(_) => 4
    case Sending(_) => 3
    case Saving(_) => 2
    case Finished => 0
  }

  function TotalWeight(workers: seq<Worker>): nat {
    if workers == [] then 0 else TotalWeight(workers[..|workers| - 1]) + Weight(workers[|workers| - 1])
  }

  lemma {:induction false} WeightAfter(workers: seq<Worker>, k: nat, w: Worker)
    requires k < |workers|
    ensures TotalWeight(workers[k := w]) == TotalWeight(workers) - Weight(workers[k]) + Weight(w)
  {
    var n := |workers| - 1;
    if k < n {
      assert workers[k := w][..n] == workers[..n][k := w];
      WeightAfter(workers[..n], k, w);
    } else {
      assert workers[k := w][..n] == workers[..n];
    }
  }

  /** What is left of the pass. */
  function Remaining(p: Phase): nat
    requires p.Working? && p.cursor <= |p.runnable|
  {
    5 * (|p.runnable| - p.cursor) + TotalWeight(p.workers)
  }

  lemma ClaimLeavesLess(w: World, k: nat, config: Config)
    requires Invariant(w, config) && Enabled(w, Claim(k))
    ensures var p, q := w.pool.phase, Next(w, Claim(k), config).pool.phase;
      && q.Working? && q.runnable == p.runnable && q.workers == p.workers[k := q.workers[k]]
      && (if q.workers[k] == Finished then p.cursor <= q.cursor <= |q.runnable|
          else q.workers[k].Staging? && q.cursor == p.cursor + 1 <= |q.runnable|)
  {
    var p := w.pool.phase;
    ScanIsCursor(p.runnable, p.cursor, p.workers, w.pool.inFlight);
  }

  lemma WorkerStepLeavesLess(w: World, e: Event, config: Config)
    requires Invariant(w, config) && Enabled(w, e) && IsWorkerStep(e)
    ensures var p, q := w.pool.phase, Next(w, e, config).pool.phase;
      && q.Working? && q.runnable == p.runnable && p.cursor <= q.cursor <= |q.runnable|
      && q.workers == p.workers[e.k := q.workers[e.k]]
      && 5 * q.cursor + Weight(p.workers[e.k]) > 5 * p.cursor + Weight(q.workers[e.k])
  {
    if e.Claim? {
      ClaimLeavesLess(w, e.k, config);
    }
  }

  /** Every worker step brings the pass nearer to its end, and no other event takes it back. */
  lemma StepLeavesLess(w: World, e: Event, config: Config)
    requires Invariant(w, config) && w.pool.phase.Working? && Enabled(w, e) && e != JoinWorkers
    ensures var p, q := w.pool.phase, Next(w, e, config).pool.phase;
      && q.Working? && q.runnable == p.runnable && q.cursor <= |q.runnable|
      && (if IsWorkerStep(e) then Remaining(q) < Remaining(p) else q == p)
  {
    if IsWorkerStep(e) {
      var p, q := w.pool.phase, Next(w, e, config).pool.phase;
      WorkerStepLeavesLess(w, e, config);
      WeightAfter(p.workers, e.k, q.workers[e.k]);
    }
  }

  function WorkerSteps(events: seq<Event>): nat {
    if events == [] then 0 else (if IsWorkerStep(events[0]) then 1 else 0) + WorkerSteps(events[1..])
  }

  /** The worker can take its next step, an upload settling either way. */
  ghost predicate MayStep(w: World, k: nat) {
    || Enabled(w, Claim(k)) || Enabled(w, MarkUploading(k)) || Enabled(w, Save(k))
    || forall outcome, now :: Enabled(w, UploadSettled(k, outcome, now))
  }

  lemma SomeoneGoesOn(w: World, config: Config)
    requires Invariant(w, config) && w.pool.phase.Working?
    ensures Enabled(w, JoinWorkers) || exists k: nat :: MayStep(w, k)
  {
    var workers := w.pool.phase.workers;
    if k :| 0 <= k < |workers| && !workers[k].Finished? {
      assert MayStep(w, k);
    }
  }

  /**
   * A pass ends, whatever its interleaving: until its workers join, one of them can go on or they
   * can join, and they make only so many steps. All the while it works on one batch.
   */
  lemma {:induction false} PassEnds(w: World, events: seq<Event>, config: Config)
    requires Invariant(w, config) && w.pool.phase.Working?
    requires Continues(w, events, config) && JoinWorkers !in events
    ensures var t := Later(w, events, config);
      && Invariant(t, config) && t.pool.phase.Working? && t.pool.phase.runnable == w.pool.phase.runnable
      && (Enabled(t, JoinWorkers) || exists k: nat :: MayStep(t, k))
    ensures WorkerSteps(events) <= Remaining(w.pool.phase)
    decreases |events|
  {
    if events == [] {
      SomeoneGoesOn(w, config);
    } else {
      StepLeavesLess(w, events[0], config);
      StepKeepsInvariant(w, events[0], config);
      PassEnds(Next(w, events[0], config), events[1..], config);
    }
  }

  // --- what is sent by then ---------------------------------------------------------------

  lemma UncutPassSentAll(w: World, config: Config, i: nat)
    requires Invariant(w, config) && Enabled(w, JoinWorkers) && !w.cut && i < |w.pool.phase.runnable|
    ensures w.pool.phase.runnable[i].id in w.sent
  {
    assert w.pool.phase.workers[0].Finished?;
  }

  /** Listing and starting the workers, with nothing left out. */
  lemma ListingIsTaken(w: World, rows: seq<Record>, now: int, config: Config)
    requires Invariant(w, config) && Enabled(w, List(rows, now)) && rows != []
    ensures var t := Next(Next(w, List(rows, now), config), Receive, config);
      Invariant(t, config) && t.pool.phase.Working? && t.pool.phase.runnable == rows
  {
    var listed := Next(w, List(rows, now), config);
    ListFits(w, rows, now, config);
    ReceiveFits(listed, config);
    RunnableKeepsQueued(rows);
  }

  /**
   * What a listing has is sent: whatever happens between, when the workers join and none of them
   * was stopped short, each listed item has been uploaded in this pass.
   */
  lemma ListedItemsAreSent(w: World, rows: seq<Record>, now: int, events: seq<Event>, config: Config, i: nat)
    requires Invariant(w, config) && Enabled(w, List(rows, now)) && i < |rows|
    requires var t := Next(Next(w, List(rows, now), config), Receive, config);
      && Continues(t, events, config) && JoinWorkers !in events
      && Enabled(Later(t, events, config), JoinWorkers) && !Later(t, events, config).cut
    ensures var t := Next(Next(w, List(rows, now), config), Receive, config);
      rows[i].id in Later(t, events, config).sent
  {
    var t := Next(Next(w, List(rows, now), config), Receive, config);
    ListingIsTaken(w, rows, now, config);
    PassEnds(t, events, config);
    UncutPassSentAll(Later(t, events, config), config, i);
  }
}
