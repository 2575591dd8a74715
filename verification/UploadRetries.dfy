/**
 * What becomes of a single upload: an item is parked only once its attempts are used up, a rejected
 * one waits exactly for its backoff, and an uploaded one stays uploaded.
 */
module UploadRetries {
  import opened Wrappers
  import opened Text
  import opened UploadPool
  import opened UploadRuns

  // --- backoff ---------------------------------------------------------------------------

  /** The waits start at the base and double up to the cap. */
  lemma BackoffDoubles(config: Config, attempts: nat)
    requires attempts > 0 && config.backoffBaseMs >= 0
    ensures Backoff(config, 1) == Least(config.backoffMaxMs, config.backoffBaseMs)
    ensures Backoff(config, attempts) < config.backoffMaxMs ==>
      Backoff(config, attempts + 1) == Least(config.backoffMaxMs, 2 * Backoff(config, attempts))
    ensures Backoff(config, attempts) == config.backoffMaxMs ==> Backoff(config, attempts + 1) == config.backoffMaxMs
  {
    BackoffGrows(config, attempts);
  }

  function Least(a: int, b: int): int {
    if a < b then a else b
  }

  // --- counting exactly ------------------------------------------------------------------

  /** The attempts that the item has behind it, by the count of its uploads. */
  function Spent(w: World, id: Id): nat {
    UploadsOf(w.base, id) + UploadsOf(w.uploads, id)
  }

  /** A waiting or parked row shows exactly the attempts spent, and parked in the run means all of them. */
  ghost predicate RowExact(w: World, r: Record, cap: nat) {
    match r.status
    case Queued => r.attempts == Spent(w, r.id)
    case Failed => r.attempts == Spent(w, r.id) && (r.id in w.uploads ==> Spent(w, r.id) == cap)
    case _ => true
  }

  ghost predicate HasStatus(store: map<Id, Record>, id: Id, status: Status) {
    id in store && store[id].status == status
  }

  ghost predicate IsStored(store: map<Id, Record>, r: Record) {
    r.id in store && store[r.id] == r
  }

  ghost predicate WorkerExact(w: World, worker: Worker, cap: nat) {
    match worker
    case Staging(r) => IsStored(w.pool.store, r) && r.status == Queued
    case Sending(r) => r.attempts + 1 == Spent(w, r.id) <= cap && HasStatus(w.pool.store, r.id, Uploading)
    case Saving(r) => RowExact(w, r, cap) && r.status != Uploading && HasStatus(w.pool.store, r.id, Uploading)
    case _ => true
  }

  ghost predicate PhaseExact(w: World, cap: nat) {
    match w.pool.phase
    case Listed(rows) => forall i :: 0 <= i < |rows| ==> IsStored(w.pool.store, rows[i]) && rows[i].status == Queued
    case Working(runnable, cursor, workers) =>
      && (forall i :: 0 <= cursor <= i < |runnable| ==>
            IsStored(w.pool.store, runnable[i]) && runnable[i].status == Queued)
      && (forall k :: 0 <= k < |workers| ==> WorkerExact(w, workers[k], cap))
    case _ => true
  }

  ghost predicate StoreExact(w: World, cap: nat) {
    forall id :: id in w.pool.store ==> w.pool.store[id].id == id && RowExact(w, w.pool.store[id], cap)
  }

  ghost predicate Exact(w: World, config: Config) {
    StoreExact(w, AtLeastOne(config.maxAttempts)) && PhaseExact(w, AtLeastOne(config.maxAttempts))
  }

  /** The pass in progress has listed the item and not finished with it. */
  ghost predicate InHand(p: Pool, id: Id) {
    match p.phase
    case Listed(rows) => exists i :: 0 <= i < |rows| && rows[i].id == id
    case Working(runnable, cursor, workers) =>
      (exists i :: 0 <= cursor <= i < |runnable| && runnable[i].id == id) || Held(workers, id)
    case _ => false
  }

  /** Ids are fresh: an item is not enqueued anew while a pass has it in hand. */
  ghost predicate NoRace(w: World, e: Event) {
    e.Enqueue? ==> !InHand(w.pool, e.id)
  }

  /** Renewing a row that no pass has in hand. */
  lemma RenewKeepsExact(w: World, r: Record, config: Config)
    requires Exact(w, config) && !InHand(w.pool, r.id) && r.status == Queued && r.attempts == 0
    ensures Exact(w.(pool := w.pool.(store := w.pool.store[r.id := r]),
                     uploads := w.uploads[r.id := 0], base := w.base[r.id := 0]), config)
  {
    var t := w.(pool := w.pool.(store := w.pool.store[r.id := r]),
                uploads := w.uploads[r.id := 0], base := w.base[r.id := 0]);
    var cap := AtLeastOne(config.maxAttempts);
    if w.pool.phase.Working? {
      forall k | 0 <= k < |w.pool.phase.workers| ensures WorkerExact(t, w.pool.phase.workers[k], cap) {
        assert WorkerExact(w, w.pool.phase.workers[k], cap);
        if Active(w.pool.phase.workers[k]) {
          assert Held(w.pool.phase.workers, w.pool.phase.workers[k].record.id);
        }
      }
    }
  }

  lemma HandStatus(w: World, config: Config, id: Id)
    requires Exact(w, config) && InHand(w.pool, id)
    ensures HasStatus(w.pool.store, id, Queued) || HasStatus(w.pool.store, id, Uploading)
  {
    if w.pool.phase.Working? && Held(w.pool.phase.workers, id) {
      var workers := w.pool.phase.workers;
      var k :| 0 <= k < |workers| && Active(workers[k]) && workers[k].record.id == id;
      assert WorkerExact(w, workers[k], AtLeastOne(config.maxAttempts));
    }
  }

  lemma ReceiveKeepsExact(w: World, config: Config)
    requires Invariant(w, config) && Exact(w, config) && Enabled(w, Receive)
    ensures Exact(Next(w, Receive, config), config)
  {
    RunnableKeepsQueued(w.pool.phase.rows);
  }

  /** The other workers and the rest of the batch hold other items. */
  lemma OthersDiffer(w: World, config: Config, k: nat)
    requires Invariant(w, config) && WorkerAt(w, k) && Active(w.pool.phase.workers[k])
    ensures var p := w.pool.phase;
      && (forall l :: 0 <= l < |p.workers| && l != k && Active(p.workers[l]) ==>
            p.workers[l].record.id != p.workers[k].record.id)
      && (forall i :: p.cursor <= i < |p.runnable| ==> p.runnable[i].id != p.workers[k].record.id)
  {
    var p := w.pool.phase;
    assert Held(p.workers, p.workers[k].record.id);
    forall l | 0 <= l < |p.workers| && l != k && Active(p.workers[l])
      ensures p.workers[l].record.id != p.workers[k].record.id
    {
      assert l < k || k < l;
    }
  }

  /** What a worker holds is judged by the stored row and the counts of its item alone. */
  ghost predicate SameItem(w: World, t: World, id: Id) {
    && (id in t.pool.store <==> id in w.pool.store) && (id in w.pool.store ==> t.pool.store[id] == w.pool.store[id])
    && Spent(t, id) == Spent(w, id) && (id in t.uploads <==> id in w.uploads)
  }

  lemma SameItemSameWorker(w: World, t: World, worker: Worker, cap: nat)
    requires WorkerExact(w, worker, cap) && (Active(worker) ==> SameItem(w, t, worker.record.id))
    ensures WorkerExact(t, worker, cap)
  {
  }

  /** A step of worker `k` that touches no item but the one it holds, if it holds one. */
  ghost predicate OwnStep(w: World, t: World, k: nat)
    requires WorkerAt(w, k)
  {
    var p, q := w.pool.phase, t.pool.phase;
    && q.Working? && q.runnable == p.runnable && p.cursor <= q.cursor <= |q.runnable|
    && |q.workers| == |p.workers| && (forall l :: 0 <= l < |p.workers| && l != k ==> q.workers[l] == p.workers[l])
    && (forall id :: !(Active(p.workers[k]) && id == p.workers[k].record.id) ==> SameItem(w, t, id))
  }

  lemma OwnStepKeepsExact(w: World, t: World, k: nat, config: Config)
    requires Invariant(w, config) && Exact(w, config) && WorkerAt(w, k) && OwnStep(w, t, k)
    requires WorkerExact(t, t.pool.phase.workers[k], AtLeastOne(config.maxAttempts))
    requires StoreExact(t, AtLeastOne(config.maxAttempts))
    ensures Exact(t, config)
  {
    var p, q, cap := w.pool.phase, t.pool.phase, AtLeastOne(config.maxAttempts);
    if Active(p.workers[k]) {
      OthersDiffer(w, config, k);
    }
    forall l | 0 <= l < |q.workers| ensures WorkerExact(t, q.workers[l], cap) {
      if l != k {
        SameItemSameWorker(w, t, p.workers[l], cap);
      }
    }
    forall i | q.cursor <= i < |q.runnable|
      ensures IsStored(t.pool.store, q.runnable[i]) && q.runnable[i].status == Queued
    {
      assert SameItem(w, t, q.runnable[i].id);
    }
  }

  lemma ClaimIsOwnStep(w: World, k: nat, config: Config)
    requires Invariant(w, config) && Enabled(w, Claim(k))
    ensures var t, p := Next(w, Claim(k), config), w.pool.phase;
      && OwnStep(w, t, k) && t.pool.store == w.pool.store && t.uploads == w.uploads && t.base == w.base
      && (t.pool.phase.workers[k] == Finished ||
          (p.cursor < |p.runnable| && t.pool.phase.workers[k] == Staging(p.runnable[p.cursor])))
  {
    var p := w.pool.phase;
    ScanIsCursor(p.runnable, p.cursor, p.workers, w.pool.inFlight);
  }

  lemma ClaimKeepsExact(w: World, k: nat, config: Config)
    requires Invariant(w, config) && Exact(w, config) && Enabled(w, Claim(k))
    ensures Exact(Next(w, Claim(k), config), config)
  {
    var t, p := Next(w, Claim(k), config), w.pool.phase;
    ClaimIsOwnStep(w, k, config);
    assert t.pool.phase.workers[k].Staging? ==> t.pool.phase.workers[k].record == p.runnable[p.cursor];
    OwnStepKeepsExact(w, t, k, config);
  }

  lemma MarkIsOwnStep(w: World, k: nat, config: Config)
    requires Invariant(w, config) && Enabled(w, MarkUploading(k))
    ensures OwnStep(w, Next(w, MarkUploading(k), config), k)
  {
  }

  lemma MarkKeepsExact(w: World, k: nat, config: Config)
    requires Invariant(w, config) && Exact(w, config) && Enabled(w, MarkUploading(k))
    ensures Exact(Next(w, MarkUploading(k), config), config)
  {
    var t, cap := Next(w, MarkUploading(k), config), AtLeastOne(config.maxAttempts);
    var worker := w.pool.phase.workers[k];
    assert WorkerExact(w, worker, cap) && WorkerFits(worker, w.uploads, cap);
    MarkIsOwnStep(w, k, config);
    OwnStepKeepsExact(w, t, k, config);
  }

  /** What a settled upload makes of the record. */
  lemma SettledRecord(config: Config, r: Record, outcome: Outcome, now: int)
    requires r.attempts < AtLeastOne(config.maxAttempts)
    ensures var s := AfterUpload(config, r, outcome, now);
      && s.id == r.id && s.file == r.file
      && (outcome.Sent? ==> s.status == Uploaded && s.remoteUrl == Some(outcome.url))
      && (outcome.Rejected? ==>
            && s.attempts == r.attempts + 1 && s.lastError == Some(outcome.message)
            && s.status == (if s.attempts == AtLeastOne(config.maxAttempts) then Failed else Queued)
            && (s.status == Queued ==> s.nextAttemptAt == now + Backoff(config, s.attempts)))
  {
  }

  lemma SettleKeepsExact(w: World, k: nat, outcome: Outcome, now: int, config: Config)
    requires Invariant(w, config) && Exact(w, config) && Enabled(w, UploadSettled(k, outcome, now))
    ensures Exact(Next(w, UploadSettled(k, outcome, now), config), config)
  {
    var t, cap := Next(w, UploadSettled(k, outcome, now), config), AtLeastOne(config.maxAttempts);
    var worker := w.pool.phase.workers[k];
    assert WorkerExact(w, worker, cap) && WorkerFits(worker, w.uploads, cap);
    SettledRecord(config, worker.record, outcome, now);
    assert OwnStep(w, t, k);
    OwnStepKeepsExact(w, t, k, config);
  }

  lemma SaveKeepsExact(w: World, k: nat, config: Config)
    requires Invariant(w, config) && Exact(w, config) && Enabled(w, Save(k))
    ensures Exact(Next(w, Save(k), config), config)
  {
    var t, cap := Next(w, Save(k), config), AtLeastOne(config.maxAttempts);
    assert WorkerExact(w, w.pool.phase.workers[k], cap);
    assert OwnStep(w, t, k);
    OwnStepKeepsExact(w, t, k, config);
  }

  lemma SameRowsKeepExact(w: World, t: World, config: Config)
    requires Exact(w, config)
    requires t.pool.store == w.pool.store && t.uploads == w.uploads && t.base == w.base
    requires t.pool.phase == w.pool.phase || !(t.pool.phase.Listed? || t.pool.phase.Working?)
    ensures Exact(t, config)
  {
    var cap := AtLeastOne(config.maxAttempts);
    if t.pool.phase.Working? {
      forall k | 0 <= k < |t.pool.phase.workers| ensures WorkerExact(t, t.pool.phase.workers[k], cap) {
        SameItemSameWorker(w, t, w.pool.phase.workers[k], cap);
      }
    }
  }

  /** The others touch no row and no count, and keep or end the phase. */
  lemma QuietKeepsExact(w: World, e: Event, config: Config)
    requires Exact(w, config) && Enabled(w, e)
    requires e.Environment? || e.Process? || e.JoinWorkers? || e.ReturnFromPass?
    ensures Exact(Next(w, e, config), config)
  {
    SameRowsKeepExact(w, Next(w, e, config), config);
  }

  lemma ListKeepsExact(w: World, rows: seq<Record>, now: int, config: Config)
    requires Exact(w, config) && Enabled(w, List(rows, now))
    ensures Exact(Next(w, List(rows, now), config), config)
  {
  }

  lemma RetryKeepsExact(w: World, id: Id, config: Config)
    requires Exact(w, config)
    ensures Exact(Next(w, Retry(id), config), config)
  {
    if HasStatus(w.pool.store, id, Failed) {
      if InHand(w.pool, id) {
        HandStatus(w, config, id);
      }
      RenewKeepsExact(w, Requeued(w.pool.store[id]), config);
    }
  }

  lemma StepKeepsExact(w: World, e: Event, config: Config)
    requires Invariant(w, config) && Exact(w, config) && Enabled(w, e) && NoRace(w, e)
    ensures Exact(Next(w, e, config), config)
  {
    match e
    case Enqueue(id, file) => RenewKeepsExact(w, Record(id, file, Queued, 0, 0, None, None), config);
    case Retry(id) => RetryKeepsExact(w, id, config);
    case List(rows, now) => ListKeepsExact(w, rows, now, config);
    case Receive => ReceiveKeepsExact(w, config);
    case Claim(k) => ClaimKeepsExact(w, k, config);
    case MarkUploading(k) => MarkKeepsExact(w, k, config);
    case UploadSettled(k, outcome, now) => SettleKeepsExact(w, k, outcome, now, config);
    case Save(k) => SaveKeepsExact(w, k, config);
    case _ => QuietKeepsExact(w, e, config);
  }

  // --- runs ------------------------------------------------------------------------------

  ghost predicate RaceFree(store: map<Id, Record>, suitable: bool, run: seq<Event>, config: Config)
    requires IsRun(store, suitable, run, config)
    decreases |run|
  {
    run == [] ||
    (RaceFree(store, suitable, run[..|run| - 1], config) &&
     NoRace(After(store, suitable, run[..|run| - 1], config), run[|run| - 1]))
  }

  lemma StartIsExact(store: map<Id, Record>, suitable: bool, config: Config)
    requires StartsWell(store, config)
    ensures Exact(Start(store, suitable), config)
  {
  }

  lemma {:induction false} RunKeepsExact(store: map<Id, Record>, suitable: bool, run: seq<Event>, config: Config)
    requires StartsWell(store, config) && IsRun(store, suitable, run, config)
    requires RaceFree(store, suitable, run, config)
    ensures Exact(After(store, suitable, run, config), config)
    decreases |run|
  {
    if run == [] {
      StartIsExact(store, suitable, config);
    } else {
      var rest := run[..|run| - 1];
      RunKeepsExact(store, suitable, rest, config);
      RunKeepsInvariant(store, suitable, rest, config);
      StepKeepsExact(After(store, suitable, rest, config), run[|run| - 1], config);
    }
  }

  /**
   * An item that was uploaded, enqueued or retried in the run is parked only with all its attempts
   * spent: max(1, maxAttempts) uploads since it was enqueued or retried, or as many as an item that
   * was found in the store had left.
   */
  lemma ParkedOnlyWhenSpent(store: map<Id, Record>, suitable: bool, run: seq<Event>, config: Config, id: Id)
    requires StartsWell(store, config) && IsRun(store, suitable, run, config)
    requires RaceFree(store, suitable, run, config)
    requires HasStatus(After(store, suitable, run, config).pool.store, id, Failed)
    requires id in After(store, suitable, run, config).uploads
    ensures var w := After(store, suitable, run, config);
      UploadsOf(w.uploads, id) == AtLeastOne(config.maxAttempts) - UploadsOf(w.base, id)
  {
    RunKeepsExact(store, suitable, run, config);
    var w := After(store, suitable, run, config);
    assert RowExact(w, w.pool.store[id], AtLeastOne(config.maxAttempts));
  }

  lemma RejectedRecord(w: World, k: nat, message: Str, now: int, config: Config)
    requires Invariant(w, config) && Exact(w, config) && Enabled(w, UploadSettled(k, Rejected(message), now))
    ensures var u := w.pool.phase.workers[k].record;
      var r := AfterUpload(config, u, Rejected(message), now);
      && r.id == u.id && r.lastError == Some(message)
      && 0 < Spent(w, u.id) <= AtLeastOne(config.maxAttempts)
      && (if Spent(w, u.id) < AtLeastOne(config.maxAttempts)
          then r.status == Queued && r.nextAttemptAt == now + Backoff(config, Spent(w, u.id))
          else r.status == Failed)
  {
    var cap := AtLeastOne(config.maxAttempts);
    assert WorkerExact(w, w.pool.phase.workers[k], cap) && WorkerFits(w.pool.phase.workers[k], w.uploads, cap);
  }

  /** A rejected upload is parked or tried again, exactly by whether its attempts are spent. */
  lemma RejectedIsRetriedIff(store: map<Id, Record>, suitable: bool, run: seq<Event>, config: Config,
                             k: nat, message: Str, now: int)
    requires StartsWell(store, config) && IsRun(store, suitable, run, config)
    requires RaceFree(store, suitable, run, config)
    requires Enabled(After(store, suitable, run, config), UploadSettled(k, Rejected(message), now))
    ensures var w := After(store, suitable, run, config);
      var r := w.pool.phase.workers[k].record;
      var saving := Next(w, UploadSettled(k, Rejected(message), now), config).pool.phase.workers[k];
      && saving.Saving? && saving.record.id == r.id && saving.record.lastError == Some(message)
      && 0 < Spent(w, r.id) <= AtLeastOne(config.maxAttempts)
      && (if Spent(w, r.id) < AtLeastOne(config.maxAttempts)
          then saving.record.status == Queued &&
               saving.record.nextAttemptAt == now + Backoff(config, Spent(w, r.id))
          else saving.record.status == Failed)
  {
    RunKeepsExact(store, suitable, run, config);
    RunKeepsInvariant(store, suitable, run, config);
    RejectedRecord(After(store, suitable, run, config), k, message, now, config);
  }

  /**
   * The counts are exact only without such races: an item enqueued anew while its last upload is
   * under way is parked by that upload's rejection, with no upload since.
   */
  lemma RaceParksEarly(w: World, k: nat, file: Str, message: Str, now: int, config: Config)
    requires Enabled(w, UploadSettled(k, Rejected(message), now))
    requires w.pool.phase.workers[k].record.attempts + 1 >= config.maxAttempts
    ensures var id := w.pool.phase.workers[k].record.id;
      var renewed := Next(w, Enqueue(id, file), config);
      var t := Next(Next(renewed, UploadSettled(k, Rejected(message), now), config), Save(k), config);
      HasStatus(t.pool.store, id, Failed) && UploadsOf(t.uploads, id) == 0 && InHand(w.pool, id)
  {
    assert Active(w.pool.phase.workers[k]);
  }

  // --- rows at rest ----------------------------------------------------------------------

  /** The row is stored, and no pass has it in hand. */
  ghost predicate Rests(w: World, r: Record) {
    IsStored(w.pool.store, r) && !InHand(w.pool, r.id)
  }

  /** The event does not renew the item, nor list it for a pass. */
  ghost predicate LeavesAlone(r: Record, e: Event) {
    match e
    case Enqueue(id, _) => id != r.id
    case Retry(id) => id != r.id || r.status != Failed
    case List(rows, _) => r !in rows
    case _ => true
  }

  lemma ListRests(w: World, r: Record, rows: seq<Record>, now: int)
    requires Rests(w, r) && Enabled(w, List(rows, now)) && r !in rows
    ensures forall i :: 0 <= i < |rows| ==> rows[i].id != r.id
  {
  }

  lemma {:induction false} RunnableIsListed(rows: seq<Record>, inFlight: set<Id>)
    ensures forall r :: r in Runnable(rows, inFlight) ==> r in rows
  {
    if rows != [] {
      RunnableIsListed(rows[..|rows| - 1], inFlight);
    }
  }

  lemma ReceiveRests(w: World, r: Record, config: Config)
    requires Rests(w, r) && Enabled(w, Receive)
    ensures Rests(Next(w, Receive, config), r)
  {
    var rows, q := w.pool.phase.rows, Next(w, Receive, config).pool.phase;
    RunnableIsListed(rows, w.pool.inFlight);
    if q.Working? {
      assert forall k :: 0 <= k < |q.workers| ==> q.workers[k] == Ready;
      forall i | 0 <= i < |q.runnable| ensures q.runnable[i].id != r.id {
        assert q.runnable[i] in rows;
      }
    }
  }

  lemma ClaimRests(w: World, r: Record, k: nat, config: Config)
    requires Rests(w, r) && Enabled(w, Claim(k))
    ensures Rests(Next(w, Claim(k), config), r)
  {
    var p, q := w.pool.phase, Next(w, Claim(k), config).pool.phase;
    assert !Held(p.workers, r.id);
    HeldAfter(p.workers, k, q.workers[k], r.id);
    assert q.workers == p.workers[k := q.workers[k]];
    assert Active(q.workers[k]) ==> q.workers[k].record.id != r.id;
  }

  /** A worker's own step concerns the item that it holds. */
  lemma WorkerRests(w: World, r: Record, e: Event, k: nat, config: Config)
    requires Rests(w, r) && Enabled(w, e) && WorkerAt(w, k)
    requires e == MarkUploading(k) || e == Save(k) || (e.UploadSettled? && e.k == k)
    ensures Rests(Next(w, e, config), r)
    ensures UploadsOf(Next(w, e, config).uploads, r.id) == UploadsOf(w.uploads, r.id)
  {
    var p, q := w.pool.phase, Next(w, e, config).pool.phase;
    assert Active(p.workers[k]) && !Held(p.workers, r.id);
    assert p.workers[k].record.id != r.id;
    HeldAfter(p.workers, k, q.workers[k], r.id);
    assert q.workers == p.workers[k := q.workers[k]];
  }

  lemma StepRests(w: World, r: Record, e: Event, config: Config)
    requires Rests(w, r) && Enabled(w, e) && LeavesAlone(r, e)
    ensures Rests(Next(w, e, config), r)
    ensures UploadsOf(Next(w, e, config).uploads, r.id) == UploadsOf(w.uploads, r.id)
  {
    match e
    case List(rows, now) => ListRests(w, r, rows, now);
    case Receive => ReceiveRests(w, r, config);
    case Claim(k) => ClaimRests(w, r, k, config);
    case MarkUploading(k) => WorkerRests(w, r, e, k, config);
    case UploadSettled(k, _, _) => WorkerRests(w, r, e, k, config);
    case Save(k) => WorkerRests(w, r, e, k, config);
    case _ =>
  }

  ghost predicate Continues(w: World, events: seq<Event>, config: Config)
    decreases |events|
  {
    events == [] || (Enabled(w, events[0]) && Continues(Next(w, events[0], config), events[1..], config))
  }

  ghost function Later(w: World, events: seq<Event>, config: Config): World
    requires Continues(w, events, config)
    decreases |events|
  {
    if events == [] then w else Later(Next(w, events[0], config), events[1..], config)
  }

  lemma {:induction false} RestsOn(w: World, r: Record, events: seq<Event>, config: Config)
    requires Rests(w, r) && Continues(w, events, config)
    requires forall i :: 0 <= i < |events| ==> LeavesAlone(r, events[i])
    ensures Rests(Later(w, events, config), r)
    ensures UploadsOf(Later(w, events, config).uploads, r.id) == UploadsOf(w.uploads, r.id)
    decreases |events|
  {
    if events != [] {
      StepRests(w, r, events[0], config);
      RestsOn(Next(w, events[0], config), r, events[1..], config);
    }
  }

  /** Once its outcome is saved, an item is at rest. */
  lemma SavedRests(w: World, k: nat, config: Config)
    requires Invariant(w, config) && Enabled(w, Save(k))
    ensures Rests(Next(w, Save(k), config), w.pool.phase.workers[k].record)
  {
    var workers := w.pool.phase.workers;
    OthersDiffer(w, config, k);
    HeldAfter(workers, k, Ready, workers[k].record.id);
  }

  /** Events without an `Enqueue` of the item. */
  ghost predicate NotRenewed(id: Id, events: seq<Event>) {
    forall i :: 0 <= i < |events| && events[i].Enqueue? ==> events[i].id != id
  }

  /** And without a listing at or after `due`. */
  ghost predicate NotListedFrom(due: int, events: seq<Event>) {
    forall i :: 0 <= i < |events| && events[i].List? ==> events[i].now < due
  }

  lemma {:induction false} QueuedRestsUntilDue(w: World, r: Record, events: seq<Event>, config: Config)
    requires Rests(w, r) && r.status == Queued && Continues(w, events, config)
    requires NotRenewed(r.id, events) && NotListedFrom(r.nextAttemptAt, events)
    ensures Rests(Later(w, events, config), r)
    ensures UploadsOf(Later(w, events, config).uploads, r.id) == UploadsOf(w.uploads, r.id)
    decreases |events|
  {
    if events != [] {
      assert LeavesAlone(r, events[0]);
      StepRests(w, r, events[0], config);
      assert forall i :: 0 <= i < |events[1..]| ==> events[1..][i] == events[i + 1];
      QueuedRestsUntilDue(Next(w, events[0], config), r, events[1..], config);
    }
  }

  /** An item that is enqueued, or retried after it was parked, has all its attempts and is due at once. */
  lemma RenewedIsListed(w: World, e: Event, rows: seq<Record>, now: int, config: Config)
    requires Invariant(w, config) && now >= 0
    requires e.Enqueue? || (e.Retry? && HasStatus(w.pool.store, e.id, Failed))
    requires Enabled(Next(w, e, config), List(rows, now))
    ensures exists i :: 0 <= i < |rows| && rows[i].id == e.id && rows[i].attempts == 0 &&
                        rows[i].file == (if e.Enqueue? then e.file else w.pool.store[e.id].file)
    ensures Spent(Next(w, e, config), e.id) == 0
  {
    var r := Next(w, e, config).pool.store[e.id];
    assert r in rows;
  }

  lemma {:induction false} UploadedRests(w: World, r: Record, events: seq<Event>, config: Config)
    requires Rests(w, r) && r.status == Uploaded && Continues(w, events, config) && NotRenewed(r.id, events)
    ensures Rests(Later(w, events, config), r)
    ensures UploadsOf(Later(w, events, config).uploads, r.id) == UploadsOf(w.uploads, r.id)
    decreases |events|
  {
    if events != [] {
      assert LeavesAlone(r, events[0]);
      StepRests(w, r, events[0], config);
      assert forall i :: 0 <= i < |events[1..]| ==> events[1..][i] == events[i + 1];
      UploadedRests(Next(w, events[0], config), r, events[1..], config);
    }
  }

  // --- from the settled upload to its save, and on ---------------------------------------

  /** Nothing but its own save takes a settled outcome from a worker. */
  lemma OutcomeIsKept(w: World, k: nat, e: Event, config: Config)
    requires WorkerAt(w, k) && w.pool.phase.workers[k].Saving? && Enabled(w, e) && e != Save(k)
    requires w.pool.draining
    ensures WorkerAt(Next(w, e, config), k)
    ensures Next(w, e, config).pool.phase.workers[k] == w.pool.phase.workers[k]
  {
  }

  /** Until then every step but the save may come in between. */
  lemma {:induction false} OutcomeWaits(w: World, k: nat, events: seq<Event>, config: Config)
    requires Invariant(w, config) && WorkerAt(w, k) && w.pool.phase.workers[k].Saving?
    requires Continues(w, events, config) && Save(k) !in events
    ensures Invariant(Later(w, events, config), config) && Enabled(Later(w, events, config), Save(k))
    ensures Later(w, events, config).pool.phase.workers[k] == w.pool.phase.workers[k]
    decreases |events|
  {
    if events != [] {
      StepKeepsInvariant(w, events[0], config);
      OutcomeIsKept(w, k, events[0], config);
      OutcomeWaits(Next(w, events[0], config), k, events[1..], config);
    }
  }

  /** An upload settles, `between` happens, and the worker saves the outcome. */
  ghost predicate SettlesAndSaves(w: World, k: nat, outcome: Outcome, now: int, between: seq<Event>, config: Config) {
    && Enabled(w, UploadSettled(k, outcome, now))
    && Continues(Next(w, UploadSettled(k, outcome, now), config), between, config) && Save(k) !in between
    && Enabled(Later(Next(w, UploadSettled(k, outcome, now), config), between, config), Save(k))
  }

  ghost function OutcomeSaved(w: World, k: nat, outcome: Outcome, now: int, between: seq<Event>, config: Config): World
    requires SettlesAndSaves(w, k, outcome, now, between, config)
  {
    Next(Later(Next(w, UploadSettled(k, outcome, now), config), between, config), Save(k), config)
  }

  lemma OutcomeRests(w: World, k: nat, outcome: Outcome, now: int, between: seq<Event>, config: Config)
    requires Invariant(w, config) && SettlesAndSaves(w, k, outcome, now, between, config)
    ensures Rests(OutcomeSaved(w, k, outcome, now, between, config),
                  AfterUpload(config, w.pool.phase.workers[k].record, outcome, now))
  {
    var settled := Next(w, UploadSettled(k, outcome, now), config);
    UploadSettledFits(w, k, outcome, now, config);
    OutcomeWaits(settled, k, between, config);
    SavedRests(Later(settled, between, config), k, config);
  }

  lemma RestingIsListedIff(w: World, r: Record, rows: seq<Record>, now: int)
    requires Rests(w, r) && r.status == Queued && Enabled(w, List(rows, now))
    ensures (exists i :: 0 <= i < |rows| && rows[i].id == r.id) <==> now >= r.nextAttemptAt
  {
    assert now >= r.nextAttemptAt ==> r in rows;
  }

  /**
   * A rejected upload with attempts to spare is tried again at its time: whatever else happens, the
   * item waits while listings are earlier, is not sent, and a listing has it exactly from the time of
   * the rejection plus the backoff on. (The upload itself is among the attempts spent.)
   */
  lemma RejectedIsListedWhenDue(w: World, k: nat, message: Str, now: int, between: seq<Event>, events: seq<Event>,
                                rows: seq<Record>, later: int, config: Config)
    requires Invariant(w, config) && Exact(w, config)
    requires SettlesAndSaves(w, k, Rejected(message), now, between, config)
    requires 0 < Spent(w, w.pool.phase.workers[k].record.id) < AtLeastOne(config.maxAttempts)
    requires Continues(OutcomeSaved(w, k, Rejected(message), now, between, config), events, config)
    requires NotRenewed(w.pool.phase.workers[k].record.id, events)
    requires NotListedFrom(now + Backoff(config, Spent(w, w.pool.phase.workers[k].record.id)), events)
    requires Enabled(Later(OutcomeSaved(w, k, Rejected(message), now, between, config), events, config),
                     List(rows, later))
    ensures var id, saved := w.pool.phase.workers[k].record.id,
                             OutcomeSaved(w, k, Rejected(message), now, between, config);
      var t := Later(saved, events, config);
      && !InHand(t.pool, id) && UploadsOf(t.uploads, id) == UploadsOf(saved.uploads, id)
      && ((exists i :: 0 <= i < |rows| && rows[i].id == id) <==> later >= now + Backoff(config, Spent(w, id)))
  {
    var saved := OutcomeSaved(w, k, Rejected(message), now, between, config);
    var r := AfterUpload(config, w.pool.phase.workers[k].record, Rejected(message), now);
    RejectedRecord(w, k, message, now, config);
    OutcomeRests(w, k, Rejected(message), now, between, config);
    QueuedRestsUntilDue(saved, r, events, config);
    RestingIsListedIff(Later(saved, events, config), r, rows, later);
  }

  /** A resolved upload leaves the item uploaded, with its url, and it is not sent again unless enqueued anew. */
  lemma ResolvedStaysUploaded(w: World, k: nat, url: Str, now: int, between: seq<Event>, events: seq<Event>,
                              config: Config)
    requires Invariant(w, config) && SettlesAndSaves(w, k, Sent(url), now, between, config)
    requires Continues(OutcomeSaved(w, k, Sent(url), now, between, config), events, config)
    requires NotRenewed(w.pool.phase.workers[k].record.id, events)
    ensures var id, saved := w.pool.phase.workers[k].record.id, OutcomeSaved(w, k, Sent(url), now, between, config);
      var t := Later(saved, events, config);
      && HasStatus(t.pool.store, id, Uploaded) && t.pool.store[id].remoteUrl == Some(url)
      && !InHand(t.pool, id) && UploadsOf(t.uploads, id) == UploadsOf(saved.uploads, id)
  {
    OutcomeRests(w, k, Sent(url), now, between, config);
    UploadedRests(OutcomeSaved(w, k, Sent(url), now, between, config),
                  AfterUpload(config, w.pool.phase.workers[k].record, Sent(url), now), events, config);
  }
}
