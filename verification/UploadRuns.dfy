/** What holds of the upload pool over every interleaving of its steps. */
module UploadRuns {
  import opened Wrappers
  import opened Text
  import opened UploadPool

  /**
   * The pool with its history: uploads of an id since it was last (re)queued, calls to `process`,
   * the calls made before the current pass began, whether a worker of the pass left early, and
   * the ids that the pass has sent. `base` has the attempts of each id when its count began.
   */
  datatype World = World(pool: Pool, uploads: map<Id, nat>, calls: nat, served: nat, cut: bool, sent: set<Id>,
                         base: map<Id, nat>)

  datatype Event =
    | Enqueue(id: Id, file: Str)
    | Retry(id: Id)
    | Environment(stopped: bool, suitable: bool)
    | Process
    | List(rows: seq<Record>, now: int)
    | Receive
    | Claim(k: nat)
    | MarkUploading(k: nat)
    | UploadSettled(k: nat, outcome: Outcome, now: int)
    | Save(k: nat)
    | JoinWorkers
    | ReturnFromPass

  function UploadsOf(uploads: map<Id, nat>, id: Id): nat {
    if id in uploads then uploads[id] else 0
  }

  ghost predicate DistinctIds(rows: seq<Record>) {
    forall i, j :: 0 <= i < j < |rows| ==> rows[i].id != rows[j].id
  }

  /** The port's promise for `listRunnable`. */
  ghost predicate IsListing(store: map<Id, Record>, rows: seq<Record>, now: int) {
    && DistinctIds(rows)
    && (forall i :: 0 <= i < |rows| ==>
          && rows[i].id in store && store[rows[i].id] == rows[i]
          && rows[i].status == Queued && rows[i].nextAttemptAt <= now)
    && (forall id :: id in store && store[id].status == Queued && store[id].nextAttemptAt <= now ==> store[id] in rows)
  }

  ghost predicate WorkerAt(w: World, k: nat) {
    At(w.pool, k)
  }

  ghost predicate Enabled(w: World, e: Event) {
    match e
    case List(rows, now) => w.pool.phase.Listing? && IsListing(w.pool.store, rows, now)
    case Receive => w.pool.phase.Listed?
    case Claim(k) => WorkerAt(w, k) && w.pool.phase.workers[k].Ready?
    case MarkUploading(k) => WorkerAt(w, k) && w.pool.phase.workers[k].Staging?
    case UploadSettled(k, _, _) => WorkerAt(w, k) && w.pool.phase.workers[k].Sending?
    case Save(k) => WorkerAt(w, k) && w.pool.phase.workers[k].Saving?
    case JoinWorkers =>
      && w.pool.phase.Working?
      && forall k :: 0 <= k < |w.pool.phase.workers| ==> w.pool.phase.workers[k].Finished?
    case ReturnFromPass => w.pool.phase.Returning?
    case _ => true
  }

  /** A pass begins: everything called so far is served by it. */
  function Serving(w: World, p: Pool): World {
    w.(pool := p, served := w.calls, cut := false, sent := {})
  }

  ghost function Next(w: World, e: Event, config: Config): World
    requires Enabled(w, e)
  {
    var p := w.pool;
    match e
    case Enqueue(id, file) =>
      w.(pool := p.(store := p.store[id := Record(id, file, Queued, 0, 0, None, None)]),
         uploads := w.uploads[id := 0], base := w.base[id := 0])
    case Retry(id) =>
      if id in p.store && p.store[id].status == Failed
      then w.(pool := p.(store := p.store[id := Requeued(p.store[id])]),
              uploads := w.uploads[id := 0], base := w.base[id := 0])
      else w
    case Environment(stopped, suitable) => w.(pool := p.(stopped := stopped, suitable := suitable))
    case Process =>
      var called := w.(calls := w.calls + 1);
      if p.draining then called.(pool := Processed(p)) else Serving(called, Processed(p))
    case List(rows, _) => w.(pool := p.(phase := Listed(rows)))
    case Receive => w.(pool := Received(p, config))
    case Claim(k) => w.(pool := Claimed(p, k), cut := w.cut || p.stopped || !p.suitable)
    case MarkUploading(k) =>
      var id := p.phase.workers[k].record.id;
      w.(pool := Staged(p, k), uploads := w.uploads[id := UploadsOf(w.uploads, id) + 1], sent := w.sent + {id})
    case UploadSettled(k, outcome, now) => w.(pool := Settled(p, config, k, outcome, now))
    case Save(k) => w.(pool := Saved(p, k))
    case JoinWorkers => w.(pool := p.(phase := Returning))
    case ReturnFromPass => if p.rerun then Serving(w, PassReturned(p)) else w.(pool := PassReturned(p))
  }

  /** Stored rows are keyed by id and queued ones still have an attempt left. */
  ghost predicate StartsWell(store: map<Id, Record>, config: Config) {
    forall id :: id in store ==>
      store[id].id == id && (store[id].status == Queued ==> store[id].attempts < AtLeastOne(config.maxAttempts))
  }

  function Start(store: map<Id, Record>, suitable: bool): World {
    World(Pool(store, {}, false, false, false, suitable, NotDraining), map[], 0, 0, false, {},
          map id | id in store :: store[id].attempts)
  }

  ghost predicate IsRun(store: map<Id, Record>, suitable: bool, run: seq<Event>, config: Config)
    decreases |run|, 0
  {
    run == [] || (IsRun(store, suitable, run[..|run| - 1], config) &&
                  Enabled(After(store, suitable, run[..|run| - 1], config), run[|run| - 1]))
  }

  ghost function After(store: map<Id, Record>, suitable: bool, run: seq<Event>, config: Config): World
    requires IsRun(store, suitable, run, config)
    decreases |run|, 1
  {
    if run == [] then Start(store, suitable)
    else Next(After(store, suitable, run[..|run| - 1], config), run[|run| - 1], config)
  }

  // --- the invariant -------------------------------------------------------------------

  predicate Active(w: Worker) {
    w.Staging? || w.Sending? || w.Saving?
  }

  /** An attempt is left, and every upload so far is accounted for by a failed attempt. */
  ghost predicate MayUpload(r: Record, uploads: map<Id, nat>, cap: nat) {
    UploadsOf(uploads, r.id) <= r.attempts < cap
  }

  ghost predicate RowFits(r: Record, uploads: map<Id, nat>, cap: nat) {
    UploadsOf(uploads, r.id) <= cap && (r.status == Queued ==> MayUpload(r, uploads, cap))
  }

  ghost predicate WorkerFits(w: Worker, uploads: map<Id, nat>, cap: nat) {
    match w
    case Staging(r) => MayUpload(r, uploads, cap)
    case Sending(r) => UploadsOf(uploads, r.id) <= r.attempts + 1 <= cap
    case Saving(r) => RowFits(r, uploads, cap)
    case _ => true
  }

  ghost predicate StoreFits(store: map<Id, Record>, uploads: map<Id, nat>, cap: nat) {
    && (forall id :: id in store ==> store[id].id == id && RowFits(store[id], uploads, cap))
    && (forall id :: id in uploads ==> uploads[id] <= cap)
  }

  ghost predicate Held(workers: seq<Worker>, id: Id) {
    exists k :: 0 <= k < |workers| && Active(workers[k]) && workers[k].record.id == id
  }

  /** Who is doing what: distinct items, each claimed from the front of the batch. */
  ghost predicate ClaimsFit(runnable: seq<Record>, cursor: nat, workers: seq<Worker>, inFlight: set<Id>) {
    && cursor <= |runnable| && DistinctIds(runnable)
    && (forall id :: id in inFlight <==> Held(workers, id))
    && (forall k, l :: 0 <= k < l < |workers| && Active(workers[k]) && Active(workers[l]) ==>
          workers[k].record.id != workers[l].record.id)
    && (forall i :: cursor <= i < |runnable| ==> runnable[i].id !in inFlight)
  }

  ghost predicate UploadsFit(runnable: seq<Record>, cursor: nat, workers: seq<Worker>,
                             uploads: map<Id, nat>, cap: nat) {
    && (forall i :: 0 <= cursor <= i < |runnable| ==> MayUpload(runnable[i], uploads, cap))
    && (forall k :: 0 <= k < |workers| ==> WorkerFits(workers[k], uploads, cap))
  }

  /** Nothing claimed is forgotten, nothing is sent twice, and no worker retires too soon. */
  ghost predicate PassFits(runnable: seq<Record>, cursor: nat, workers: seq<Worker>, sent: set<Id>, cut: bool) {
    && (forall i :: 0 <= i < cursor <= |runnable| ==>
          runnable[i].id in sent || Staging(runnable[i]) in workers)
    && (forall k :: 0 <= k < |workers| && workers[k].Staging? ==> workers[k].record.id !in sent)
    && (forall i :: cursor <= i < |runnable| ==> runnable[i].id !in sent)
    && (forall k :: 0 <= k < |workers| && workers[k].Finished? && !cut ==> cursor == |runnable|)
  }

  ghost predicate PhaseFits(w: World, config: Config) {
    var cap := AtLeastOne(config.maxAttempts);
    match w.pool.phase
    case Listed(rows) =>
      && w.pool.inFlight == {} && DistinctIds(rows) && w.sent == {} && !w.cut
      && forall i :: 0 <= i < |rows| ==> rows[i].status == Queued && MayUpload(rows[i], w.uploads, cap)
    case Working(runnable, cursor, workers) =>
      && 1 <= |workers| <= AtLeastOne(config.maxConcurrent)
      && ClaimsFit(runnable, cursor, workers, w.pool.inFlight)
      && UploadsFit(runnable, cursor, workers, w.uploads, cap)
      && PassFits(runnable, cursor, workers, w.sent, w.cut)
    case Listing => w.pool.inFlight == {} && w.sent == {} && !w.cut
    case _ => w.pool.inFlight == {}
  }

  /** A drain in progress has served every call, or will take another pass; no drain, none unserved. */
  ghost predicate CallsFit(w: World) {
    && (w.pool.draining <==> !w.pool.phase.NotDraining?)
    && w.served <= w.calls
    && (w.served == w.calls || (w.pool.draining && w.pool.rerun))
  }

  ghost predicate Invariant(w: World, config: Config) {
    && StoreFits(w.pool.store, w.uploads, AtLeastOne(config.maxAttempts))
    && PhaseFits(w, config)
    && CallsFit(w)
  }

  // --- each step keeps it ---------------------------------------------------------------

  /** Resetting a count keeps every bound. */
  lemma RequeueFits(w: World, r: Record, config: Config)
    requires Invariant(w, config) && r.status == Queued && r.attempts == 0
    ensures Invariant(w.(pool := w.pool.(store := w.pool.store[r.id := r]),
                         uploads := w.uploads[r.id := 0], base := w.base[r.id := 0]), config)
  {
  }

  lemma {:induction false} RunnableKeepsQueued(rows: seq<Record>)
    requires forall i :: 0 <= i < |rows| ==> rows[i].status == Queued
    ensures Runnable(rows, {}) == rows
  {
    if rows != [] {
      RunnableKeepsQueued(rows[..|rows| - 1]);
    }
  }

  lemma ListFits(w: World, rows: seq<Record>, now: int, config: Config)
    requires Invariant(w, config) && Enabled(w, List(rows, now))
    ensures Invariant(Next(w, List(rows, now), config), config)
  {
  }

  lemma ReceiveFits(w: World, config: Config)
    requires Invariant(w, config) && Enabled(w, Receive)
    ensures Invariant(Next(w, Receive, config), config)
  {
    RunnableKeepsQueued(w.pool.phase.rows);
  }

  /** Replacing one worker by one that holds the same item, or by one that holds nothing. */
  lemma HeldAfter(workers: seq<Worker>, k: nat, w: Worker, id: Id)
    requires k < |workers|
    ensures Held(workers[k := w], id) <==>
      || (Active(w) && w.record.id == id)
      || (exists l :: 0 <= l < |workers| && l != k && Active(workers[l]) && workers[l].record.id == id)
  {
    var workers' := workers[k := w];
    if l :| 0 <= l < |workers| && l != k && Active(workers[l]) && workers[l].record.id == id {
      assert workers'[l] == workers[l];
    }
    if Active(w) && w.record.id == id {
      assert workers'[k] == w;
    }
  }

  lemma ReplaceKeepsClaims(runnable: seq<Record>, cursor: nat, workers: seq<Worker>, inFlight: set<Id>,
                           k: nat, w: Worker)
    requires ClaimsFit(runnable, cursor, workers, inFlight) && k < |workers|
    requires Active(w) && Active(workers[k]) && w.record.id == workers[k].record.id
    ensures ClaimsFit(runnable, cursor, workers[k := w], inFlight)
  {
    forall id ensures id in inFlight <==> Held(workers[k := w], id) {
      HeldAfter(workers, k, w, id);
    }
  }

  lemma ReleaseKeepsClaims(runnable: seq<Record>, cursor: nat, workers: seq<Worker>, inFlight: set<Id>, k: nat)
    requires ClaimsFit(runnable, cursor, workers, inFlight) && k < |workers| && Active(workers[k])
    ensures ClaimsFit(runnable, cursor, workers[k := Ready], inFlight - {workers[k].record.id})
  {
    forall id ensures id in inFlight - {workers[k].record.id} <==> Held(workers[k := Ready], id) {
      HeldAfter(workers, k, Ready, id);
    }
  }

  lemma RetireKeepsClaims(runnable: seq<Record>, cursor: nat, workers: seq<Worker>, inFlight: set<Id>, k: nat)
    requires ClaimsFit(runnable, cursor, workers, inFlight) && k < |workers| && workers[k].Ready?
    ensures ClaimsFit(runnable, cursor, workers[k := Finished], inFlight)
  {
    forall id ensures id in inFlight <==> Held(workers[k := Finished], id) {
      HeldAfter(workers, k, Finished, id);
    }
  }

  lemma ClaimKeepsClaims(runnable: seq<Record>, cursor: nat, workers: seq<Worker>, inFlight: set<Id>, k: nat)
    requires ClaimsFit(runnable, cursor, workers, inFlight) && k < |workers| && workers[k].Ready? && cursor < |runnable|
    ensures ClaimsFit(runnable, cursor + 1, workers[k := Staging(runnable[cursor])], inFlight + {runnable[cursor].id})
  {
    var w := Staging(runnable[cursor]);
    forall id ensures id in inFlight + {runnable[cursor].id} <==> Held(workers[k := w], id) {
      HeldAfter(workers, k, w, id);
    }
    forall l | 0 <= l < |workers| && Active(workers[l]) ensures workers[l].record.id != runnable[cursor].id {
      assert Held(workers, workers[l].record.id);
    }
  }

  /** What was staged in `workers` and is not `workers[k]` is still staged after a change of worker `k`. */
  lemma StillStaged(workers: seq<Worker>, k: nat, w: Worker, r: Record)
    requires k < |workers| && workers[k] != Staging(r)
    requires Staging(r) in workers
    ensures Staging(r) in workers[k := w]
  {
    var l :| 0 <= l < |workers| && workers[l] == Staging(r);
    assert workers[k := w][l] == Staging(r);
  }

  lemma ReplaceKeepsPass(runnable: seq<Record>, cursor: nat, workers: seq<Worker>, sent: set<Id>, cut: bool,
                         k: nat, w: Worker)
    requires PassFits(runnable, cursor, workers, sent, cut) && k < |workers|
    requires !workers[k].Staging? && !w.Staging? && (w.Finished? && !cut ==> cursor == |runnable|)
    ensures PassFits(runnable, cursor, workers[k := w], sent, cut)
  {
    forall i | 0 <= i < cursor <= |runnable|
      ensures runnable[i].id in sent || Staging(runnable[i]) in workers[k := w]
    {
      if runnable[i].id !in sent {
        StillStaged(workers, k, w, runnable[i]);
      }
    }
  }

  lemma ClaimKeepsPass(runnable: seq<Record>, cursor: nat, workers: seq<Worker>, sent: set<Id>, cut: bool, k: nat)
    requires PassFits(runnable, cursor, workers, sent, cut) && k < |workers| && workers[k].Ready?
    requires cursor < |runnable| && (cut || forall l :: 0 <= l < |workers| ==> !workers[l].Finished?)
    ensures PassFits(runnable, cursor + 1, workers[k := Staging(runnable[cursor])], sent, cut)
  {
    var w := Staging(runnable[cursor]);
    forall i | 0 <= i < cursor + 1 <= |runnable|
      ensures runnable[i].id in sent || Staging(runnable[i]) in workers[k := w]
    {
      if i == cursor {
        assert workers[k := w][k] == w;
      } else if runnable[i].id !in sent {
        StillStaged(workers, k, w, runnable[i]);
      }
    }
  }

  lemma SendKeepsPass(runnable: seq<Record>, cursor: nat, workers: seq<Worker>, inFlight: set<Id>,
                      sent: set<Id>, cut: bool, k: nat)
    requires PassFits(runnable, cursor, workers, sent, cut) && ClaimsFit(runnable, cursor, workers, inFlight)
    requires k < |workers| && workers[k].Staging?
    ensures var r := workers[k].record;
      PassFits(runnable, cursor, workers[k := Sending(r)], sent + {r.id}, cut)
  {
    var r := workers[k].record;
    var w := Sending(r);
    assert Held(workers, r.id);
    forall i | 0 <= i < cursor <= |runnable|
      ensures runnable[i].id in sent + {r.id} || Staging(runnable[i]) in workers[k := w]
    {
      if runnable[i].id !in sent + {r.id} {
        StillStaged(workers, k, w, runnable[i]);
      }
    }
  }

  lemma ScanIsCursor(runnable: seq<Record>, cursor: nat, workers: seq<Worker>, inFlight: set<Id>)
    requires ClaimsFit(runnable, cursor, workers, inFlight)
    ensures Scan(runnable, cursor, inFlight) == cursor
  {
  }

  lemma ClaimFits(w: World, k: nat, config: Config)
    requires Invariant(w, config) && Enabled(w, Claim(k))
    ensures Invariant(Next(w, Claim(k), config), config)
  {
    var p := w.pool;
    var runnable, cursor, workers := p.phase.runnable, p.phase.cursor, p.phase.workers;
    var cut := w.cut || p.stopped || !p.suitable;
    ScanIsCursor(runnable, cursor, workers, p.inFlight);
    if p.stopped || !p.suitable || cursor == |runnable| {
      RetireKeepsClaims(runnable, cursor, workers, p.inFlight, k);
      ReplaceKeepsPass(runnable, cursor, workers, w.sent, cut, k, Finished);
    } else {
      ClaimKeepsClaims(runnable, cursor, workers, p.inFlight, k);
      ClaimKeepsPass(runnable, cursor, workers, w.sent, cut, k);
    }
  }

  /** One more upload of an item that a worker holds disturbs no other item. */
  lemma SendKeepsUploads(runnable: seq<Record>, cursor: nat, workers: seq<Worker>, inFlight: set<Id>,
                         uploads: map<Id, nat>, cap: nat, k: nat)
    requires ClaimsFit(runnable, cursor, workers, inFlight) && UploadsFit(runnable, cursor, workers, uploads, cap)
    requires k < |workers| && workers[k].Staging?
    ensures var r := workers[k].record;
      UploadsFit(runnable, cursor, workers[k := Sending(r)], uploads[r.id := UploadsOf(uploads, r.id) + 1], cap)
  {
    var r := workers[k].record;
    var workers', uploads' := workers[k := Sending(r)], uploads[r.id := UploadsOf(uploads, r.id) + 1];
    assert Held(workers, r.id);
    assert WorkerFits(workers[k], uploads, cap);
    forall i | cursor <= i < |runnable| ensures MayUpload(runnable[i], uploads', cap) {
      assert runnable[i].id != r.id;
    }
    forall l | 0 <= l < |workers| ensures WorkerFits(workers'[l], uploads', cap) {
      if l != k {
        assert WorkerFits(workers[l], uploads, cap);
        assert Active(workers[l]) ==> workers[l].record.id != r.id;
      }
    }
  }

  lemma SendKeepsStore(store: map<Id, Record>, uploads: map<Id, nat>, cap: nat, r: Record)
    requires StoreFits(store, uploads, cap) && MayUpload(r, uploads, cap)
    ensures StoreFits(store[r.id := r.(status := Uploading)], uploads[r.id := UploadsOf(uploads, r.id) + 1], cap)
  {
  }

  lemma MarkUploadingFits(w: World, k: nat, config: Config)
    requires Invariant(w, config) && Enabled(w, MarkUploading(k))
    ensures Invariant(Next(w, MarkUploading(k), config), config)
  {
    var p, cap := w.pool, AtLeastOne(config.maxAttempts);
    assert WorkerFits(p.phase.workers[k], w.uploads, cap);
    SendKeepsStore(p.store, w.uploads, cap, p.phase.workers[k].record);
    SendKeepsPhase(w, k, config);
  }

  lemma SendKeepsPhase(w: World, k: nat, config: Config)
    requires PhaseFits(w, config) && Enabled(w, MarkUploading(k))
    ensures PhaseFits(Next(w, MarkUploading(k), config), config)
  {
    var p, cap := w.pool, AtLeastOne(config.maxAttempts);
    var runnable, cursor, workers := p.phase.runnable, p.phase.cursor, p.phase.workers;
    SendKeepsUploads(runnable, cursor, workers, p.inFlight, w.uploads, cap, k);
    SendKeepsPass(runnable, cursor, workers, p.inFlight, w.sent, w.cut, k);
    ReplaceKeepsClaims(runnable, cursor, workers, p.inFlight, k, Sending(workers[k].record));
  }

  lemma OutcomeFits(config: Config, r: Record, outcome: Outcome, now: int, uploads: map<Id, nat>)
    requires UploadsOf(uploads, r.id) <= r.attempts + 1 <= AtLeastOne(config.maxAttempts)
    ensures AfterUpload(config, r, outcome, now).id == r.id
    ensures RowFits(AfterUpload(config, r, outcome, now), uploads, AtLeastOne(config.maxAttempts))
  {
  }

  lemma UploadSettledFits(w: World, k: nat, outcome: Outcome, now: int, config: Config)
    requires Invariant(w, config) && Enabled(w, UploadSettled(k, outcome, now))
    ensures Invariant(Next(w, UploadSettled(k, outcome, now), config), config)
  {
    var p, cap := w.pool, AtLeastOne(config.maxAttempts);
    var runnable, cursor, workers := p.phase.runnable, p.phase.cursor, p.phase.workers;
    var after := Saving(AfterUpload(config, workers[k].record, outcome, now));
    assert WorkerFits(workers[k], w.uploads, cap);
    OutcomeFits(config, workers[k].record, outcome, now, w.uploads);
    ReplaceKeepsClaims(runnable, cursor, workers, p.inFlight, k, after);
    ReplaceKeepsPass(runnable, cursor, workers, w.sent, w.cut, k, after);
  }

  lemma SaveFits(w: World, k: nat, config: Config)
    requires Invariant(w, config) && Enabled(w, Save(k))
    ensures Invariant(Next(w, Save(k), config), config)
  {
    var p, cap := w.pool, AtLeastOne(config.maxAttempts);
    var runnable, cursor, workers := p.phase.runnable, p.phase.cursor, p.phase.workers;
    assert WorkerFits(workers[k], w.uploads, cap);
    ReleaseKeepsClaims(runnable, cursor, workers, p.inFlight, k);
    ReplaceKeepsPass(runnable, cursor, workers, w.sent, w.cut, k, Ready);
  }

  lemma JoinWorkersFits(w: World, config: Config)
    requires Invariant(w, config) && Enabled(w, JoinWorkers)
    ensures Invariant(Next(w, JoinWorkers, config), config)
  {
    assert forall id :: id in w.pool.inFlight ==> Held(w.pool.phase.workers, id);
    assert w.pool.inFlight == {};
  }

  lemma StepKeepsInvariant(w: World, e: Event, config: Config)
    requires Invariant(w, config) && Enabled(w, e)
    ensures Invariant(Next(w, e, config), config)
  {
    match e
    case Enqueue(id, file) => RequeueFits(w, Record(id, file, Queued, 0, 0, None, None), config);
    case Retry(id) =>
      if id in w.pool.store && w.pool.store[id].status == Failed {
        RequeueFits(w, Requeued(w.pool.store[id]), config);
      }
    case Environment(stopped, suitable) =>
    case Process =>
    case List(rows, now) => ListFits(w, rows, now, config);
    case Receive => ReceiveFits(w, config);
    case Claim(k) => ClaimFits(w, k, config);
    case MarkUploading(k) => MarkUploadingFits(w, k, config);
    case UploadSettled(k, outcome, now) => UploadSettledFits(w, k, outcome, now, config);
    case Save(k) => SaveFits(w, k, config);
    case JoinWorkers => JoinWorkersFits(w, config);
    case ReturnFromPass =>
  }

  lemma {:induction false} RunKeepsInvariant(store: map<Id, Record>, suitable: bool, run: seq<Event>, config: Config)
    requires StartsWell(store, config) && IsRun(store, suitable, run, config)
    ensures Invariant(After(store, suitable, run, config), config)
    decreases |run|
  {
    if run != [] {
      var rest := run[..|run| - 1];
      RunKeepsInvariant(store, suitable, rest, config);
      StepKeepsInvariant(After(store, suitable, rest, config), run[|run| - 1], config);
    }
  }

  // --- the guarantees -------------------------------------------------------------------

  ghost function SendingWorkers(w: World): set<int> {
    if w.pool.phase.Working? then set k | 0 <= k < |w.pool.phase.workers| && w.pool.phase.workers[k].Sending?
    else {}
  }

  lemma {:induction false} IndicesAreFew(s: set<int>, n: nat)
    requires forall k :: k in s ==> 0 <= k < n
    ensures |s| <= n
  {
    if n == 0 {
      assert forall k :: k !in s;
      assert s == {};
    } else {
      IndicesAreFew(s - {n - 1}, n - 1);
    }
  }

  /** At most `maxConcurrent` uploads at once (one, if that is not positive), never two of one item. */
  lemma UploadsAreBoundedAndDistinct(store: map<Id, Record>, suitable: bool, run: seq<Event>, config: Config)
    requires StartsWell(store, config) && IsRun(store, suitable, run, config)
    ensures var w := After(store, suitable, run, config);
      && |SendingWorkers(w)| <= AtLeastOne(config.maxConcurrent)
      && forall k, l :: k in SendingWorkers(w) && l in SendingWorkers(w) && k != l ==>
          w.pool.phase.workers[k].record.id != w.pool.phase.workers[l].record.id
  {
    RunKeepsInvariant(store, suitable, run, config);
    var w := After(store, suitable, run, config);
    if w.pool.phase.Working? {
      IndicesAreFew(SendingWorkers(w), |w.pool.phase.workers|);
      forall k, l | k in SendingWorkers(w) && l in SendingWorkers(w) && k != l
        ensures w.pool.phase.workers[k].record.id != w.pool.phase.workers[l].record.id
      {
        assert k < l || l < k;
      }
    }
  }

  /** Since it was last enqueued or retried, no item was uploaded more than `maxAttempts` times. */
  lemma AttemptsAreCapped(store: map<Id, Record>, suitable: bool, run: seq<Event>, config: Config, id: Id)
    requires StartsWell(store, config) && IsRun(store, suitable, run, config)
    ensures UploadsOf(After(store, suitable, run, config).uploads, id) <= AtLeastOne(config.maxAttempts)
  {
    RunKeepsInvariant(store, suitable, run, config);
  }

  /** No call to `process` is forgotten: a drain ends only after a pass that began after every call. */
  lemma CallsAreServed(store: map<Id, Record>, suitable: bool, run: seq<Event>, config: Config)
    requires StartsWell(store, config) && IsRun(store, suitable, run, config)
    ensures var w := After(store, suitable, run, config);
      && (!w.pool.draining ==> w.served == w.calls)
      && (w.served < w.calls ==> w.pool.draining && w.pool.rerun)
  {
    RunKeepsInvariant(store, suitable, run, config);
  }

  /** A pass that no worker left early sends every listed item, and each only once. */
  lemma FullPassSendsAll(store: map<Id, Record>, suitable: bool, run: seq<Event>, config: Config, i: nat)
    requires StartsWell(store, config) && IsRun(store, suitable, run, config)
    requires var w := After(store, suitable, run, config);
      Enabled(w, JoinWorkers) && !w.cut && i < |w.pool.phase.runnable|
    ensures var w := After(store, suitable, run, config);
      w.pool.phase.runnable[i].id in w.sent
  {
    RunKeepsInvariant(store, suitable, run, config);
    var w := After(store, suitable, run, config);
    assert w.pool.phase.workers[0].Finished?;
  }

  lemma SentOncePerPass(store: map<Id, Record>, suitable: bool, run: seq<Event>, config: Config, k: nat)
    requires StartsWell(store, config) && IsRun(store, suitable, run, config)
    requires Enabled(After(store, suitable, run, config), MarkUploading(k))
    ensures var w := After(store, suitable, run, config);
      w.pool.phase.workers[k].record.id !in w.sent
  {
    RunKeepsInvariant(store, suitable, run, config);
  }
}
