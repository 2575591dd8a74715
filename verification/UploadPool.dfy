/**
 * The attachment upload queue: one drain at a time, passes over a listed batch, and a pool of
 * workers sharing a cursor. Each method runs from one `await` to the next.
 */
module UploadPool {
  import opened Wrappers
  import opened Text

  type Id = Str

  datatype Status = Queued | Uploading | Uploaded | Failed

  /** An upload record; `file` stands for the fields that describe the staged file. */
  datatype Record = Record(id: Id, file: Str, status: Status, attempts: nat, nextAttemptAt: int,
                           remoteUrl: Option<Str>, lastError: Option<Str>)

  datatype Config = Config(maxConcurrent: int, maxAttempts: int, backoffBaseMs: int, backoffMaxMs: int)

  const DEFAULT_CONFIG := Config(2, 6, 2000, 300000)

  /** A worker between awaits: what it is waiting for. */
  datatype Worker =
    | Ready
    | Staging(record: Record)  // the put of status `uploading`
    | Sending(record: Record)  // the upload
    | Saving(record: Record)   // the put of the outcome
    | Finished

  datatype Phase =
    | NotDraining
    | Listing
    | Listed(rows: seq<Record>)
    | Working(runnable: seq<Record>, cursor: nat, workers: seq<Worker>)
    | Returning

  datatype Pool = Pool(store: map<Id, Record>, inFlight: set<Id>, draining: bool, rerun: bool,
                       stopped: bool, suitable: bool, phase: Phase)

  datatype Outcome = Sent(url: Str) | Rejected(message: Str)

  function AtLeastOne(n: int): nat {
    if n < 1 then 1 else n
  }

  // --- backoff ---------------------------------------------------------------------

  function Doubled(base: int, times: nat): int {
    if times == 0 then base else 2 * Doubled(base, times - 1)
  }

  function Backoff(config: Config, attempts: nat): int
    requires attempts > 0
  {
    var delay := Doubled(config.backoffBaseMs, attempts - 1);
    if config.backoffMaxMs < delay then config.backoffMaxMs else delay
  }

  /** Waits never shrink from one failure to the next, and never exceed the cap. */
  lemma {:induction false} BackoffGrows(config: Config, attempts: nat)
    requires attempts > 0 && config.backoffBaseMs >= 0
    ensures Backoff(config, attempts) <= Backoff(config, attempts + 1) <= config.backoffMaxMs
    ensures config.backoffBaseMs <= config.backoffMaxMs ==> Backoff(config, attempts) >= config.backoffBaseMs
  {
    if attempts > 1 {
      BackoffGrows(config, attempts - 1);
    }
    DoubledGrows(config.backoffBaseMs, attempts - 1);
  }

  lemma {:induction false} DoubledGrows(base: int, times: nat)
    requires base >= 0
    ensures base <= Doubled(base, times) <= Doubled(base, times + 1)
  {
    if times > 0 {
      DoubledGrows(base, times - 1);
    }
  }

  // --- the steps, as functions -------------------------------------------------------

  /** The first candidate at or after `cursor` that is not in flight. */
  function Scan(runnable: seq<Record>, cursor: nat, inFlight: set<Id>): (j: nat)
    requires cursor <= |runnable|
    ensures cursor <= j <= |runnable|
    ensures j < |runnable| ==> runnable[j].id !in inFlight
    decreases |runnable| - cursor
  {
    if cursor == |runnable| || runnable[cursor].id !in inFlight then cursor else Scan(runnable, cursor + 1, inFlight)
  }

  /** `r.status === 'queued' && !this.inFlight.has(r.id)`. */
  function Runnable(rows: seq<Record>, inFlight: set<Id>): seq<Record> {
    if rows == [] then []
    else
      var rest, r := Runnable(rows[..|rows| - 1], inFlight), rows[|rows| - 1];
      if r.status == Queued && r.id !in inFlight then rest + [r] else rest
  }

  /** The record that a settled upload writes back. */
  function AfterUpload(config: Config, r: Record, outcome: Outcome, now: int): Record {
    match outcome
    case Sent(url) => r.(status := Uploaded, remoteUrl := Some(url), lastError := None)
    case Rejected(message) =>
      if r.attempts + 1 >= config.maxAttempts
      then r.(status := Failed, attempts := r.attempts + 1, lastError := Some(message))
      else r.(status := Queued, attempts := r.attempts + 1,
              nextAttemptAt := now + Backoff(config, r.attempts + 1), lastError := Some(message))
  }

  function PassStarted(p: Pool): Pool {
    p.(rerun := false, phase := if p.stopped || !p.suitable then Returning else Listing)
  }

  function Processed(p: Pool): Pool {
    if p.draining then p.(rerun := true) else PassStarted(p.(draining := true))
  }

  function PassReturned(p: Pool): Pool {
    if p.rerun then PassStarted(p) else p.(draining := false, phase := NotDraining)
  }

  function Received(p: Pool, config: Config): Pool
    requires p.phase.Listed?
  {
    var runnable := Runnable(p.phase.rows, p.inFlight);
    var wanted := AtLeastOne(config.maxConcurrent);
    var count := if |runnable| < wanted then |runnable| else wanted;
    p.(phase := if runnable == [] then Returning else Working(runnable, 0, seq(count, _ => Ready)))
  }

  ghost predicate At(p: Pool, k: nat) {
    p.phase.Working? && p.phase.cursor <= |p.phase.runnable| && k < |p.phase.workers|
  }

  function WithWorker(p: Pool, k: nat, w: Worker): Pool
    requires At(p, k)
  {
    p.(phase := p.phase.(workers := p.phase.workers[k := w]))
  }

  function Claimed(p: Pool, k: nat): Pool
    requires At(p, k)
  {
    if p.stopped || !p.suitable then WithWorker(p, k, Finished)
    else
      var j := Scan(p.phase.runnable, p.phase.cursor, p.inFlight);
      if j == |p.phase.runnable| then p.(phase := p.phase.(cursor := j, workers := p.phase.workers[k := Finished]))
      else
        var next := p.phase.runnable[j];
        p.(inFlight := p.inFlight + {next.id},
           phase := p.phase.(cursor := j + 1, workers := p.phase.workers[k := Staging(next)]))
  }

  function Staged(p: Pool, k: nat): Pool
    requires At(p, k) && p.phase.workers[k].Staging?
  {
    var r := p.phase.workers[k].record;
    WithWorker(p.(store := p.store[r.id := r.(status := Uploading)]), k, Sending(r))
  }

  function Settled(p: Pool, config: Config, k: nat, outcome: Outcome, now: int): Pool
    requires At(p, k) && p.phase.workers[k].Sending?
  {
    WithWorker(p, k, Saving(AfterUpload(config, p.phase.workers[k].record, outcome, now)))
  }

  function Saved(p: Pool, k: nat): Pool
    requires At(p, k) && p.phase.workers[k].Saving?
  {
    var r := p.phase.workers[k].record;
    WithWorker(p.(store := p.store[r.id := r], inFlight := p.inFlight - {r.id}), k, Ready)
  }

  function Requeued(r: Record): Record {
    r.(status := Queued, attempts := 0, nextAttemptAt := 0, lastError := None)
  }

  // --- the queue ----------------------------------------------------------------------

  class AttachmentUploadQueue {
    const config: Config
    var store: map<Id, Record>
    var inFlight: set<Id>
    var draining: bool
    var rerun: bool
    var stopped: bool
    var suitable: bool
    var phase: Phase

    ghost function State(): Pool
      reads this
    {
      Pool(store, inFlight, draining, rerun, stopped, suitable, phase)
    }

    constructor (config: Config, store: map<Id, Record>, suitable: bool)
      ensures this.config == config
      ensures State() == Pool(store, {}, false, false, false, suitable, NotDraining)
    {
      this.config, this.store, this.suitable := config, store, suitable;
      inFlight, draining, rerun, stopped, phase := {}, false, false, false, NotDraining;
    }

    /** The put of `enqueue`; a `Process` follows. */
    method Enqueue(id: Id, file: Str)
      modifies this`store
      ensures store == old(store)[id := Record(id, file, Queued, 0, 0, None, None)]
    {
      store := store[id := Record(id, file, Queued, 0, 0, None, None)];
    }

    /** The read and the put of `retry`; a `Process` follows if it requeued. */
    method Retry(id: Id) returns (requeued: bool)
      modifies this`store
      ensures requeued <==> id in old(store) && old(store)[id].status == Failed
      ensures store == if requeued then old(store)[id := Requeued(old(store)[id])] else old(store)
    {
      if id !in store || store[id].status != Failed {
        return false;
      }
      store := store[id := Requeued(store[id])];
      return true;
    }

    method StartPass()
      modifies this`rerun, this`phase
      ensures State() == PassStarted(old(State()))
    {
      rerun := false;
      if stopped || !suitable {
        phase := Returning;
      } else {
        phase := Listing;
      }
    }

    method Process()
      modifies this`draining, this`rerun, this`phase
      ensures State() == Processed(old(State()))
    {
      if draining {
        rerun := true;
        return;
      }
      draining := true;
      rerun := true;
      StartPass();
    }

    /** The `while (this.rerun)` test after a pass. */
    method ReturnFromPass()
      modifies this`draining, this`rerun, this`phase
      ensures State() == PassReturned(old(State()))
    {
      if rerun {
        StartPass();
      } else {
        draining := false;
        phase := NotDraining;
      }
    }

    method Receive()
      requires phase.Listed?
      modifies this`phase
      ensures State() == Received(old(State()), config)
    {
      var rows, runnable: seq<Record>, k := phase.rows, [], 0;
      while k < |rows|
        invariant 0 <= k <= |rows|
        invariant runnable == Runnable(rows[..k], inFlight)
      {
        assert rows[..k + 1][..k] == rows[..k];
        if rows[k].status == Queued && rows[k].id !in inFlight {
          runnable := runnable + [rows[k]];
        }
        k := k + 1;
      }
      assert rows[..|rows|] == rows;
      if |runnable| == 0 {
        phase := Returning;
        return;
      }
      var count := AtLeastOne(config.maxConcurrent);
      if |runnable| < count {
        count := |runnable|;
      }
      phase := Working(runnable, 0, seq(count, _ => Ready));
    }

    /** The head of a worker's loop: claim the next item, with no await in between. */
    method Claim(k: nat)
      requires At(State(), k)
      modifies this`inFlight, this`phase
      ensures State() == Claimed(old(State()), k)
    {
      if stopped || !suitable {
        phase := phase.(workers := phase.workers[k := Finished]);
        return;
      }
      var cursor := phase.cursor;
      while cursor < |phase.runnable|
        invariant phase.cursor <= cursor <= |phase.runnable|
        invariant Scan(phase.runnable, phase.cursor, inFlight) == Scan(phase.runnable, cursor, inFlight)
      {
        var candidate := phase.runnable[cursor];
        if candidate.id !in inFlight {
          inFlight := inFlight + {candidate.id};
          phase := phase.(cursor := cursor + 1, workers := phase.workers[k := Staging(candidate)]);
          return;
        }
        cursor := cursor + 1;
      }
      phase := phase.(cursor := cursor, workers := phase.workers[k := Finished]);
    }

    method MarkUploading(k: nat)
      requires At(State(), k) && phase.workers[k].Staging?
      modifies this`store, this`phase
      ensures State() == Staged(old(State()), k)
    {
      var record := phase.workers[k].record;
      store := store[record.id := record.(status := Uploading)];
      phase := phase.(workers := phase.workers[k := Sending(record)]);
    }

    /** The upload resolves, or rejects into `handleFailure`. */
    method UploadSettled(k: nat, outcome: Outcome, now: int)
      requires At(State(), k) && phase.workers[k].Sending?
      modifies this`phase
      ensures State() == Settled(old(State()), config, k, outcome, now)
    {
      var record := phase.workers[k].record;
      match outcome
      case Sent(url) =>
        record := record.(status := Uploaded, remoteUrl := Some(url), lastError := None);
        phase := phase.(workers := phase.workers[k := Saving(record)]);
      case Rejected(message) =>
        var attempts := record.attempts + 1;
        if attempts >= config.maxAttempts {
          record := record.(status := Failed, attempts := attempts, lastError := Some(message));
        } else {
          var delay := Backoff(config, attempts);
          record := record.(status := Queued, attempts := attempts, nextAttemptAt := now + delay,
                            lastError := Some(message));
        }
        phase := phase.(workers := phase.workers[k := Saving(record)]);
    }

    method Save(k: nat)
      requires At(State(), k) && phase.workers[k].Saving?
      modifies this`store, this`inFlight, this`phase
      ensures State() == Saved(old(State()), k)
    {
      var record := phase.workers[k].record;
      store := store[record.id := record];
      inFlight := inFlight - {record.id};
      phase := phase.(workers := phase.workers[k := Ready]);
    }
  }
}
